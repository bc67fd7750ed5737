/** The rate limiter's token bucket. Times are in nanoseconds; the elapsed time is cut to whole
    milliseconds, the credit to whole tokens and then to 32 bits. */
module TokenBucket {
  import opened Common

  const TWO_32: nat := 0x1_0000_0000
  const NANOS_PER_MS: nat := 1_000_000

  datatype Bucket = Bucket(cap: nat, refillPerSec: nat, tokens: nat, last: nat)

  datatype Call = Call(n: nat, now: nat)

  predicate Valid(b: Bucket) { b.tokens <= b.cap < TWO_32 && b.refillPerSec < TWO_32 }

  /** Whole milliseconds of a duration; a clock that went backwards counts as no time. */
  function Millis(from: nat, to: nat): nat { if to <= from then 0 else (to - from) / NANOS_PER_MS }

  function Credit(refill: nat, ms: nat): nat { refill * ms / 1000 }

  function Added(b: Bucket, now: nat): nat { Credit(b.refillPerSec, Millis(b.last, now)) % TWO_32 }

  function Refill(b: Bucket, now: nat): Bucket {
    var add := Added(b, now);
    if add > 0 then b.(tokens := Min(Min(b.tokens + add, TWO_32 - 1), b.cap), last := now) else b
  }

  function AfterTake(b: Bucket, c: Call): Bucket {
    var r := Refill(b, c.now);
    if r.tokens >= c.n then r.(tokens := r.tokens - c.n) else r
  }

  function Grant(b: Bucket, c: Call): nat { if Refill(b, c.now).tokens >= c.n then c.n else 0 }

  function Final(b: Bucket, calls: seq<Call>): Bucket {
    if calls == [] then b else AfterTake(Final(b, calls[..|calls| - 1]), calls[|calls| - 1])
  }

  function Granted(b: Bucket, calls: seq<Call>): nat {
    if calls == [] then 0
    else Granted(b, calls[..|calls| - 1]) + Grant(Final(b, calls[..|calls| - 1]), calls[|calls| - 1])
  }

  predicate Ordered(start: nat, calls: seq<Call>) {
    && (forall i :: 0 <= i < |calls| ==> start <= calls[i].now)
    && forall i, j :: 0 <= i < j < |calls| ==> calls[i].now <= calls[j].now
  }

  function EndTime(start: nat, calls: seq<Call>): nat { if calls == [] then start else calls[|calls| - 1].now }

  lemma {:induction false} MillisAdd(a: nat, b: nat, c: nat)
    requires a <= b <= c
    ensures Millis(a, b) + Millis(b, c) <= Millis(a, c) <= Millis(a, b) + Millis(b, c) + 1
    ensures (b - a) % NANOS_PER_MS == 0 ==> Millis(a, c) == Millis(a, b) + Millis(b, c)
  {}

  lemma {:induction false} CreditBounds(refill: nat, ms: nat)
    ensures 1000 * Credit(refill, ms) <= refill * ms < 1000 * Credit(refill, ms) + 1000
  {}

  lemma {:induction false} RefillOver(refill: nat, a: nat, b: nat, c: nat)
    requires a + b <= c
    ensures refill * a + refill * b <= refill * c
  {}

  /** One call never creates tokens beyond the credit of the time it settles. */
  lemma {:induction false} TakeConserves(b: Bucket, c: Call)
    requires Valid(b) && b.last <= c.now
    ensures var a := AfterTake(b, c);
            && Valid(a) && a.cap == b.cap && a.refillPerSec == b.refillPerSec && b.last <= a.last <= c.now
            && 1000 * (Grant(b, c) + a.tokens) <= 1000 * b.tokens + b.refillPerSec * Millis(b.last, a.last)
  {}

  /** Granted tokens and those left never exceed the tokens at the start plus the credit of the
      elapsed time, however the calls fall. */
  lemma {:induction false} Conserved(b: Bucket, calls: seq<Call>)
    requires Valid(b) && Ordered(b.last, calls)
    ensures var e := Final(b, calls);
            && Valid(e) && e.cap == b.cap && e.refillPerSec == b.refillPerSec
            && b.last <= e.last <= EndTime(b.last, calls)
            && 1000 * (Granted(b, calls) + e.tokens) <= 1000 * b.tokens + b.refillPerSec * Millis(b.last, e.last)
  {
    if calls == [] {
      assert b.refillPerSec * Millis(b.last, b.last) == 0;
    } else {
      var n := |calls| - 1;
      var front, c := calls[..n], calls[n];
      Conserved(b, front);
      var m := Final(b, front);
      TakeConserves(m, c);
      MillisAdd(b.last, m.last, AfterTake(m, c).last);
      RefillOver(b.refillPerSec, Millis(b.last, m.last), Millis(m.last, AfterTake(m, c).last), Millis(b.last, AfterTake(m, c).last));
    }
  }

  /** Since creation: no more than the burst plus the refill of the elapsed milliseconds. */
  lemma {:induction false} TotalBound(cap: nat, refill: nat, start: nat, calls: seq<Call>)
    requires cap < TWO_32 && refill < TWO_32 && Ordered(start, calls)
    ensures var b := Bucket(cap, refill, cap, start);
            && Final(b, calls).tokens <= cap
            && 1000 * Granted(b, calls) <= 1000 * cap + refill * Millis(start, EndTime(start, calls))
  {
    var b := Bucket(cap, refill, cap, start);
    Conserved(b, calls);
    var e := Final(b, calls);
    MillisAdd(start, e.last, EndTime(start, calls));
    RefillOver(refill, Millis(start, e.last), Millis(e.last, EndTime(start, calls)), Millis(start, EndTime(start, calls)));
    assert refill * Millis(e.last, EndTime(start, calls)) >= 0;
  }

  // ----- nothing is withheld -----

  /** Tokens that a call's refill would have added but for the cap. */
  function CutBy(b: Bucket, c: Call): nat { Max(b.tokens + Added(b, c.now) - b.cap, 0) }

  function CutOff(b: Bucket, calls: seq<Call>): nat {
    if calls == [] then 0
    else CutOff(b, calls[..|calls| - 1]) + CutBy(Final(b, calls[..|calls| - 1]), calls[|calls| - 1])
  }

  /** What one settlement loses, in billionths of a token: the parts of a millisecond and of a token. */
  function LossOf(refill: nat, last: nat, now: nat): nat
    requires last <= now
  {
    refill * ((now - last) % NANOS_PER_MS) + NANOS_PER_MS * (refill * Millis(last, now) % 1000)
  }

  function LossBound(refill: nat): nat { 999 * NANOS_PER_MS + refill * NANOS_PER_MS }

  function LostBy(b: Bucket, c: Call): nat {
    if b.last <= c.now && Added(b, c.now) > 0 then LossOf(b.refillPerSec, b.last, c.now) else 0
  }

  function Lost(b: Bucket, calls: seq<Call>): nat {
    if calls == [] then 0
    else Lost(b, calls[..|calls| - 1]) + LostBy(Final(b, calls[..|calls| - 1]), calls[|calls| - 1])
  }

  /** How many of the calls refilled the bucket. */
  function Settlements(b: Bucket, calls: seq<Call>): nat {
    if calls == [] then 0
    else Settlements(b, calls[..|calls| - 1])
         + if Added(Final(b, calls[..|calls| - 1]), calls[|calls| - 1].now) > 0 then 1 else 0
  }

  /** No credit of the elapsed time outgrows 32 bits. */
  predicate Untruncated(b: Bucket, end: nat) { Credit(b.refillPerSec, Millis(b.last, end)) < TWO_32 }

  lemma {:induction false} TakeExact(b: Bucket, c: Call)
    requires Valid(b)
    ensures Grant(b, c) + AfterTake(b, c).tokens + CutBy(b, c) == b.tokens + Added(b, c.now)
    ensures AfterTake(b, c).last == if Added(b, c.now) > 0 then c.now else b.last
  {}

  const NANOS: nat := 1_000_000_000

  /** One settlement accounts for its whole time, and loses nothing exactly when whole milliseconds have
      brought whole tokens. */
  lemma {:induction false} SettlementAccounts(refill: nat, last: nat, now: nat)
    requires last <= now
    ensures NANOS * Credit(refill, Millis(last, now)) + LossOf(refill, last, now) == refill * (now - last)
    ensures LossOf(refill, last, now) <= LossBound(refill)
    ensures LossOf(refill, last, now) == 0 <==>
              (refill == 0 || (now - last) % NANOS_PER_MS == 0) && refill * Millis(last, now) % 1000 == 0
  {
    var ms, rest := Millis(last, now), (now - last) % NANOS_PER_MS;
    assert now - last == NANOS_PER_MS * ms + rest;
    SpanParts(refill, ms, rest);
    LossParts(refill * ms, refill * rest, refill * (now - last), refill * NANOS_PER_MS);
    NoProduct(refill, rest);
  }

  lemma {:induction false} NoProduct(a: nat, b: nat)
    ensures a * b == 0 <==> a == 0 || b == 0
  {}

  lemma {:induction false} SpanParts(refill: nat, ms: nat, rest: nat)
    requires rest < NANOS_PER_MS
    ensures refill * (NANOS_PER_MS * ms + rest) == NANOS_PER_MS * (refill * ms) + refill * rest
    ensures 0 <= refill * rest <= refill * NANOS_PER_MS
  {
    assert refill * (NANOS_PER_MS * ms) == NANOS_PER_MS * (refill * ms);
  }

  lemma {:induction false} LossParts(x: nat, part: nat, whole: nat, most: nat)
    requires whole == NANOS_PER_MS * x + part && part <= most
    ensures NANOS * (x / 1000) + part + NANOS_PER_MS * (x % 1000) == whole <= NANOS * (x / 1000) + 999 * NANOS_PER_MS + most
  {}

  lemma {:induction false} EarlierUntruncated(refill: nat, last: nat, a: nat, b: nat, end: nat)
    requires last <= a && b <= end && Credit(refill, Millis(last, end)) < TWO_32
    ensures Credit(refill, Millis(a, b)) < TWO_32
  {
    RefillOver(refill, Millis(a, b), 0, Millis(last, end));
  }

  /** The other side of `Conserved`: tokens granted, left, cut off by the cap and lost at settlements are
      exactly the tokens at the start and the time settled. */
  lemma {:induction false} NothingWithheld(b: Bucket, calls: seq<Call>)
    requires Valid(b) && Ordered(b.last, calls) && Untruncated(b, EndTime(b.last, calls))
    ensures var e := Final(b, calls);
            && b.last <= e.last <= EndTime(b.last, calls)
            && NANOS * (Granted(b, calls) + e.tokens + CutOff(b, calls)) + Lost(b, calls)
               == NANOS * b.tokens + b.refillPerSec * (e.last - b.last)
  {
    hide LostBy, Added, AfterTake, Grant, CutBy, Valid;
    Conserved(b, calls);
    if calls != [] {
      var n := |calls| - 1;
      var front, c := calls[..n], calls[n];
      Conserved(b, front);
      var m := Final(b, front);
      EarlierUntruncated(b.refillPerSec, b.last, b.last, EndTime(b.last, front), c.now);
      NothingWithheld(b, front);
      WithheldNext(b, m, c, Granted(b, front), CutOff(b, front), Lost(b, front));
    } else {
      assert b.refillPerSec * 0 == 0;
    }
  }

  lemma {:induction false} WithheldNext(b: Bucket, m: Bucket, c: Call, granted: nat, cut: nat, lost: nat)
    requires Valid(m) && m.refillPerSec == b.refillPerSec && b.last <= m.last <= c.now && Untruncated(b, c.now)
    requires NANOS * (granted + m.tokens + cut) + lost == NANOS * b.tokens + b.refillPerSec * (m.last - b.last)
    ensures var e := AfterTake(m, c);
            NANOS * (granted + Grant(m, c) + e.tokens + (cut + CutBy(m, c))) + (lost + LostBy(m, c))
            == NANOS * b.tokens + b.refillPerSec * (e.last - b.last)
  {
    hide AfterTake, Grant, CutBy, LossOf;
    TakeExact(m, c);
    if Added(m, c.now) > 0 {
      EarlierUntruncated(b.refillPerSec, b.last, m.last, c.now, c.now);
      SmallStays(Credit(b.refillPerSec, Millis(m.last, c.now)));
      SettlementAccounts(b.refillPerSec, m.last, c.now);
      SpanAdds(b.refillPerSec, b.last, m.last, c.now);
    }
  }

  /** A call is granted exactly if what was granted before, what it asks, what the cap cut off and what was
      lost at settlements fit into the tokens at the start and the time settled. */
  lemma {:induction false} GrantedIff(b: Bucket, front: seq<Call>, c: Call)
    requires Valid(b) && Ordered(b.last, front + [c]) && Untruncated(b, c.now)
    ensures var calls := front + [c];
            c.n <= Refill(Final(b, front), c.now).tokens
            <==> NANOS * (Granted(b, front) + c.n + CutOff(b, calls)) + Lost(b, calls)
                 <= NANOS * b.tokens + b.refillPerSec * (Final(b, calls).last - b.last)
  {
    hide Refill, Lost, CutOff, Added, Valid;
    var calls := front + [c];
    NothingWithheld(b, calls);
    assert calls[..|front|] == front;
    assert Granted(b, calls) == Granted(b, front) + Grant(Final(b, front), c);
    assert Final(b, calls) == AfterTake(Final(b, front), c);
  }

  /** Each settlement loses less than a token and a millisecond's refill. */
  lemma {:induction false} LostBounded(b: Bucket, calls: seq<Call>)
    requires Valid(b) && Ordered(b.last, calls)
    ensures Lost(b, calls) <= Settlements(b, calls) * LossBound(b.refillPerSec)
  {
    hide LossOf, Added, AfterTake, Grant, Valid, LossBound;
    if calls != [] {
      var n := |calls| - 1;
      var front, c := calls[..n], calls[n];
      Conserved(b, front);
      LostBounded(b, front);
      var m := Final(b, front);
      SettlementAccounts(b.refillPerSec, m.last, c.now);
      OneMore(Settlements(b, front), LossBound(b.refillPerSec));
    }
  }

  lemma {:induction false} OneMore(n: nat, k: nat)
    ensures (n + 1) * k == n * k + k
  {}

  lemma {:induction false} SmallStays(x: nat)
    requires x < TWO_32
    ensures x % TWO_32 == x
  {}

  lemma {:induction false} SpanAdds(refill: nat, a: nat, b: nat, c: nat)
    requires a <= b <= c
    ensures refill * (c - a) == refill * (b - a) + refill * (c - b)
  {}

  /** Each call asks for no more than the whole tokens of the whole milliseconds since the call before. */
  predicate Paced(b: Bucket, calls: seq<Call>) {
    forall i :: 0 <= i < |calls| ==>
      calls[i].n <= b.cap && calls[i].n <= Credit(b.refillPerSec, Millis(EndTime(b.last, calls[..i]), calls[i].now))
  }

  function Asked(calls: seq<Call>): nat {
    if calls == [] then 0 else Asked(calls[..|calls| - 1]) + calls[|calls| - 1].n
  }

  /** A client that keeps this pace is never refused. */
  lemma {:induction false} PacedNeverRefused(b: Bucket, calls: seq<Call>)
    requires Valid(b) && Ordered(b.last, calls) && Untruncated(b, EndTime(b.last, calls)) && Paced(b, calls)
    ensures Granted(b, calls) == Asked(calls)
  {
    if calls != [] {
      var n := |calls| - 1;
      var front, c := calls[..n], calls[n];
      assert forall i :: 0 <= i < n ==> front[..i] == calls[..i];
      EarlierUntruncated(b.refillPerSec, b.last, b.last, EndTime(b.last, front), c.now);
      PacedNeverRefused(b, front);
      Conserved(b, front);
      PacedTaken(b, Final(b, front), EndTime(b.last, front), c);
    }
  }

  lemma {:induction false} PacedTaken(b: Bucket, m: Bucket, before: nat, c: Call)
    requires Valid(m) && m.cap == b.cap && m.refillPerSec == b.refillPerSec && b.last <= m.last <= before <= c.now
    requires Untruncated(b, c.now) && c.n <= b.cap && c.n <= Credit(b.refillPerSec, Millis(before, c.now))
    ensures Grant(m, c) == c.n
  {
    EarlierUntruncated(b.refillPerSec, b.last, m.last, c.now, c.now);
    SmallStays(Credit(b.refillPerSec, Millis(m.last, c.now)));
    RefillOver(b.refillPerSec, Millis(before, c.now), 0, Millis(m.last, c.now));
  }

  /** Keeping within the nominal rate is not enough: at 1500 a second, two calls in two milliseconds ask
      for the three tokens of that time and get one. */
  lemma {:induction false} NominalRateRefused()
    ensures var b, calls := Bucket(10, 1500, 0, 0), [Call(1, 1_000_000), Call(2, 2_000_000)];
            NANOS * Asked(calls) == b.refillPerSec * 2_000_000 && Granted(b, calls) == 1
  {
    hide Granted, Asked, Final, Added;
    var b, first, second := Bucket(10, 1500, 0, 0), Call(1, 1_000_000), Call(2, 2_000_000);
    TwoCalls(b, first, second);
    OneToken(b, 1_000_000);
    assert AfterTake(b, first) == Bucket(10, 1500, 0, 1_000_000) && Grant(b, first) == 1;
    OneToken(AfterTake(b, first), 2_000_000);
  }

  lemma {:induction false} OneToken(b: Bucket, now: nat)
    requires b.refillPerSec == 1500 && now == b.last + 1_000_000
    ensures Added(b, now) == 1
  {
    assert Millis(b.last, now) == 1 && Credit(1500, 1) == 1;
  }

  lemma {:induction false} TwoCalls(b: Bucket, first: Call, second: Call)
    ensures Granted(b, [first, second]) == Grant(b, first) + Grant(AfterTake(b, first), second)
    ensures Asked([first, second]) == first.n + second.n
  {
    hide AfterTake, Grant;
    assert [first, second][..1] == [first] && [first][..0] == [];
    assert Final(b, []) == b && Granted(b, []) == 0 && Asked([]) == 0;
  }

  // ----- windows -----

  /** At time `t` the bucket has nothing left to settle: its open credit is a multiple of 2^32. */
  predicate Settled(b: Bucket, t: nat) { b.last <= t && Added(b, t) == 0 }

  lemma {:induction false} TakeSettles(b: Bucket, c: Call)
    requires Valid(b) && b.last <= c.now
    ensures Settled(AfterTake(b, c), c.now)
  {}

  /** `t` is a whole number of milliseconds after the last settlement. */
  predicate Aligned(b: Bucket, t: nat) { t >= b.last && (t - b.last) % NANOS_PER_MS == 0 }

  /** Thousandths of a token open at `t`, and the refill of the millisecond under way. */
  function Excess(b: Bucket, t: nat): nat {
    b.refillPerSec * Millis(b.last, t) % 1000 + if Aligned(b, t) then 0 else b.refillPerSec
  }

  lemma {:induction false} CreditSince(refill: nat, ms: nat, later: nat, gap: nat, extra: nat)
    requires ms <= later <= ms + gap + extra && extra <= 1 && Credit(refill, ms) % TWO_32 == 0
    ensures 1000 * (Credit(refill, later) % TWO_32) <= refill * gap + refill * ms % 1000 + refill * extra
  {
    CreditBounds(refill, later);
    RefillOver(refill, ms, 0, later);
    RefillOver(refill, later, 0, ms + gap + extra);
    RemainderSince(Credit(refill, ms), Credit(refill, later));
    assert refill * (ms + gap + extra) == refill * ms + refill * gap + refill * extra;
  }

  lemma {:induction false} RemainderSince(a: nat, b: nat)
    requires a <= b && a % TWO_32 == 0
    ensures b % TWO_32 <= b - a
  {}

  /** The first call after a settled moment that refills. */
  lemma {:induction false} TakeAfterSettled(b: Bucket, t: nat, c: Call)
    requires Valid(b) && Settled(b, t) && t <= c.now
    ensures var a := AfterTake(b, c);
            && Valid(a) && a.cap == b.cap && a.refillPerSec == b.refillPerSec
            && (Added(b, c.now) == 0 ==> a.last == b.last && Grant(b, c) + a.tokens == b.tokens)
            && (Added(b, c.now) > 0 ==>
                  a.last == c.now
                  && Grant(b, c) + a.tokens <= b.cap
                  && 1000 * (Grant(b, c) + a.tokens) <= 1000 * b.tokens + b.refillPerSec * Millis(t, c.now) + Excess(b, t))
  {
    if Added(b, c.now) > 0 {
      MillisAdd(b.last, t, c.now);
      CreditSince(b.refillPerSec, Millis(b.last, t), Millis(b.last, c.now), Millis(t, c.now), if Aligned(b, t) then 0 else 1);
    }
  }

  /** What is granted and left after the calls, when the first refill since `t` has happened. */
  ghost predicate Refilled(b: Bucket, t: nat, calls: seq<Call>, e: Bucket) {
    && t <= e.last <= EndTime(t, calls)
    && 1000 * (Granted(b, calls) + e.tokens) <= 1000 * b.tokens + b.refillPerSec * Millis(t, e.last) + Excess(b, t)
    && 1000 * (Granted(b, calls) + e.tokens) <= 1000 * b.tokens + b.refillPerSec * Millis(t, e.last) + 1000 * b.cap
  }

  lemma {:induction false} SameOpenPart(b: Bucket, m: Bucket, t: nat)
    requires m.last == b.last && m.refillPerSec == b.refillPerSec
    ensures Excess(m, t) == Excess(b, t) && (Settled(b, t) ==> Settled(m, t))
  {}

  lemma {:induction false} FirstRefillSum(before: nat, g: nat, tokens: nat, after: nat, left: nat, refill: nat, ms: nat, excess: nat, cap: nat)
    requires before + tokens == left
    ensures 1000 * (g + after) <= 1000 * tokens + refill * ms + excess ==>
              1000 * (before + g + after) <= 1000 * left + refill * ms + excess
    ensures g + after <= cap ==> 1000 * (before + g + after) <= 1000 * left + refill * ms + 1000 * cap
  {
    assert refill * ms >= 0;
  }

  lemma {:induction false} RefilledFirst(b: Bucket, t: nat, calls: seq<Call>)
    requires Valid(b) && Settled(b, t) && Ordered(t, calls) && calls != []
    requires var m := Final(b, calls[..|calls| - 1]);
             Valid(m) && m.cap == b.cap && m.refillPerSec == b.refillPerSec && m.last == b.last
             && Granted(b, calls[..|calls| - 1]) + m.tokens == b.tokens
    ensures var e := Final(b, calls);
            && Valid(e) && e.cap == b.cap && e.refillPerSec == b.refillPerSec
            && ((e.last == b.last && Granted(b, calls) + e.tokens == b.tokens) || Refilled(b, t, calls, e))
  {
    hide Excess, Grant, Settled, Added, AfterTake;
    var n := |calls| - 1;
    var m, c := Final(b, calls[..n]), calls[n];
    SameOpenPart(b, m, t);
    TakeAfterSettled(m, t, c);
    assert Final(b, calls) == AfterTake(m, c) && Granted(b, calls) == Granted(b, calls[..n]) + Grant(m, c);
    FirstRefillSum(Granted(b, calls[..n]), Grant(m, c), m.tokens, AfterTake(m, c).tokens, b.tokens,
                   b.refillPerSec, Millis(t, c.now), Excess(b, t), b.cap);
  }

  /** From a settled moment on: either no call has refilled yet, or the first refill settled the
      open part of a token and every later one at most its own time. */
  lemma {:induction false} SinceSettled(b: Bucket, t: nat, calls: seq<Call>)
    requires Valid(b) && Settled(b, t) && Ordered(t, calls)
    ensures var e := Final(b, calls);
            && Valid(e) && e.cap == b.cap && e.refillPerSec == b.refillPerSec
            && ((e.last == b.last && Granted(b, calls) + e.tokens == b.tokens) || Refilled(b, t, calls, e))
  {
    if calls != [] {
      var n := |calls| - 1;
      var front, c := calls[..n], calls[n];
      SinceSettled(b, t, front);
      var m := Final(b, front);
      if m.last == b.last && Granted(b, front) + m.tokens == b.tokens {
        RefilledFirst(b, t, calls);
      } else {
        TakeConserves(m, c);
        var a := AfterTake(m, c);
        MillisAdd(t, m.last, a.last);
        RefillOver(b.refillPerSec, Millis(t, m.last), Millis(m.last, a.last), Millis(t, a.last));
      }
    }
  }

  /** Tokens in the bucket when it opens a window with `first`. */
  function Opening(b: Bucket, first: Call): nat { Refill(b, first.now).tokens }

  lemma {:induction false} OpeningSplits(b: Bucket, first: Call)
    requires Valid(b)
    ensures Grant(b, first) + AfterTake(b, first).tokens == Opening(b, first) <= b.cap
  {}

  /** Any window that opens with a call: what was in the bucket, the refill of the window, and at
      most the open part of a token; and never more than one further bucket. */
  lemma {:induction false} WindowBound(b: Bucket, first: Call, calls: seq<Call>)
    requires Valid(b) && b.last <= first.now && Ordered(first.now, calls)
    ensures var total := 1000 * (Grant(b, first) + Granted(AfterTake(b, first), calls));
            var usual := 1000 * Opening(b, first) + b.refillPerSec * Millis(first.now, EndTime(first.now, calls));
            total <= usual + Excess(AfterTake(b, first), first.now) && total <= usual + 1000 * b.cap
  {
    hide Final, Granted, Excess, AfterTake, Added, Grant, Opening;
    var t, a := first.now, AfterTake(b, first);
    OpeningSplits(b, first);
    TakeConserves(b, first);
    TakeSettles(b, first);
    SinceSettled(a, t, calls);
    var e, end := Final(a, calls), EndTime(t, calls);
    var settled: nat := if t <= e.last <= end then Millis(t, e.last) else 0;
    if t <= e.last <= end { MillisAdd(t, e.last, end); }
    WindowSum(Opening(b, first), Grant(b, first), a.tokens, Granted(a, calls), e.tokens,
              b.refillPerSec, settled, Millis(t, end), Excess(a, t), b.cap);
  }

  lemma {:induction false} WindowSum(opening: nat, g1: nat, left: nat, g2: nat, end: nat, refill: nat, ms: nat, window: nat,
                                     excess: nat, cap: nat)
    requires g1 + left == opening && ms <= window
    requires g2 + end == left
             || (1000 * (g2 + end) <= 1000 * left + refill * ms + excess && 1000 * (g2 + end) <= 1000 * left + refill * ms + 1000 * cap)
    ensures 1000 * (g1 + g2) <= 1000 * opening + refill * window + excess
    ensures 1000 * (g1 + g2) <= 1000 * opening + refill * window + 1000 * cap
  {
    assert 0 <= refill * ms <= refill * window;
  }

  /** Every continuation of the window stays less than one token above burst plus refill. */
  ghost predicate OneTokenWindow(b: Bucket, first: Call) {
    forall calls :: Ordered(first.now, calls) ==> BelowOneToken(b, first, calls)
  }

  ghost predicate BelowOneToken(b: Bucket, first: Call, calls: seq<Call>) {
    1000 * (Grant(b, first) + Granted(AfterTake(b, first), calls))
    < 1000 * b.cap + b.refillPerSec * Millis(first.now, EndTime(first.now, calls)) + 1000
  }

  /** The guard, computable before the call: the call settles or comes whole milliseconds after the
      last settlement, or there is nothing to grant, or the open part of a token together with one
      millisecond's refill does not reach a token more than the bucket has room for. */
  predicate OneTokenGuard(b: Bucket, first: Call) {
    var r := Refill(b, first.now);
    Aligned(r, first.now) || r.tokens == 0 || Excess(r, first.now) < 1000 * (b.cap - r.tokens + 1)
  }

  lemma {:induction false} SameSettlement(b: Bucket, first: Call)
    requires Valid(b) && b.last <= first.now
    ensures var r, a := Refill(b, first.now), AfterTake(b, first);
            && a.last == r.last <= first.now && a.refillPerSec == r.refillPerSec == b.refillPerSec && a.cap == b.cap
            && Excess(a, first.now) == Excess(r, first.now) && (Aligned(a, first.now) <==> Aligned(r, first.now))
  {}

  lemma {:induction false} GuardSuffices(b: Bucket, first: Call, calls: seq<Call>)
    requires Valid(b) && b.last <= first.now && Ordered(first.now, calls) && OneTokenGuard(b, first)
    ensures BelowOneToken(b, first, calls)
  {
    hide Granted, Grant, AfterTake, Final;
    WindowBound(b, first, calls);
    OpeningSplits(b, first);
    SameSettlement(b, first);
  }

  /** The continuation that empties the bucket and calls again as the next millisecond begins. */
  lemma {:induction false} NextMillisecond(a: Bucket, t: nat) returns (calls: seq<Call>)
    requires Valid(a) && Settled(a, t) && !Aligned(a, t) && a.cap > 0 && Excess(a, t) >= 1000
    ensures Ordered(t, calls) && Millis(t, EndTime(t, calls)) == 0
    ensures Granted(a, calls) == a.tokens + Min(Excess(a, t) / 1000, a.cap)
  {
    var m := Millis(a.last, t);
    var add := Excess(a, t) / 1000;
    var c := a.last + (m + 1) * NANOS_PER_MS;
    var first, second := Call(a.tokens, t), Call(Min(add, a.cap), c);
    calls := [first, second];
    NextCredit(a.refillPerSec, m);
    assert Millis(a.last, c) == m + 1;
    assert t < c < t + NANOS_PER_MS;
    var empty := a.(tokens := 0);
    assert AfterTake(a, first) == empty && Grant(a, first) == a.tokens;
    assert Added(empty, c) == add;
    assert Grant(empty, second) == Min(add, a.cap);
    assert calls[..1] == [first] && [first][..0] == [];
    assert Final(a, []) == a && Final(a, [first]) == empty && Granted(a, [first]) == a.tokens;
  }

  lemma {:induction false} NextCredit(refill: nat, m: nat)
    requires Credit(refill, m) % TWO_32 == 0 && refill < TWO_32
    ensures Credit(refill, m + 1) % TWO_32 == (refill * m % 1000 + refill) / 1000
  {
    var x := refill * m;
    assert refill * (m + 1) == x + refill;
    assert (x + refill) / 1000 == x / 1000 + (x % 1000 + refill) / 1000;
    SmallRemainder(x / 1000, (x % 1000 + refill) / 1000);
  }

  lemma {:induction false} SmallRemainder(q: nat, k: nat)
    requires q % TWO_32 == 0 && k < TWO_32
    ensures (q + k) % TWO_32 == k
  {}

  lemma {:induction false} GuardNeeded(b: Bucket, first: Call) returns (calls: seq<Call>)
    requires Valid(b) && b.last <= first.now && !OneTokenGuard(b, first)
    ensures Ordered(first.now, calls) && !BelowOneToken(b, first, calls)
  {
    hide Final, Granted, Excess, Grant;
    var a, t := AfterTake(b, first), first.now;
    TakeConserves(b, first);
    TakeSettles(b, first);
    OpeningSplits(b, first);
    SameSettlement(b, first);
    calls := NextMillisecond(a, t);
    assert b.refillPerSec * 0 == 0;
  }

  /** The one-token bound of a window holds for every continuation if and only if the guard does. */
  lemma {:induction false} WindowBoundIff(b: Bucket, first: Call)
    requires Valid(b) && b.last <= first.now
    ensures OneTokenWindow(b, first) <==> OneTokenGuard(b, first)
  {
    if OneTokenGuard(b, first) {
      forall calls | Ordered(first.now, calls) ensures BelowOneToken(b, first, calls) {
        GuardSuffices(b, first, calls);
      }
    } else {
      var calls := GuardNeeded(b, first);
    }
  }

  /** An instance that fails the guard: 1.9 ms and 3.0 ms after creation, at 700 tokens per second. */
  lemma {:induction false} WindowExceedsOneToken()
    ensures var b, first := Bucket(2, 700, 2, 0), Call(2, 1_900_000);
            !OneTokenGuard(b, first) && !BelowOneToken(b, first, [Call(2, 3_000_000)])
  {
    var b, first, second := Bucket(2, 700, 2, 0), Call(2, 1_900_000), Call(2, 3_000_000);
    assert Millis(0, first.now) == 1 && Millis(0, second.now) == 3 && Millis(first.now, second.now) == 1;
    assert Credit(700, 1) == 0 && Credit(700, 3) == 2;
    var a := AfterTake(b, first);
    assert a == Bucket(2, 700, 0, 0) && Grant(b, first) == 2;
    assert [second][..0] == [];
    assert Granted(a, [second]) == Granted(a, []) + Grant(Final(a, []), second);
  }

  class Limiter {
    const cap: nat
    const refillPerSec: nat
    var tokens: nat
    var last: nat

    function Value(): Bucket
      reads this
    {
      Bucket(cap, refillPerSec, tokens, last)
    }

    constructor (refillPerSec: nat, burst: nat, now: nat)
      requires refillPerSec < TWO_32 && burst < TWO_32
      ensures Value() == Bucket(burst, refillPerSec, burst, now) && Valid(Value())
    {
      cap, this.refillPerSec, tokens, last := burst, refillPerSec, burst, now;
    }

    method Take(n: nat, now: nat) returns (ok: bool)
      requires Valid(Value())
      modifies this
      ensures Value() == AfterTake(old(Value()), Call(n, now)) && Valid(Value())
      ensures ok ==> Grant(old(Value()), Call(n, now)) == n && tokens + n <= cap
      ensures !ok ==> Grant(old(Value()), Call(n, now)) == 0 && tokens < n
      ensures var ms := if now <= old(last) then 0 else (now - old(last)) / 1_000_000;
              var credit := refillPerSec * ms / 1000 % 0x1_0000_0000;
              var have := Min(cap, old(tokens) + credit);
              && (ok <==> n <= have) && tokens == (if ok then have - n else have)
              && last == if credit > 0 then now else old(last)
    {
      var ms := if now <= last then 0 else (now - last) / NANOS_PER_MS;
      var add := refillPerSec * ms / 1000 % TWO_32;
      if add > 0 {
        tokens := Min(Min(tokens + add, TWO_32 - 1), cap);
        last := now;
      }
      if tokens >= n {
        tokens := tokens - n;
        return true;
      }
      return false;
    }

    /** Tokens granted over a whole sequence of calls. */
    method TakeAll(calls: seq<Call>) returns (granted: nat)
      requires Valid(Value())
      modifies this
      ensures Value() == Final(old(Value()), calls) && granted == Granted(old(Value()), calls)
      ensures Ordered(old(last), calls) && Untruncated(old(Value()), EndTime(old(last), calls)) && Paced(old(Value()), calls) ==>
                granted == Asked(calls)
    {
      hide Paced, Ordered, Untruncated, Asked, AfterTake, Grant;
      ghost var start := Value();
      if Ordered(start.last, calls) && Untruncated(start, EndTime(start.last, calls)) && Paced(start, calls) {
        PacedNeverRefused(start, calls);
      }
      granted := 0;
      for i := 0 to |calls|
        invariant Valid(Value()) && Value() == Final(old(Value()), calls[..i])
        invariant granted == Granted(old(Value()), calls[..i])
      {
        assert calls[..i + 1][..i] == calls[..i];
        var ok := Take(calls[i].n, calls[i].now);
        if ok { granted := granted + calls[i].n; }
      }
      assert calls[..|calls|] == calls;
    }
  }
}
