/** The emission protocol under concurrency, failed writes and crashes: several reservations in
    flight, each minted or released later. What every step keeps, and what that means for the
    total native supply over many periods. */
module EmissionProtocol {
  import opened Common
  import opened EmissionBudget
  import opened EmissionGate

  datatype Reservation = Reservation(epoch: nat, amount: nat)

  /** `minted` is what each period has actually issued, `frozen` the budget each period's first
      granted reservation was drawn from; both are history, not state of the program. */
  datatype System = System(
    gate: Gate,
    inFlight: multiset<Reservation>,
    minted: map<nat, nat>,
    frozen: map<nat, nat>)

  datatype Event =
    | Reserve(mintEnabled: Option<bool>, nowMs: nat, supply: int, params: EmissionParams,
              voie: Voie, requested: Option<int>, write: WriteOutcome)
    | MintOf(r: Reservation)
    | ReleaseOf(r: Reservation, write: WriteOutcome)
    | ReleaseAfterEffect(r: Reservation, write: WriteOutcome)
    | Crash(readable: bool)

  const INITIAL_SYSTEM := System(Gate(INITIAL_STATE, None), multiset{}, map[], map[])

  /** Total in flight for one period. */
  ghost function InFlight(ms: multiset<Reservation>, e: nat): nat
    decreases |ms|
  {
    if ms == multiset{} then 0
    else
      var r :| r in ms;
      (if r.epoch == e then r.amount else 0) + InFlight(ms - multiset{r}, e)
  }

  lemma {:induction false} InFlightRemove(ms: multiset<Reservation>, r: Reservation, e: nat)
    requires r in ms
    ensures InFlight(ms, e) == (if r.epoch == e then r.amount else 0) + InFlight(ms - multiset{r}, e)
    decreases |ms|
  {
    var q :| q in ms && InFlight(ms, e) == (if q.epoch == e then q.amount else 0) + InFlight(ms - multiset{q}, e);
    if q != r {
      InFlightRemove(ms - multiset{q}, r, e);
      InFlightRemove(ms - multiset{r}, q, e);
      assert ms - multiset{q} - multiset{r} == ms - multiset{r} - multiset{q};
    }
  }

  lemma {:induction false} InFlightAdd(ms: multiset<Reservation>, r: Reservation, e: nat)
    ensures InFlight(ms + multiset{r}, e) == (if r.epoch == e then r.amount else 0) + InFlight(ms, e)
  {
    InFlightRemove(ms + multiset{r}, r, e);
    assert ms + multiset{r} - multiset{r} == ms;
  }

  ghost function MintedIn(s: System, e: nat): nat {
    Lookup(s.minted, e).GetOr(0)
  }

  /** Issued in a period plus still reserved in it. */
  ghost function Used(s: System, e: nat): nat {
    MintedIn(s, e) + InFlight(s.inFlight, e)
  }

  ghost predicate Enabled(s: System, ev: Event) {
    match ev
    case MintOf(r) => r in s.inFlight
    case ReleaseOf(r, _) => r in s.inFlight
    case ReleaseAfterEffect(r, _) => r in s.inFlight
    case _ => true
  }

  /** The hypotheses: a reservation is released while its own period is current, nothing is released
      after its block took effect, and a restart can read the recorded state, if there is any. */
  ghost predicate Orderly(s: System, ev: Event) {
    && (ev.ReleaseOf? ==> ev.r.epoch == s.gate.ram.epochId)
    && !ev.ReleaseAfterEffect?
    && (ev.Crash? ==> ev.readable || Durable(s) == INITIAL_STATE)
  }

  /** A reservation call that moved the gate to `g` and granted `amount`. */
  function Granted(s: System, g: Gate, amount: nat): System {
    if amount > 0 then
      System(g, s.inFlight + multiset{Reservation(g.ram.epochId, amount)}, s.minted,
             if g.ram.epochId in s.frozen then s.frozen else s.frozen[g.ram.epochId := Max(g.ram.budget, 0)])
    else s.(gate := g)
  }

  function Next(s: System, ev: Event): System {
    match ev
    case Reserve(en, now, supply, p, v, req, w) =>
      var (g, r) := Reserved(s.gate, en, now, supply, p, v, req, w);
      Granted(s, g, if r.Ok? then r.value else 0)
    case MintOf(r) =>
      s.(inFlight := s.inFlight - multiset{r},
         minted := s.minted[r.epoch := Lookup(s.minted, r.epoch).GetOr(0) + r.amount])
    case ReleaseOf(r, w) =>
      s.(gate := Released(s.gate, r.amount, w), inFlight := s.inFlight - multiset{r})
    case ReleaseAfterEffect(r, w) =>
      s.(gate := Released(s.gate, r.amount, w), inFlight := s.inFlight - multiset{r},
         minted := s.minted[r.epoch := Lookup(s.minted, r.epoch).GetOr(0) + r.amount])
    case Crash(readable) =>
      s.(gate := Reloaded(s.gate, readable), inFlight := multiset{})
  }

  function Durable(s: System): EpochState {
    s.gate.durable.GetOr(INITIAL_STATE)
  }

  /** The memory copy counts at least what its period uses; the durable copy is of the same
      period and ahead, or of an earlier one while nothing has been granted since. */
  ghost predicate Counters(s: System) {
    var (ram, d) := (s.gate.ram, Durable(s));
    && WithinBudget(ram) && WithinBudget(d)
    && ram.emitted >= Used(s, ram.epochId)
    && d.emitted >= Used(s, d.epochId)
    && d.epochId <= ram.epochId
    && (d.epochId == ram.epochId ==> Ahead(d, ram))
  }

  /** Only periods with a frozen budget are used, each within it. */
  ghost predicate FrozenCovers(s: System) {
    && (forall e :: Used(s, e) > 0 ==> e in s.frozen)
    && (forall e :: e in s.frozen ==> Used(s, e) <= s.frozen[e] && e <= Durable(s).epochId)
  }

  ghost predicate HasFrozenBudget(s: System, st: EpochState) {
    st.epochId in s.frozen ==> st.budget == s.frozen[st.epochId]
  }

  ghost predicate Frozen(s: System) {
    FrozenCovers(s) && HasFrozenBudget(s, s.gate.ram) && HasFrozenBudget(s, Durable(s))
  }

  ghost predicate Safe(s: System) {
    Counters(s) && Frozen(s)
  }

  lemma {:induction false} InitiallyFrozen(s: System)
    requires s.inFlight == multiset{} && s.minted == map[] && s.frozen == map[]
    ensures Frozen(s)
  {}

  lemma {:induction false} InitiallyCounted(s: System)
    requires s.inFlight == multiset{} && s.minted == map[] && s.gate == Gate(INITIAL_STATE, None)
    ensures Counters(s)
  {}

  lemma {:induction false} InitiallySafe()
    ensures Safe(INITIAL_SYSTEM)
  {
    InitiallyCounted(INITIAL_SYSTEM);
    InitiallyFrozen(INITIAL_SYSTEM);
  }

  lemma {:induction false} GrantUses(s: System, g: Gate, amount: nat, e: nat)
    ensures Used(Granted(s, g, amount), e) == Used(s, e) + (if e == g.ram.epochId then amount else 0)
  {
    if amount > 0 {
      InFlightAdd(s.inFlight, Reservation(g.ram.epochId, amount), e);
    }
  }

  lemma {:induction false} GrantKeepsCounters(s: System, g: Gate, amount: nat)
    requires Safe(s) && Moved(s.gate, g, amount)
    ensures Counters(Granted(s, g, amount))
  {
    var t := Granted(s, g, amount);
    var e := g.ram.epochId;
    GrantUses(s, g, amount, e);
    GrantUses(s, g, amount, Durable(t).epochId);
    if e > s.gate.ram.epochId {
      assert e !in s.frozen && Used(s, e) == 0;
    }
  }

  lemma {:induction false} NewPeriodUnused(s: System, g: Gate, amount: nat)
    requires Safe(s) && Moved(s.gate, g, amount) && g.ram.epochId != s.gate.ram.epochId
    ensures g.ram.epochId !in s.frozen && Used(s, g.ram.epochId) == 0
  {}

  lemma {:induction false} GrantCoversAt(s: System, g: Gate, amount: nat, e: nat)
    requires Safe(s) && Moved(s.gate, g, amount)
    ensures var t := Granted(s, g, amount);
            && (Used(t, e) > 0 ==> e in t.frozen)
            && (e in t.frozen ==> Used(t, e) <= t.frozen[e] && e <= Durable(t).epochId)
  {
    GrantUses(s, g, amount, e);
    if g.ram.epochId != s.gate.ram.epochId { NewPeriodUnused(s, g, amount); }
    if e in s.frozen {
      assert Used(s, e) <= s.frozen[e];
    }
  }

  lemma {:induction false} GrantKeepsCovers(s: System, g: Gate, amount: nat)
    requires Safe(s) && Moved(s.gate, g, amount)
    ensures FrozenCovers(Granted(s, g, amount))
  {
    forall e: nat { GrantCoversAt(s, g, amount, e); }
  }

  lemma {:induction false} GrantKeepsFrozen(s: System, g: Gate, amount: nat)
    requires Safe(s) && Moved(s.gate, g, amount)
    ensures Frozen(Granted(s, g, amount))
  {
    GrantKeepsCovers(s, g, amount);
    if g.ram.epochId != s.gate.ram.epochId { NewPeriodUnused(s, g, amount); }
  }

  lemma {:induction false} ReserveKeepsSafe(s: System, ev: Event)
    requires Safe(s) && ev.Reserve?
    ensures Safe(Next(s, ev))
  {
    var (g, r) := Reserved(s.gate, ev.mintEnabled, ev.nowMs, ev.supply, ev.params, ev.voie, ev.requested, ev.write);
    ReserveMoves(s.gate, ev.mintEnabled, ev.nowMs, ev.supply, ev.params, ev.voie, ev.requested, ev.write);
    GrantKeepsCounters(s, g, if r.Ok? then r.value else 0);
    GrantKeepsFrozen(s, g, if r.Ok? then r.value else 0);
  }

  lemma {:induction false} MintKeepsSafe(s: System, r: Reservation)
    requires Safe(s) && r in s.inFlight
    ensures Safe(Next(s, MintOf(r)))
    ensures forall e :: Used(Next(s, MintOf(r)), e) == Used(s, e)
  {
    forall e ensures Used(Next(s, MintOf(r)), e) == Used(s, e) {
      InFlightRemove(s.inFlight, r, e);
    }
  }

  lemma {:induction false} ReleaseKeepsSafe(s: System, r: Reservation, w: WriteOutcome)
    requires Safe(s) && r in s.inFlight && r.epoch == s.gate.ram.epochId
    ensures Safe(Next(s, ReleaseOf(r, w)))
  {
    var t := Next(s, ReleaseOf(r, w));
    forall e ensures Used(t, e) == Used(s, e) - (if e == r.epoch then r.amount else 0) {
      InFlightRemove(s.inFlight, r, e);
    }
    if r.amount > 0 {
      assert r.epoch in s.frozen;
      assert Durable(s).epochId == r.epoch;
    }
  }

  lemma {:induction false} CrashKeepsSafe(s: System, readable: bool)
    requires Safe(s) && (readable || Durable(s) == INITIAL_STATE)
    ensures Safe(Next(s, Crash(readable)))
  {}

  /** Every step keeps the invariant and never moves a frozen budget. */
  lemma {:induction false} StepKeepsSafe(s: System, ev: Event)
    requires Safe(s) && Enabled(s, ev) && Orderly(s, ev)
    ensures Safe(Next(s, ev))
    ensures forall e :: e in s.frozen ==> e in Next(s, ev).frozen && Next(s, ev).frozen[e] == s.frozen[e]
  {
    match ev
    case Reserve(_, _, _, _, _, _, _) => ReserveKeepsSafe(s, ev);
    case MintOf(r) => MintKeepsSafe(s, r);
    case ReleaseOf(r, w) => ReleaseKeepsSafe(s, r, w);
    case Crash(readable) => CrashKeepsSafe(s, readable);
  }

  // ----- runs -----

  function StateAfter(s: System, run: seq<Event>): System {
    if run == [] then s else Next(StateAfter(s, run[..|run| - 1]), run[|run| - 1])
  }

  ghost predicate StepAllowed(s: System, run: seq<Event>, i: nat)
    requires i < |run|
  {
    Enabled(StateAfter(s, run[..i]), run[i]) && Orderly(StateAfter(s, run[..i]), run[i])
  }

  ghost predicate ValidRun(s: System, run: seq<Event>) {
    forall i :: 0 <= i < |run| ==> StepAllowed(s, run, i)
  }

  lemma {:induction false} ValidPrefix(s: System, run: seq<Event>, n: nat)
    requires ValidRun(s, run) && n <= |run|
    ensures ValidRun(s, run[..n])
  {
    forall i | 0 <= i < n ensures StepAllowed(s, run[..n], i) {
      assert run[..n][..i] == run[..i];
      assert StepAllowed(s, run, i);
    }
  }

  /** Over any run: no period ever issues, or has reserved, more than its frozen budget, and the
      durable counter is never below what its period has issued. */
  lemma {:induction false} RunStaysSafe(run: seq<Event>)
    requires ValidRun(INITIAL_SYSTEM, run)
    ensures Safe(StateAfter(INITIAL_SYSTEM, run))
    ensures forall e :: Used(StateAfter(INITIAL_SYSTEM, run), e) <= Lookup(StateAfter(INITIAL_SYSTEM, run).frozen, e).GetOr(0)
    ensures Durable(StateAfter(INITIAL_SYSTEM, run)).emitted
              >= MintedIn(StateAfter(INITIAL_SYSTEM, run), Durable(StateAfter(INITIAL_SYSTEM, run)).epochId)
  {
    if run == [] {
      InitiallySafe();
    } else {
      var n := |run| - 1;
      ValidPrefix(INITIAL_SYSTEM, run, n);
      RunStaysSafe(run[..n]);
      assert StepAllowed(INITIAL_SYSTEM, run, n);
      StepKeepsSafe(StateAfter(INITIAL_SYSTEM, run[..n]), run[n]);
    }
    SafeMeans(StateAfter(INITIAL_SYSTEM, run));
  }

  lemma {:induction false} SafeMeans(s: System)
    requires Safe(s)
    ensures forall e :: Used(s, e) <= Lookup(s.frozen, e).GetOr(0)
    ensures Durable(s).emitted >= MintedIn(s, Durable(s).epochId)
  {}

  // ----- runs without slack -----

  /** Books with no slack: the counter equals what the current period uses. */
  ghost predicate NoSlack(s: System) {
    s.gate.ram.emitted == Used(s, s.gate.ram.epochId)
  }

  lemma {:induction false} StepKeepsNoSlack(s: System, ev: Event)
    requires Safe(s) && NoSlack(s) && Enabled(s, ev) && Orderly(s, ev) && !ev.Crash?
    ensures NoSlack(Next(s, ev))
  {
    hide Safe, Frozen, Counters;
    match ev
    case Reserve(en, now, supply, p, v, req, w) =>
      var (g, r) := Reserved(s.gate, en, now, supply, p, v, req, w);
      ReserveKeepsNoSlack(s, ev, g, if r.Ok? then r.value else 0);
    case MintOf(r) => MintKeepsSafe(s, r);
    case ReleaseOf(r, w) => ReleaseKeepsNoSlack(s, r, w);
  }

  lemma {:induction false} ReserveKeepsNoSlack(s: System, ev: Event, g: Gate, amount: nat)
    requires Safe(s) && NoSlack(s) && ev.Reserve?
    requires var (h, r) := Reserved(s.gate, ev.mintEnabled, ev.nowMs, ev.supply, ev.params, ev.voie, ev.requested, ev.write);
             g == h && amount == if r.Ok? then r.value else 0
    ensures NoSlack(Granted(s, g, amount))
  {
    assert Moved(s.gate, g, amount) by {
      ReserveMoves(s.gate, ev.mintEnabled, ev.nowMs, ev.supply, ev.params, ev.voie, ev.requested, ev.write);
    }
    hide Reserved, Frozen;
    GrantUses(s, g, amount, g.ram.epochId);
    if g.ram.epochId != s.gate.ram.epochId { NewPeriodUnused(s, g, amount); }
  }

  lemma {:induction false} ReleaseKeepsNoSlack(s: System, r: Reservation, w: WriteOutcome)
    requires NoSlack(s) && r in s.inFlight && r.epoch == s.gate.ram.epochId
    ensures NoSlack(Next(s, ReleaseOf(r, w)))
  {
    hide InFlight;
    InFlightRemove(s.inFlight, r, r.epoch);
  }

  /** Failed writes leave no slack, only restarts do. */
  lemma {:induction false} NoSlackWithoutRestart(run: seq<Event>)
    requires ValidRun(INITIAL_SYSTEM, run) && forall i :: 0 <= i < |run| ==> !run[i].Crash?
    ensures NoSlack(StateAfter(INITIAL_SYSTEM, run))
  {
    if run != [] {
      var n := |run| - 1;
      ValidPrefix(INITIAL_SYSTEM, run, n);
      NoSlackWithoutRestart(run[..n]);
      RunStaysSafe(run[..n]);
      assert StepAllowed(INITIAL_SYSTEM, run, n);
      StepKeepsNoSlack(StateAfter(INITIAL_SYSTEM, run[..n]), run[n]);
    }
  }

  // ----- each hypothesis is needed -----

  /** Without slack, a release keeps the counter covering its period exactly when the reservation
      belongs to the current period or nothing is counted in it. */
  lemma {:induction false} ReleaseCoversIff(s: System, r: Reservation, w: WriteOutcome)
    requires Safe(s) && NoSlack(s) && r in s.inFlight && r.amount > 0
    ensures var t := Next(s, ReleaseOf(r, w));
            t.gate.ram.emitted >= Used(t, t.gate.ram.epochId)
            <==> r.epoch == s.gate.ram.epochId || s.gate.ram.emitted == 0
  {
    hide Frozen;
    InFlightRemove(s.inFlight, r, s.gate.ram.epochId);
  }

  /** A release after the block took effect keeps the counter covering the period exactly when the
      slack is at least the amount. */
  lemma {:induction false} AfterEffectCoversIff(s: System, r: Reservation, w: WriteOutcome)
    requires Safe(s) && r in s.inFlight && r.epoch == s.gate.ram.epochId
    ensures var t := Next(s, ReleaseAfterEffect(r, w));
            t.gate.ram.emitted >= Used(t, r.epoch) <==> s.gate.ram.emitted - Used(s, r.epoch) >= r.amount
  {
    hide Frozen;
    InFlightRemove(s.inFlight, r, r.epoch);
  }

  /** A restart that cannot read the recorded state keeps the invariant exactly when nothing but the
      initial state is recorded. */
  lemma {:induction false} UnreadableKeepsSafeIff(s: System)
    requires Safe(s)
    ensures Safe(Next(s, Crash(false))) <==> Durable(s) == INITIAL_STATE
  {
    if Durable(s) == INITIAL_STATE { CrashKeepsSafe(s, false); }
  }

  /** One year at 100 percent of a supply of 10, the whole budget of period `t` claimed at once. */
  function Claim(t: nat): Event {
    Reserve(Some(true), t * (SECONDS_PER_YEAR * 1000), 10, EmissionParams(100.0, 100.0, 0.0, SECONDS_PER_YEAR),
            OnRamp, Some(10), Written)
  }

  lemma {:induction false} YearlyDoubling()
    ensures ComputeEpochBudget(10, Claim(1).params) == 10
    ensures forall t: nat :: EpochOf(t * (SECONDS_PER_YEAR * 1000), SECONDS_PER_YEAR) == t
  {}

  /** Claiming the full budget of period `t`, in a period not yet begun or with its counter at zero. */
  lemma {:induction false} ClaimGrants(s: System, t: nat)
    requires 0 < t && (s.gate.ram.epochId < t || s.gate.ram == EpochState(t, 10, 10, 0))
    ensures Next(s, Claim(t)).gate == Gate(EpochState(t, 10, 10, 10), Some(EpochState(t, 10, 10, 10)))
    ensures Next(s, Claim(t)).inFlight == s.inFlight + multiset{Reservation(t, 10)}
    ensures Next(s, Claim(t)).minted == s.minted
    ensures Next(s, Claim(t)).frozen == if t in s.frozen then s.frozen else s.frozen[t := 10]
  {
    hide ComputeEpochBudget, EpochOf;
    YearlyDoubling();
  }

  /** Handing back the full budget of the current period `t`, with or without effect. */
  lemma {:induction false} HandedBack(s: System, ev: Event, t: nat)
    requires ev.ReleaseOf? || ev.ReleaseAfterEffect?
    requires ev.r.amount == 10 && ev.write == Written && s.gate.ram == EpochState(t, 10, 10, 10)
    ensures Next(s, ev).gate.ram == EpochState(t, 10, 10, 0)
    ensures Next(s, ev).inFlight == s.inFlight - multiset{ev.r} && Next(s, ev).frozen == s.frozen
    ensures Next(s, ev).minted == if ev.ReleaseOf? then s.minted else s.minted[ev.r.epoch := Lookup(s.minted, ev.r.epoch).GetOr(0) + 10]
  {}

  lemma {:induction false} MintMoves(s: System, r: Reservation)
    ensures var t := Next(s, MintOf(r));
            && t.gate == s.gate && t.inFlight == s.inFlight - multiset{r} && t.frozen == s.frozen
            && t.minted == s.minted[r.epoch := Lookup(s.minted, r.epoch).GetOr(0) + r.amount]
  {}

  /** Period 1 claimed and left open, period 2 claimed and minted, then the claim of period 1 handed back. */
  function StaleRelease(): System {
    Next(Next(Next(Next(INITIAL_SYSTEM, Claim(1)), Claim(2)), MintOf(Reservation(2, 10))), ReleaseOf(Reservation(1, 10), Written))
  }

  lemma {:induction false} StaleReleaseReopens()
    ensures var s := StaleRelease();
            && s.gate.ram == EpochState(2, 10, 10, 0) && s.inFlight == multiset{}
            && s.minted == map[2 := 10] && s.frozen == map[1 := 10, 2 := 10]
  {
    hide Next, Claim;
    var a, b := Reservation(1, 10), Reservation(2, 10);
    ClaimGrants(INITIAL_SYSTEM, 1);
    var s1 := Next(INITIAL_SYSTEM, Claim(1));
    ClaimGrants(s1, 2);
    var s2 := Next(s1, Claim(2));
    MintMoves(s2, b);
    var s3 := Next(s2, MintOf(b));
    HandedBack(s3, ReleaseOf(a, Written), 2);
    assert multiset{} + multiset{a} + multiset{b} - multiset{b} - multiset{a} == multiset{};
  }

  /** One stale release is enough to issue twice the budget of a period. */
  lemma {:induction false} StaleReleaseOverspends()
    ensures var s := Next(StaleRelease(), Claim(2)); 2 in s.frozen && s.frozen[2] == 10 && Used(s, 2) == 20
  {
    hide Next, Claim, InFlight, StaleRelease;
    StaleReleaseReopens();
    ClaimGrants(StaleRelease(), 2);
    InFlightOne(Reservation(2, 10));
    assert multiset{} + multiset{Reservation(2, 10)} == multiset{Reservation(2, 10)};
  }

  lemma {:induction false} InFlightOne(r: Reservation)
    ensures InFlight(multiset{r}, r.epoch) == r.amount
  {
    InFlightAdd(multiset{}, r, r.epoch);
    assert multiset{} + multiset{r} == multiset{r};
  }

  /** One restart that cannot read the recorded state is enough as well. */
  lemma {:induction false} UnreadableReloadOverspends()
    ensures var s := Next(Next(Next(Next(INITIAL_SYSTEM, Claim(1)), MintOf(Reservation(1, 10))), Crash(false)), Claim(1));
            1 in s.frozen && s.frozen[1] == 10 && Used(s, 1) == 20
  {
    hide Reserved, InFlight, Claim;
    var r := Reservation(1, 10);
    ClaimGrants(INITIAL_SYSTEM, 1);
    var s2 := Next(Next(INITIAL_SYSTEM, Claim(1)), MintOf(r));
    var s3 := Next(s2, Crash(false));
    ClaimGrants(s3, 1);
    InFlightOne(r);
    assert Next(s3, Claim(1)).inFlight == multiset{r};
  }

  /** `n` calls in period 1 after the persist channel has closed: each block takes effect and each
      reservation is handed back. */
  function ClosedChannelRounds(n: nat): System {
    if n == 0 then INITIAL_SYSTEM
    else Next(Next(ClosedChannelRounds(n - 1), Claim(1)), ReleaseAfterEffect(Reservation(1, 10), Written))
  }

  /** They issue the budget of the period once per call, without limit. */
  lemma {:induction false} ClosedChannelIssuesWithoutLimit(n: nat)
    ensures MintedIn(ClosedChannelRounds(n), 1) == 10 * n && ClosedChannelRounds(n).inFlight == multiset{}
    ensures n > 0 ==> ClosedChannelRounds(n).gate.ram == EpochState(1, 10, 10, 0) && ClosedChannelRounds(n).frozen == map[1 := 10]
  {
    hide Reserved, Released, Next, Claim;
    if n > 0 {
      ClosedChannelIssuesWithoutLimit(n - 1);
      var s := ClosedChannelRounds(n - 1);
      ClaimGrants(s, 1);
      HandedBack(Next(s, Claim(1)), ReleaseAfterEffect(Reservation(1, 10), Written), 1);
      assert multiset{} + multiset{Reservation(1, 10)} - multiset{Reservation(1, 10)} == multiset{};
    }
  }
}
