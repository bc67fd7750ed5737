/** How far the native supply can grow over many periods when it grows only through granted
    reservations. */
module EmissionGrowth {
  import opened Common
  import opened EmissionBudget
  import opened EmissionGate
  import opened EmissionProtocol

  ghost function SumMap(m: map<nat, nat>): nat
    decreases |m|
  {
    if m == map[] then 0
    else
      var k :| k in m;
      m[k] + SumMap(m - {k})
  }

  lemma {:induction false} SumMapRemove(m: map<nat, nat>, k: nat)
    requires k in m
    ensures SumMap(m) == m[k] + SumMap(m - {k})
    decreases |m|
  {
    var j :| j in m && SumMap(m) == m[j] + SumMap(m - {j});
    if j != k {
      SumMapRemove(m - {j}, k);
      SumMapRemove(m - {k}, j);
      assert m - {j} - {k} == m - {k} - {j};
    }
  }

  lemma {:induction false} SumMapPut(m: map<nat, nat>, k: nat, v: nat)
    ensures SumMap(m[k := v]) == SumMap(m) - Lookup(m, k).GetOr(0) + v
  {
    SumMapRemove(m[k := v], k);
    assert m[k := v] - {k} == m - {k};
    if k in m {
      SumMapRemove(m, k);
    } else {
      assert m - {k} == m;
    }
  }

  lemma {:induction false} SumMapBelow(a: map<nat, nat>, b: map<nat, nat>)
    requires forall k :: Lookup(a, k).GetOr(0) <= Lookup(b, k).GetOr(0)
    ensures SumMap(a) <= SumMap(b)
    decreases |a|
  {
    if a != map[] {
      var k :| k in a;
      SumMapRemove(a, k);
      assert Lookup(a, k).GetOr(0) <= Lookup(b, k).GetOr(0);
      if k in b { SumMapRemove(b, k); } else { assert b - {k} == b; }
      forall j ensures Lookup(a - {k}, j).GetOr(0) <= Lookup(b - {k}, j).GetOr(0) {
        assert Lookup(a, j).GetOr(0) <= Lookup(b, j).GetOr(0);
      }
      SumMapBelow(a - {k}, b - {k});
    }
  }

  /** Native supply that has ever existed: the initial supply and everything minted. */
  ghost function Issued(s: System, initial: nat): nat {
    initial + SumMap(s.minted)
  }

  /** Supply if every frozen budget were spent. */
  ghost function Committed(s: System, initial: nat): nat {
    initial + SumMap(s.frozen)
  }

  /** `n` periods of growth by `share`, each rounded up by half a unit. */
  function Compound(initial: nat, share: real, n: nat): real {
    if n == 0 then initial as real else Compound(initial, share, n - 1) * (1.0 + share) + 0.5
  }

  /** What the callers of the gate do: read a supply that has existed, and use a corridor whose
      period share is at most `share`. */
  ghost predicate Bounded(s: System, ev: Event, initial: nat, share: real) {
    ev.Reserve? ==> ev.supply <= Issued(s, initial) && MaxShare(ev.params) <= share
  }

  /** The most one more period can be given on top of `committed`. */
  function NextBudget(committed: nat, share: real): real {
    committed as real * share + 0.5
  }

  ghost predicate BudgetBounded(s: System, st: EpochState, limit: real) {
    st.epochId in s.frozen || st.budget as real <= limit
  }

  ghost predicate WithinLimits(s: System, initial: nat, top: real, limit: real) {
    && Committed(s, initial) as real <= top
    && BudgetBounded(s, s.gate.ram, limit)
    && BudgetBounded(s, Durable(s), limit)
  }

  ghost predicate Growth(s: System, initial: nat, share: real) {
    WithinLimits(s, initial, Compound(initial, share, |s.frozen|), NextBudget(Committed(s, initial), share))
  }

  lemma {:induction false} IssuedWithinCommitted(s: System, initial: nat)
    requires Safe(s)
    ensures Issued(s, initial) <= Committed(s, initial)
  {
    SafeMeans(s);
    forall e ensures Lookup(s.minted, e).GetOr(0) <= Lookup(s.frozen, e).GetOr(0) {
      assert MintedIn(s, e) <= Used(s, e);
    }
    SumMapBelow(s.minted, s.frozen);
  }

  /** A budget fixed at roll-over is bounded by what was committed before. */
  lemma {:induction false} FreshBudgetBounded(c: nat, supply: int, budget: int, shareNow: real, share: real)
    requires supply <= c && 0.0 <= shareNow <= share
    requires budget as real <= Max(supply, 0) as real * shareNow + 0.5
    ensures budget as real <= NextBudget(c, share)
  {}

  lemma {:induction false} GrantedGrowth(c: nat, budget: nat, initial: nat, share: real, n: nat)
    requires 0.0 <= share && c as real <= Compound(initial, share, n)
    requires budget as real <= NextBudget(c, share)
    ensures (c + budget) as real <= Compound(initial, share, n + 1)
  {}

  lemma {:induction false} GrowthKept(s: System, t: System, initial: nat, share: real)
    requires Growth(s, initial, share) && t.frozen == s.frozen
    requires BudgetBounded(s, t.gate.ram, NextBudget(Committed(s, initial), share))
    requires BudgetBounded(s, Durable(t), NextBudget(Committed(s, initial), share))
    ensures Growth(t, initial, share)
  {}

  lemma {:induction false} FirstGrantFreezes(s: System, g: Gate, amount: nat, initial: nat)
    requires Moved(s.gate, g, amount) && amount > 0 && g.ram.epochId !in s.frozen
    ensures var t := Granted(s, g, amount);
            && Committed(t, initial) == Committed(s, initial) + g.ram.budget
            && |t.frozen| == |s.frozen| + 1
            && t.gate.ram.epochId in t.frozen && Durable(t) == t.gate.ram
  {
    var t := Granted(s, g, amount);
    SumMapPut(s.frozen, g.ram.epochId, g.ram.budget);
    assert t.frozen.Keys == s.frozen.Keys + {g.ram.epochId};
    assert |t.frozen| == |t.frozen.Keys| && |s.frozen| == |s.frozen.Keys|;
  }

  lemma {:induction false} FirstGrant(s: System, g: Gate, amount: nat, initial: nat, share: real)
    requires Growth(s, initial, share) && Moved(s.gate, g, amount) && 0.0 <= share
    requires amount > 0 && g.ram.epochId !in s.frozen
    requires g.ram.budget as real <= NextBudget(Committed(s, initial), share)
    ensures Growth(Granted(s, g, amount), initial, share)
  {
    FirstGrantFreezes(s, g, amount, initial);
    var t, c, n := Granted(s, g, amount), Committed(s, initial), |s.frozen|;
    GrantedGrowth(c, g.ram.budget, initial, share, n);
    FreshLimits(t, initial, Compound(initial, share, n + 1), NextBudget(Committed(t, initial), share));
  }

  lemma {:induction false} FreshLimits(t: System, initial: nat, top: real, limit: real)
    requires Committed(t, initial) as real <= top
    requires t.gate.ram.epochId in t.frozen && Durable(t) == t.gate.ram
    ensures WithinLimits(t, initial, top, limit)
  {}

  lemma {:induction false} GrantKeepsGrowth(s: System, g: Gate, amount: nat, initial: nat, share: real)
    requires Growth(s, initial, share) && Moved(s.gate, g, amount) && 0.0 <= share
    requires BudgetBounded(s, g.ram, NextBudget(Committed(s, initial), share))
    ensures Growth(Granted(s, g, amount), initial, share)
  {
    if amount > 0 && g.ram.epochId !in s.frozen {
      FirstGrant(s, g, amount, initial, share);
    } else {
      GrowthKept(s, Granted(s, g, amount), initial, share);
    }
  }

  lemma {:induction false} CalledBudgetBounded(s: System, g: Gate, supply: int, initial: nat, shareNow: real, share: real)
    requires Safe(s) && Growth(s, initial, share) && 0.0 <= shareNow <= share && supply <= Issued(s, initial)
    requires g.ram.epochId == s.gate.ram.epochId ==> g.ram.budget == s.gate.ram.budget
    requires FreshBudget(s.gate, g, supply, shareNow)
    ensures BudgetBounded(s, g.ram, NextBudget(Committed(s, initial), share))
  {
    if g.ram.epochId != s.gate.ram.epochId {
      IssuedWithinCommitted(s, initial);
      FreshBudgetBounded(Committed(s, initial), supply, g.ram.budget, shareNow, share);
    }
  }

  lemma {:induction false} ReserveKeepsGrowth(s: System, ev: Event, initial: nat, share: real)
    requires Safe(s) && Growth(s, initial, share) && ev.Reserve? && Bounded(s, ev, initial, share) && 0.0 <= share
    ensures Growth(Next(s, ev), initial, share)
  {
    var (g, r) := Reserved(s.gate, ev.mintEnabled, ev.nowMs, ev.supply, ev.params, ev.voie, ev.requested, ev.write);
    var amount := if r.Ok? then r.value else 0;
    assert Next(s, ev) == Granted(s, g, amount);
    assert Moved(s.gate, g, amount) && FreshBudget(s.gate, g, ev.supply, MaxShare(ev.params)) by {
      ReserveMoves(s.gate, ev.mintEnabled, ev.nowMs, ev.supply, ev.params, ev.voie, ev.requested, ev.write);
    }
    assert 0.0 <= MaxShare(ev.params) by { MaxShareNonNegative(ev.params); }
    GrantGrows(s, g, amount, ev.supply, initial, MaxShare(ev.params), share);
  }

  lemma {:induction false} GrantGrows(s: System, g: Gate, amount: nat, supply: int, initial: nat, shareNow: real, share: real)
    requires Safe(s) && Growth(s, initial, share) && Moved(s.gate, g, amount)
    requires 0.0 <= shareNow <= share && supply <= Issued(s, initial) && FreshBudget(s.gate, g, supply, shareNow)
    ensures Growth(Granted(s, g, amount), initial, share)
  {
    CalledBudgetBounded(s, g, supply, initial, shareNow, share);
    GrantKeepsGrowth(s, g, amount, initial, share);
  }

  lemma {:induction false} ReleaseKeepsGrowth(s: System, ev: Event, initial: nat, share: real)
    requires Growth(s, initial, share) && (ev.ReleaseOf? || ev.ReleaseAfterEffect?)
    ensures Growth(Next(s, ev), initial, share)
  {
    hide Compound, NextBudget, Committed;
    GrowthKept(s, Next(s, ev), initial, share);
  }

  lemma {:induction false} CrashKeepsGrowth(s: System, readable: bool, initial: nat, share: real)
    requires Growth(s, initial, share) && 0.0 <= share
    ensures Growth(Next(s, Crash(readable)), initial, share)
  {
    hide Compound, Committed;
    MulMonotone(0.0, Committed(s, initial) as real, share);
    GrowthKept(s, Next(s, Crash(readable)), initial, share);
  }

  lemma {:induction false} StepKeepsGrowth(s: System, ev: Event, initial: nat, share: real)
    requires Safe(s) && Growth(s, initial, share) && Enabled(s, ev) && Bounded(s, ev, initial, share) && 0.0 <= share
    ensures Growth(Next(s, ev), initial, share)
  {
    hide Growth, Safe, Bounded, Next;
    match ev
    case Reserve(_, _, _, _, _, _, _) => ReserveKeepsGrowth(s, ev, initial, share);
    case MintOf(r) => MintKeepsGrowth(s, r, initial, share);
    case ReleaseOf(_, _) => ReleaseKeepsGrowth(s, ev, initial, share);
    case ReleaseAfterEffect(_, _) => ReleaseKeepsGrowth(s, ev, initial, share);
    case Crash(readable) => CrashKeepsGrowth(s, readable, initial, share);
  }

  lemma {:induction false} MintKeepsGrowth(s: System, r: Reservation, initial: nat, share: real)
    requires Growth(s, initial, share)
    ensures Growth(Next(s, MintOf(r)), initial, share)
  {
    hide Compound, NextBudget, Committed;
    GrowthKept(s, Next(s, MintOf(r)), initial, share);
  }

  ghost predicate BoundedRun(run: seq<Event>, initial: nat, share: real) {
    forall i :: 0 <= i < |run| ==> BoundedStep(run, i, initial, share)
  }

  ghost predicate BoundedStep(run: seq<Event>, i: nat, initial: nat, share: real)
    requires i < |run|
  {
    Bounded(StateAfter(INITIAL_SYSTEM, run[..i]), run[i], initial, share)
  }

  /** Over any run in which `n` periods granted anything, the native supply is at most `n` steps
      of compound growth at the corridor's share, whatever the target rate. */
  lemma {:induction false} SupplyCompounds(run: seq<Event>, initial: nat, share: real)
    requires ValidRun(INITIAL_SYSTEM, run) && BoundedRun(run, initial, share) && 0.0 <= share
    ensures Growth(StateAfter(INITIAL_SYSTEM, run), initial, share)
    ensures Issued(StateAfter(INITIAL_SYSTEM, run), initial) as real
              <= Compound(initial, share, |StateAfter(INITIAL_SYSTEM, run).frozen|)
  {
    RunStaysSafe(run);
    if run == [] {
      MulMonotone(0.0, initial as real, share);
    } else {
      var n := |run| - 1;
      ValidPrefix(INITIAL_SYSTEM, run, n);
      forall i | 0 <= i < n ensures BoundedStep(run[..n], i, initial, share) {
        assert run[..n][..i] == run[..i];
        assert BoundedStep(run, i, initial, share);
      }
      SupplyCompounds(run[..n], initial, share);
      RunStaysSafe(run[..n]);
      assert StepAllowed(INITIAL_SYSTEM, run, n) && BoundedStep(run, n, initial, share);
      StepKeepsGrowth(StateAfter(INITIAL_SYSTEM, run[..n]), run[n], initial, share);
    }
    IssuedWithinCommitted(StateAfter(INITIAL_SYSTEM, run), initial);
  }

  function Pow(q: real, n: nat): real { if n == 0 then 1.0 else q * Pow(q, n - 1) }

  function Geometric(q: real, n: nat): real { if n == 0 then 0.0 else q * Geometric(q, n - 1) + 1.0 }

  /** The bound in closed form: initial supply times (1 + share)^n, plus half a unit for each
      period, itself compounded. */
  lemma {:induction false} CompoundClosedForm(initial: nat, share: real, n: nat)
    ensures Compound(initial, share, n) == initial as real * Pow(1.0 + share, n) + 0.5 * Geometric(1.0 + share, n)
  {
    if n > 0 {
      CompoundClosedForm(initial, share, n - 1);
      var q, p, g, i := 1.0 + share, Pow(1.0 + share, n - 1), Geometric(1.0 + share, n - 1), initial as real;
      assert (i * p + 0.5 * g) * q == i * (q * p) + 0.5 * (q * g);
    }
  }
}
