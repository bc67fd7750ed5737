/** The emission gate: one budget per period, reserved counter-first. The durable copy is a
    single cell; a failed write may or may not have reached it. */
module EmissionGate {
  import opened Common
  import opened EmissionBudget

  datatype EpochState = EpochState(epochId: nat, supplyRef: int, budget: int, emitted: int)

  const INITIAL_STATE := EpochState(0, 0, 0, 0)

  datatype WriteOutcome = Written | FailedLost | FailedLanded

  datatype Voie = Baseline | OnRamp | TokenConversion | Faucet

  datatype EmissionError =
    | BudgetExhausted(voie: Voie, requested: int, remaining: int, budget: int)
    | PersistFailed
    | MintDisabled

  function Remaining(st: EpochState): int {
    Max(st.budget - st.emitted, 0)
  }

  const U64_MAX: nat := 0xFFFF_FFFF_FFFF_FFFF

  function EpochOf(nowMs: nat, epochDurationSec: nat): nat {
    nowMs / Max(Min(epochDurationSec * 1000, U64_MAX), 1)
  }

  /** Periods only roll forward: a clock that steps back never resets the counter. */
  function RollOver(st: EpochState, nowMs: nat, supply: int, p: EmissionParams): EpochState {
    var epoch := EpochOf(nowMs, p.epochDurationSec);
    if epoch > st.epochId then
      var ref := Max(supply, 0);
      EpochState(epoch, ref, ComputeEpochBudget(ref, p), 0)
    else st
  }

  /** A claim on the budget: the remainder for the baseline, the requested amount otherwise. */
  function Claimed(voie: Voie, requested: Option<int>, remaining: int): int {
    if voie.Baseline? then remaining else requested.GetOr(remaining)
  }

  function AfterWrite(durable: Option<EpochState>, st: EpochState, w: WriteOutcome): Option<EpochState> {
    if w.FailedLost? then durable else Some(st)
  }

  datatype Gate = Gate(ram: EpochState, durable: Option<EpochState>)

  /** A reservation call as a function of the gate. `mintEnabled` is the configuration read:
      `None` when it failed, which does not close the switch. */
  function Reserved(g: Gate, mintEnabled: Option<bool>, nowMs: nat, supply: int, p: EmissionParams,
                    voie: Voie, requested: Option<int>, w: WriteOutcome): (Gate, Result<nat, EmissionError>)
  {
    if mintEnabled == Some(false) then (g, Err(MintDisabled))
    else
      var st := RollOver(g.ram, nowMs, supply, p);
      var amount := Claimed(voie, requested, Remaining(st));
      if amount <= 0 then (g.(ram := st), Ok(0))
      else if amount > Remaining(st) then
        (g.(ram := st), Err(BudgetExhausted(voie, amount, Remaining(st), st.budget)))
      else
        var taken := st.(emitted := st.emitted + amount);
        if w.Written? then (Gate(taken, Some(taken)), Ok(amount))
        else (Gate(st, AfterWrite(g.durable, taken, w)), Err(PersistFailed))
  }

  function Released(g: Gate, amount: int, w: WriteOutcome): Gate {
    if amount <= 0 then g
    else
      var st := g.ram.(emitted := Max(g.ram.emitted - amount, 0));
      Gate(st, AfterWrite(g.durable, st, w))
  }

  /** A restart. A read or parse error counts as no state at all. */
  function Reloaded(g: Gate, readable: bool): Gate {
    g.(ram := if readable then g.durable.GetOr(INITIAL_STATE) else INITIAL_STATE)
  }

  /** What a call that asks for `want` is answered from the state `st` of its period: nothing for
      nothing, no more than is left, and nothing without the durable write. */
  ghost predicate Answered(st: EpochState, voie: Voie, want: int, w: WriteOutcome, r: Result<nat, EmissionError>) {
    var left := st.budget - st.emitted;
    && (r == Ok(0) <==> want <= 0)
    && (r.Ok? && r.value > 0 <==> 0 < want <= left && w.Written?)
    && (r.Ok? && r.value > 0 ==> r.value == want)
    && (r.Err? && r.error.PersistFailed? <==> 0 < want <= left && !w.Written?)
    && (r.Err? && r.error.BudgetExhausted? <==> want > 0 && want > left)
    && (r.Err? && r.error.BudgetExhausted? ==> r.error == BudgetExhausted(voie, want, Max(left, 0), st.budget))
  }

  ghost predicate WithinBudget(st: EpochState) {
    0 <= st.emitted <= st.budget
  }

  /** `d` is the durable copy of the same period as `st`, counting at least as much. */
  ghost predicate Ahead(d: EpochState, st: EpochState) {
    && WithinBudget(d)
    && d.epochId == st.epochId && d.budget == st.budget && d.supplyRef == st.supplyRef
    && d.emitted >= st.emitted
  }

  class EmissionStore {
    var emission: Option<EpochState>
    var mintEnabled: Option<bool>

    constructor (enabled: Option<bool>)
      ensures emission == None && mintEnabled == enabled
    {
      emission, mintEnabled := None, enabled;
    }

    method Record(st: EpochState, w: WriteOutcome) returns (ok: bool)
      modifies this`emission
      ensures ok <==> w.Written?
      ensures emission == AfterWrite(old(emission), st, w)
    {
      if !w.FailedLost? { emission := Some(st); }
      ok := w.Written?;
    }
  }

  /** What becomes of the forged block. A closed persist channel is reported as an error after the
      block's outputs have entered the output set. */
  datatype Insertion = Inserted | Refused | FailedAfterEffect

  lemma {:induction false} ReservedAnswers(g: Gate, mintEnabled: Option<bool>, nowMs: nat, supply: int, p: EmissionParams,
                                           voie: Voie, requested: Option<int>, w: WriteOutcome)
    ensures var (h, r) := Reserved(g, mintEnabled, nowMs, supply, p, voie, requested, w);
            var before := RollOver(g.ram, nowMs, supply, p);
            && (r == Err(MintDisabled) <==> mintEnabled == Some(false))
            && (r != Err(MintDisabled) ==>
                  && h.ram == (if r.Ok? then before.(emitted := before.emitted + r.value) else before)
                  && (voie.Baseline? || requested == None ==> Answered(before, voie, before.budget - before.emitted, w, r))
                  && (!voie.Baseline? && requested.Some? ==> Answered(before, voie, requested.value, w, r)))
            && (r.Ok? && r.value > 0 ==> h.durable == Some(h.ram))
  {
    hide RollOver;
  }

  /** How the steps after a reservation turn out. */
  datatype ForgeEnv = ForgeEnv(
    outputsBuilt: bool, parentsFound: bool, forged: bool, insertion: Insertion, releaseWrite: WriteOutcome)

  datatype EmitOutcome = Minted(amount: nat) | Nothing

  /** What becomes of a call that asks for `want`: it mints exactly that if there is enough left and
      every later step succeeds, and issues without minting only if insertion fails after its effect. */
  ghost predicate Carried(st: EpochState, voie: Voie, want: int, w: WriteOutcome, env: ForgeEnv,
                          r: Result<EmitOutcome, EmissionError>, issued: nat)
  {
    var left := st.budget - st.emitted;
    var forged := 0 < want <= left && w.Written? && env.outputsBuilt && env.parentsFound && env.forged;
    && (r.Ok? && r.value.Minted? <==> forged && env.insertion.Inserted?)
    && (r.Ok? && r.value.Minted? ==> r.value.amount == want)
    && (r == Ok(Nothing) <==> want <= 0 || (want <= left && w.Written? && !env.outputsBuilt))
    && (r.Err? && r.error.BudgetExhausted? <==> want > 0 && want > left)
    && (r.Err? ==> r.error == PersistFailed || r.error == BudgetExhausted(voie, want, Max(left, 0), st.budget))
    && issued == (if forged && !env.insertion.Refused? then want else 0)
  }

  class EmissionGate {
    var epochId: nat
    var supplyRef: int
    var budget: int
    var emitted: int

    function State(): EpochState
      reads this
    {
      EpochState(epochId, supplyRef, budget, emitted)
    }

    ghost function View(store: EmissionStore): Gate
      reads this, store
    {
      Gate(State(), store.emission)
    }

    constructor Load(store: EmissionStore, readable: bool)
      ensures View(store) == Reloaded(Gate(INITIAL_STATE, store.emission), readable)
    {
      var st := if readable then store.emission.GetOr(INITIAL_STATE) else INITIAL_STATE;
      epochId, supplyRef, budget, emitted := st.epochId, st.supplyRef, st.budget, st.emitted;
    }

    method Reserve(store: EmissionStore, nowMs: nat, currentSupply: int, params: EmissionParams,
                   voie: Voie, requested: Option<int>, w: WriteOutcome)
      returns (r: Result<nat, EmissionError>)
      modifies this, store`emission
      ensures (View(store), r) ==
                Reserved(old(View(store)), store.mintEnabled, nowMs, currentSupply, params, voie, requested, w)
      ensures r == Err(MintDisabled) <==> store.mintEnabled == Some(false)
      ensures r == Err(MintDisabled) ==> View(store) == old(View(store))
      ensures r != Err(MintDisabled) ==>
                var before := RollOver(old(State()), nowMs, currentSupply, params);
                && State() == (if r.Ok? then before.(emitted := before.emitted + r.value) else before)
                && (voie.Baseline? || requested == None ==> Answered(before, voie, before.budget - before.emitted, w, r))
                && (!voie.Baseline? && requested.Some? ==> Answered(before, voie, requested.value, w, r))
      ensures r.Ok? && r.value > 0 ==> store.emission == Some(State())
    {
      hide Answered;
      ReservedAnswers(View(store), store.mintEnabled, nowMs, currentSupply, params, voie, requested, w);
      if store.mintEnabled == Some(false) {
        return Err(MintDisabled);
      }
      var epoch := EpochOf(nowMs, params.epochDurationSec);
      if epoch > epochId {
        epochId := epoch;
        supplyRef := Max(currentSupply, 0);
        budget := ComputeEpochBudget(supplyRef, params);
        emitted := 0;
      }
      var remaining := Remaining(State());
      var amount := Claimed(voie, requested, remaining);
      if amount <= 0 {
        return Ok(0);
      }
      if amount > remaining {
        return Err(BudgetExhausted(voie, amount, remaining, budget));
      }
      emitted := emitted + amount;
      var ok := store.Record(State(), w);
      if !ok {
        emitted := emitted - amount;
        return Err(PersistFailed);
      }
      return Ok(amount);
    }

    method Release(store: EmissionStore, amount: int, w: WriteOutcome)
      modifies this, store`emission
      ensures View(store) == Released(old(View(store)), amount, w)
      ensures State() == old(State()).(emitted := if amount <= 0 then old(emitted) else Max(old(emitted) - amount, 0))
      ensures store.emission == if amount <= 0 || w.FailedLost? then old(store.emission) else Some(State())
    {
      if amount <= 0 { return; }
      emitted := Max(emitted - amount, 0);
      var _ := store.Record(State(), w);
    }

    /** Reserve, forge, persist; every failure after the reservation gives the budget back, also the
        one that comes after the block took effect. `issued` is what entered the live supply. */
    method EmitNativeGated(store: EmissionStore, nowMs: nat, supply: int, params: EmissionParams,
                           voie: Voie, requested: Option<int>, w: WriteOutcome, env: ForgeEnv)
      returns (r: Result<EmitOutcome, EmissionError>, ghost issued: nat)
      requires WithinBudget(State())
      modifies this, store`emission
      ensures WithinBudget(State())
      ensures r.Ok? && r.value.Minted? ==> issued == r.value.amount
      ensures !(r.Ok? && r.value.Minted?) && issued > 0 ==>
                r.Err? && env.insertion.FailedAfterEffect? && issued <= Remaining(State())
      ensures r.Ok? && r.value.Minted? ==>
                && var before := RollOver(old(State()), nowMs, supply, params);
                && 0 < r.value.amount <= Remaining(before)
                && State() == before.(emitted := before.emitted + r.value.amount)
                && store.emission == Some(State())
                && env.outputsBuilt && env.parentsFound && env.forged && env.insertion.Inserted?
      ensures !(r.Ok? && r.value.Minted?) && store.mintEnabled != Some(false) ==>
                State() == RollOver(old(State()), nowMs, supply, params)
      ensures store.mintEnabled != Some(false) ==>
                var before := RollOver(old(State()), nowMs, supply, params);
                && (voie.Baseline? || requested == None ==> Carried(before, voie, before.budget - before.emitted, w, env, r, issued))
                && (!voie.Baseline? && requested.Some? ==> Carried(before, voie, requested.value, w, env, r, issued))
      ensures store.mintEnabled == Some(false) ==>
                r == Err(MintDisabled) && State() == old(State()) && store.emission == old(store.emission)
    {
      BudgetBound(Max(supply, 0), params);
      issued := 0;
      var reservation := Reserve(store, nowMs, supply, params, voie, requested, w);
      if reservation.Err? {
        return Err(reservation.error), 0;
      }
      var amount := reservation.value;
      if amount <= 0 {
        return Ok(Nothing), 0;
      }
      if !env.outputsBuilt {
        Release(store, amount, env.releaseWrite);
        return Ok(Nothing), 0;
      }
      if !env.parentsFound || !env.forged {
        Release(store, amount, env.releaseWrite);
        return Err(PersistFailed), 0;
      }
      issued := if env.insertion.Refused? then 0 else amount;
      if !env.insertion.Inserted? {
        Release(store, amount, env.releaseWrite);
        return Err(PersistFailed), issued;
      }
      return Ok(Minted(amount)), issued;
    }
  }

  /** How a reservation call that grants `amount` moves the gate: the counter of the current
      period moves by exactly that, within the budget, and is durable first. */
  ghost predicate Moved(g: Gate, h: Gate, amount: nat) {
    && WithinBudget(h.ram)
    && (h.ram.epochId == g.ram.epochId ==> h.ram == g.ram.(emitted := g.ram.emitted + amount))
    && (h.ram.epochId != g.ram.epochId ==> h.ram.epochId > g.ram.epochId && h.ram.emitted == amount)
    && (h.durable == g.durable || (h.durable.Some? && Ahead(h.durable.value, h.ram)))
    && (amount > 0 ==> h.durable == Some(h.ram))
  }

  /** A budget fixed by roll-over is bounded by the corridor's share of the supply read. */
  ghost predicate FreshBudget(g: Gate, h: Gate, supply: int, share: real) {
    h.ram.epochId != g.ram.epochId ==> h.ram.budget as real <= Max(supply, 0) as real * share + 0.5
  }

  /** Length of a period in milliseconds: at least one, at most what 64 bits hold. */
  function PeriodMs(p: EmissionParams): (ms: nat)
    ensures ms >= 1
    ensures 0 < p.epochDurationSec && p.epochDurationSec * 1000 <= U64_MAX ==> ms == p.epochDurationSec * 1000
  {
    Max(Min(p.epochDurationSec * 1000, U64_MAX), 1)
  }

  lemma {:induction false} EpochHolds(now: nat, p: EmissionParams)
    ensures var e := EpochOf(now, p.epochDurationSec); e * PeriodMs(p) <= now < (e + 1) * PeriodMs(p)
  {}

  lemma {:induction false} NotAfter(e: nat, f: nat, ms: nat, now: nat)
    requires ms >= 1 && f * ms <= now < (f + 1) * ms
    ensures f > e <==> (e + 1) * ms <= now
  {
    if f > e { assert (e + 1) * ms <= f * ms; } else { assert (f + 1) * ms <= (e + 1) * ms; }
  }

  /** A period starts exactly when the clock has passed the end of the recorded one; it is then the
      period that holds the clock, unspent, with a budget from the supply read, bounded by the corridor. */
  lemma {:induction false} RollOverSpec(st: EpochState, now: nat, supply: int, p: EmissionParams)
    ensures var t := RollOver(st, now, supply, p);
            && (t != st ==> t.epochId > st.epochId)
            && (t.epochId > st.epochId <==> (st.epochId + 1) * PeriodMs(p) <= now)
            && (t.epochId > st.epochId ==>
                  && t.epochId * PeriodMs(p) <= now < (t.epochId + 1) * PeriodMs(p)
                  && t.emitted == 0 && t.supplyRef == Max(supply, 0)
                  && t.budget == ComputeEpochBudget(Max(supply, 0), p)
                  && 0.0 <= t.budget as real <= Max(supply, 0) as real * MaxShare(p) + 0.5)
            && (WithinBudget(st) ==> WithinBudget(t))
  {
    BudgetBound(Max(supply, 0), p);
    EpochHolds(now, p);
    NotAfter(st.epochId, EpochOf(now, p.epochDurationSec), PeriodMs(p), now);
  }

  lemma {:induction false} ReserveMoves(g: Gate, en: Option<bool>, now: nat, supply: int, p: EmissionParams,
                                        v: Voie, req: Option<int>, w: WriteOutcome)
    requires WithinBudget(g.ram)
    ensures var (h, r) := Reserved(g, en, now, supply, p, v, req, w);
            && Moved(g, h, if r.Ok? then r.value else 0)
            && FreshBudget(g, h, supply, MaxShare(p))
  {
    RollOverSpec(g.ram, now, supply, p);
  }

  /** Releasing what a call was granted leaves the period as the call found it. */
  lemma {:induction false} ReleaseUndoesGrant(g: Gate, en: Option<bool>, now: nat, supply: int, p: EmissionParams,
                                              v: Voie, req: Option<int>, w: WriteOutcome, w': WriteOutcome)
    requires WithinBudget(g.ram) && Reserved(g, en, now, supply, p, v, req, w).1.Ok?
    ensures var (h, r) := Reserved(g, en, now, supply, p, v, req, w);
            && Released(h, r.value, w').ram == RollOver(g.ram, now, supply, p)
            && (r.value > 0 && !w'.FailedLost? ==> Released(h, r.value, w').durable == Some(RollOver(g.ram, now, supply, p)))
  {
    RollOverSpec(g.ram, now, supply, p);
    hide RollOver;
  }
}
