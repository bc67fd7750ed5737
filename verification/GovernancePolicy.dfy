/** Governance policy: the minimum tier and the direction of an update, judged against the
    configuration before it, and what a tightening update can do once applied. */
module GovernancePolicy {
  import opened Common
  import opened EmissionBudget
  import opened RuntimeConfig

  datatype GovernanceTier = Operator | Policy | Constitution

  datatype Direction = Tighten | Loosen

  const DAY_MS: nat := 86_400_000

  function Rank(t: GovernanceTier): nat {
    match t
    case Operator => 0
    case Policy => 1
    case Constitution => 2
  }

  function DefaultDurationMs(t: GovernanceTier): nat {
    match t
    case Operator => 7 * DAY_MS
    case Policy => 15 * DAY_MS
    case Constitution => 45 * DAY_MS
  }

  function Higher(a: GovernanceTier, b: GovernanceTier): GovernanceTier {
    if Rank(a) >= Rank(b) then a else b
  }

  function MinTier(u: ConfigUpdate): GovernanceTier
    decreases u, 1
  {
    match u
    case SetEmissionCorridor(_, _, _, _) => Constitution
    case SetMintEnabled(_) => Policy
    case SetMaxMint(_) => Policy
    case SetCoordinatorFee(_) => Policy
    case SetTreasuryFee(_) => Policy
    case SetFeeDistribution(_) => Policy
    case SetBurnRate(_) => Policy
    case SetMintFee(_, _) => Policy
    case BatchUpdate(us) => MaxTier(us)
    case _ => Operator
  }

  /** The highest tier of a batch; an empty batch needs the lowest. */
  function MaxTier(us: seq<ConfigUpdate>): GovernanceTier
    decreases us, 0
  {
    if us == [] then Operator else Higher(MinTier(us[0]), MaxTier(us[1..]))
  }

  function DirectionOf(u: ConfigUpdate, current: Config): Direction
    decreases u, 1
  {
    match u
    case SetMintEnabled(enabled) => if enabled then Loosen else Tighten
    case SetMaxMint(amount) => if amount < current.maxMintPerBlock then Tighten else Loosen
    case SetEmissionCorridor(ceiling, _, target, _) =>
      (match (current.emissionCeilingBps, current.emissionTargetBps)
       case (Some(c), Some(t)) => if ceiling <= c && target <= t then Tighten else Loosen
       case _ => Loosen)
    case BatchUpdate(us) => if us != [] && AllTighten(us, current) then Tighten else Loosen
    case _ => Loosen
  }

  predicate AllTighten(us: seq<ConfigUpdate>, current: Config)
    decreases us, 0
  {
    us == [] || (DirectionOf(us[0], current) == Tighten && AllTighten(us[1..], current))
  }

  function RequiredTimelockMs(u: ConfigUpdate, current: Config, declared: GovernanceTier): nat {
    match DirectionOf(u, current)
    case Tighten => 0
    case Loosen => DefaultDurationMs(declared)
  }

  predicate TierAccepted(u: ConfigUpdate, declared: GovernanceTier) {
    Rank(declared) >= Rank(MinTier(u))
  }

  // ----- single updates -----

  /** The emission corridor takes the highest tier, what governs minting, distribution and burning the
      middle one, everything else the lowest. */
  lemma {:induction false} SingleTiers(u: ConfigUpdate, declared: GovernanceTier)
    requires !u.BatchUpdate?
    ensures declared.Constitution? ==> TierAccepted(u, declared)
    ensures declared.Policy? ==> (TierAccepted(u, declared) <==> !u.SetEmissionCorridor?)
    ensures declared.Operator? ==>
              (TierAccepted(u, declared) <==>
                 || u.SetFeeRate? || u.SetBaseFee? || u.SetMinPow? || u.SetFeeTiers? || u.ClearFeeTiers?
                 || u.SetTokenCreationFee? || u.SetNftMintFee? || u.SetNftFeeExemptTypes?
                 || u.SetContractDeploymentFee? || u.SetStorageFeePerKb? || u.SetDynamicFee?)
  {}

  /** Cutting the mint, lowering the mint maximum, and a corridor with neither ceiling nor target raised
      over governed ones: nothing else escapes the timelock of seven, fifteen or forty-five days. */
  lemma {:induction false} SingleTimelock(u: ConfigUpdate, current: Config, declared: GovernanceTier)
    requires !u.BatchUpdate?
    ensures RequiredTimelockMs(u, current, declared) ==
              if u == SetMintEnabled(false) || (u.SetMaxMint? && u.amount < current.maxMintPerBlock)
                 || (u.SetEmissionCorridor? && current.emissionCeilingBps.Some? && current.emissionTargetBps.Some?
                     && u.ceilingBps <= current.emissionCeilingBps.value && u.targetBps <= current.emissionTargetBps.value)
              then 0
              else if declared.Operator? then 604_800_000 else if declared.Policy? then 1_296_000_000 else 3_888_000_000
  {}

  // ----- tiers and directions of batches -----

  /** A declared tier is accepted exactly when it is accepted for every single update inside. */
  lemma {:induction false} TierAcceptedIff(u: ConfigUpdate, declared: GovernanceTier)
    ensures TierAccepted(u, declared) <==> forall v :: v in Leaves(u) ==> TierAccepted(v, declared)
    decreases u, 1
  {
    if u.BatchUpdate? {
      BatchTierIff(u.updates, declared);
    } else {
      assert forall v :: v in Leaves(u) <==> v == u;
    }
  }

  lemma {:induction false} BatchTierIff(us: seq<ConfigUpdate>, declared: GovernanceTier)
    ensures Rank(declared) >= Rank(MaxTier(us)) <==> forall v :: v in AllLeaves(us) ==> TierAccepted(v, declared)
    decreases us, 0
  {
    if us != [] {
      TierAcceptedIff(us[0], declared);
      BatchTierIff(us[1..], declared);
    }
  }

  /** No batch inside is empty. */
  predicate NoEmptyBatch(u: ConfigUpdate)
    decreases u, 1
  {
    u.BatchUpdate? ==> u.updates != [] && NoneEmpty(u.updates)
  }

  predicate NoneEmpty(us: seq<ConfigUpdate>)
    decreases us, 0
  {
    us == [] || (NoEmptyBatch(us[0]) && NoneEmpty(us[1..]))
  }

  /** An update tightens exactly when every single update inside does and no batch is empty. */
  lemma {:induction false} TightenIff(u: ConfigUpdate, current: Config)
    ensures DirectionOf(u, current) == Tighten <==>
              NoEmptyBatch(u) && forall v :: v in Leaves(u) ==> DirectionOf(v, current) == Tighten
    decreases u, 1
  {
    if u.BatchUpdate? {
      AllTightenIff(u.updates, current);
    } else {
      assert forall v :: v in Leaves(u) <==> v == u;
    }
  }

  lemma {:induction false} AllTightenIff(us: seq<ConfigUpdate>, current: Config)
    ensures AllTighten(us, current) <==>
              NoneEmpty(us) && forall v :: v in AllLeaves(us) ==> DirectionOf(v, current) == Tighten
    decreases us, 0
  {
    if us != [] {
      TightenIff(us[0], current);
      AllTightenIff(us[1..], current);
    }
  }

  // ----- the configuration invariant -----

  /** Corridor fields are all absent or all present and coherent. */
  ghost predicate CorridorOk(c: Config) {
    match (c.emissionCeilingBps, c.emissionFloorBps, c.emissionTargetBps, c.emissionEpochDurationSec)
    case (None, None, None, None) => true
    case (Some(ceiling), Some(floor), Some(target), Some(duration)) => CorridorCoherent(ceiling, floor, target, duration)
    case _ => false
  }

  ghost predicate ConfigInvariant(c: Config) {
    FeeConfigValid(c) && CorridorOk(c)
  }

  lemma {:induction false} LeafKeepsCorridor(c: Config, u: ConfigUpdate, block: string, ts: int)
    requires CorridorOk(c) && !u.BatchUpdate? && ApplyInner(c, u, block, ts).Ok?
    ensures CorridorOk(ApplyInner(c, u, block, ts).value)
  {}

  lemma {:induction false} LeavesKeepCorridor(c: Config, us: seq<ConfigUpdate>, block: string, ts: int)
    requires CorridorOk(c) && forall v :: v in us ==> !v.BatchUpdate?
    requires ApplyAll(c, us, block, ts).Ok?
    ensures CorridorOk(ApplyAll(c, us, block, ts).value)
    decreases |us|
  {
    if us != [] {
      LeafKeepsCorridor(c, us[0], block, ts);
      LeavesKeepCorridor(ApplyInner(c, us[0], block, ts).value, us[1..], block, ts);
    }
  }

  /** Every accepted update, of any direction, keeps the invariant. */
  lemma {:induction false} UpdatesKeepInvariant(c: Config, u: ConfigUpdate, block: string, ts: int)
    requires ConfigInvariant(c) && ApplyUpdate(c, u, block, ts).Ok?
    ensures ConfigInvariant(ApplyUpdate(c, u, block, ts).value)
  {
    UpdateIsItsLeaves(c, u, block, ts);
    LeavesAreSingle(u);
    LeavesKeepCorridor(Touch(c, block, ts), Leaves(u), block, ts);
  }

  // ----- what tightening can do -----

  ghost predicate AtMost(a: Option<U32>, b: Option<U32>) {
    match (a, b)
    case (None, None) => true
    case (Some(x), Some(y)) => x <= y
    case _ => false
  }

  /** All that an emission update may touch taken from `start`, the rest from `d`. */
  function FeesOf(d: Config, start: Config): Config {
    d.(maxMintPerBlock := start.maxMintPerBlock, mintEnabled := start.mintEnabled,
       emissionCeilingBps := start.emissionCeilingBps, emissionFloorBps := start.emissionFloorBps,
       emissionTargetBps := start.emissionTargetBps, emissionEpochDurationSec := start.emissionEpochDurationSec,
       updatedAtBlock := start.updatedAtBlock, updatedAtTimestamp := start.updatedAtTimestamp)
  }

  /** `d` carries no more risk than `start` and the same fees. */
  ghost predicate Tighter(start: Config, d: Config) {
    && (d.mintEnabled ==> start.mintEnabled)
    && d.maxMintPerBlock <= start.maxMintPerBlock
    && AtMost(d.emissionCeilingBps, start.emissionCeilingBps)
    && AtMost(d.emissionTargetBps, start.emissionTargetBps)
    && FeesOf(d, start) == start
    && CorridorOk(d)
  }

  /** A leaf judged against `start` but applied later in the sequence still only tightens. */
  lemma {:induction false} LeafTightens(start: Config, c: Config, u: ConfigUpdate, block: string, ts: int)
    requires !u.BatchUpdate? && DirectionOf(u, start) == Tighten && Tighter(start, c)
    requires ApplyInner(c, u, block, ts).Ok?
    ensures Tighter(start, ApplyInner(c, u, block, ts).value)
  {}

  lemma {:induction false} LeavesTighten(start: Config, c: Config, us: seq<ConfigUpdate>, block: string, ts: int)
    requires forall v :: v in us ==> !v.BatchUpdate? && DirectionOf(v, start) == Tighten
    requires Tighter(start, c) && ApplyAll(c, us, block, ts).Ok?
    ensures Tighter(start, ApplyAll(c, us, block, ts).value)
    decreases |us|
  {
    if us != [] {
      LeafTightens(start, c, us[0], block, ts);
      LeavesTighten(start, ApplyInner(c, us[0], block, ts).value, us[1..], block, ts);
    }
  }

  /** Emission parameters in force: governed values where present, boot values otherwise. */
  function ParamsFromRuntime(boot: EmissionParams, c: Config): EmissionParams {
    EmissionParams(
      match c.emissionTargetBps case Some(b) => b as real / 100.0 case None => boot.targetPct,
      match c.emissionCeilingBps case Some(b) => b as real / 100.0 case None => boot.ceilingPct,
      match c.emissionFloorBps case Some(b) => b as real / 100.0 case None => boot.floorPct,
      match c.emissionEpochDurationSec case Some(d) => d case None => boot.epochDurationSec)
  }

  /** Ungoverned, the boot parameters are in force; governed, the configuration's, in percent. */
  lemma {:induction false} ParamsInForce(boot: EmissionParams, c: Config)
    requires CorridorOk(c)
    ensures c.emissionCeilingBps == None ==> ParamsFromRuntime(boot, c) == boot
    ensures c.emissionCeilingBps.Some? ==>
              var p := ParamsFromRuntime(boot, c);
              && 100.0 * p.ceilingPct == c.emissionCeilingBps.value as real && 100.0 * p.floorPct == c.emissionFloorBps.value as real
              && 100.0 * p.targetPct == c.emissionTargetBps.value as real && p.epochDurationSec == c.emissionEpochDurationSec.value
  {}

  function RateInForce(boot: EmissionParams, c: Config): real {
    var p := ParamsFromRuntime(boot, c);
    EffectiveRatePct(p.targetPct, p.ceilingPct, p.floorPct)
  }

  lemma {:induction false} TighterRate(boot: EmissionParams, start: Config, d: Config)
    requires CorridorOk(start) && Tighter(start, d)
    ensures RateInForce(boot, d) <= RateInForce(boot, start)
  {}

  /** The main result: an update judged to tighten, batches nested to any depth included, gives
      if accepted a configuration that never re-enables mint, raises neither the mint maximum
      nor ceiling, target or effective rate, leaves every fee field alone, and keeps the
      invariant. */
  lemma {:induction false} TightenNeverLoosens(boot: EmissionParams, c: Config, u: ConfigUpdate, block: string, ts: int)
    requires ConfigInvariant(c) && DirectionOf(u, c) == Tighten && ApplyUpdate(c, u, block, ts).Ok?
    ensures var d := ApplyUpdate(c, u, block, ts).value;
            Tighter(c, d) && ConfigInvariant(d) && RateInForce(boot, d) <= RateInForce(boot, c)
  {
    TightenIff(u, c);
    UpdateIsItsLeaves(c, u, block, ts);
    LeavesAreSingle(u);
    LeavesTighten(c, Touch(c, block, ts), Leaves(u), block, ts);
    TighterRate(boot, c, ApplyUpdate(c, u, block, ts).value);
  }

  /** Only tightening updates escape the timelock, so a change that takes effect at once never
      loosens. */
  lemma {:induction false} InstantNeverLoosens(boot: EmissionParams, c: Config, u: ConfigUpdate, declared: GovernanceTier, block: string, ts: int)
    ensures RequiredTimelockMs(u, c, declared) == 0 <==> DirectionOf(u, c) == Tighten
    ensures ConfigInvariant(c) && RequiredTimelockMs(u, c, declared) == 0 && ApplyUpdate(c, u, block, ts).Ok? ==>
              Tighter(c, ApplyUpdate(c, u, block, ts).value)
  {
    if ConfigInvariant(c) && DirectionOf(u, c) == Tighten && ApplyUpdate(c, u, block, ts).Ok? {
      TightenNeverLoosens(boot, c, u, block, ts);
    }
  }

  ghost predicate CoherentIfCorridor(v: ConfigUpdate) {
    v.SetEmissionCorridor? ==> CorridorCoherent(v.ceilingBps, v.floorBps, v.targetBps, v.epochDurationSec)
  }

  lemma {:induction false} LeavesAcceptedIff(start: Config, c: Config, us: seq<ConfigUpdate>, block: string, ts: int)
    requires forall v :: v in us ==> !v.BatchUpdate? && DirectionOf(v, start) == Tighten
    ensures ApplyAll(c, us, block, ts).Ok? <==> forall v :: v in us ==> CoherentIfCorridor(v)
    decreases |us|
  {
    if us != [] {
      var r := ApplyInner(c, us[0], block, ts);
      assert r.Ok? <==> CoherentIfCorridor(us[0]);
      if r.Ok? { LeavesAcceptedIff(start, r.value, us[1..], block, ts); }
      assert us == [us[0]] + us[1..];
    }
  }

  /** A tightening update is refused only for an incoherent corridor inside it: in particular the
      mint can always be cut. */
  lemma {:induction false} TightenAcceptedIff(c: Config, u: ConfigUpdate, block: string, ts: int)
    requires ConfigInvariant(c) && DirectionOf(u, c) == Tighten
    ensures ApplyUpdate(c, u, block, ts).Ok? <==> forall v :: v in Leaves(u) ==> CoherentIfCorridor(v)
  {
    TightenIff(u, c);
    UpdateIsItsLeaves(c, u, block, ts);
    LeavesAreSingle(u);
    LeavesAcceptedIff(c, Touch(c, block, ts), Leaves(u), block, ts);
    if ApplyInner(c, u, block, ts).Ok? {
      LeavesTighten(c, Touch(c, block, ts), Leaves(u), block, ts);
      SameFeesValid(c, ApplyInner(c, u, block, ts).value);
    }
  }

  lemma {:induction false} SameFeesValid(c: Config, d: Config)
    requires FeesOf(d, c) == c
    ensures FeeConfigValid(d) <==> FeeConfigValid(c)
  {}

  // ----- the budget of one period is not bounded by the direction -----

  ghost predicate Governed(c: Config) {
    CorridorOk(c) && c.emissionCeilingBps.Some?
  }

  /** Target rate times period length: what one period's budget is proportional to. */
  ghost function PeriodWeight(c: Config): nat
    requires Governed(c)
  {
    c.emissionTargetBps.value * c.emissionEpochDurationSec.value
  }

  const WEIGHT_PER_SUPPLY: nat := 10_000 * SECONDS_PER_YEAR

  /** A period's budget as supply times weight. */
  function WeightedBudget(supply: nat, weight: nat): int {
    RoundHalfEven(supply as real * (weight as real / WEIGHT_PER_SUPPLY as real))
  }

  lemma {:induction false} ProductIsWeighted(supply: nat, target: nat, duration: nat)
    ensures RoundedProduct(supply as real, target as real / 100.0 / 100.0, FracYear(duration))
            == WeightedBudget(supply, target * duration)
  {}

  lemma {:induction false} GovernedRate(boot: EmissionParams, c: Config)
    requires Governed(c)
    ensures RateInForce(boot, c) == c.emissionTargetBps.value as real / 100.0
  {}

  lemma {:induction false} GovernedBudget(boot: EmissionParams, c: Config, supply: int)
    requires Governed(c)
    ensures ComputeEpochBudget(supply, ParamsFromRuntime(boot, c)) == WeightedBudget(Max(supply, 0), PeriodWeight(c))
  {
    GovernedRate(boot, c);
    ProductIsWeighted(Max(supply, 0), c.emissionTargetBps.value, c.emissionEpochDurationSec.value);
  }

  lemma {:induction false} LargerWeight(s: nat, x: nat, y: nat)
    requires x <= y
    ensures WeightedBudget(s, x) <= WeightedBudget(s, y)
  {
    MulMonotone(x as real / WEIGHT_PER_SUPPLY as real, y as real / WEIGHT_PER_SUPPLY as real, s as real);
    RoundingMonotone(s as real * (x as real / WEIGHT_PER_SUPPLY as real), s as real * (y as real / WEIGHT_PER_SUPPLY as real));
  }

  lemma {:induction false} BudgetOrdered(boot: EmissionParams, c: Config, d: Config, supply: int)
    requires Governed(c) && Governed(d) && PeriodWeight(d) <= PeriodWeight(c)
    ensures ComputeEpochBudget(supply, ParamsFromRuntime(boot, d)) <= ComputeEpochBudget(supply, ParamsFromRuntime(boot, c))
  {
    GovernedBudget(boot, c, supply);
    GovernedBudget(boot, d, supply);
    LargerWeight(Max(supply, 0), PeriodWeight(d), PeriodWeight(c));
  }

  lemma {:induction false} BudgetWitness(boot: EmissionParams, c: Config)
    requires Governed(c)
    ensures ComputeEpochBudget(WEIGHT_PER_SUPPLY, ParamsFromRuntime(boot, c)) == PeriodWeight(c)
  {}

  /** No supply has a larger period budget under `d` than under `c`. */
  ghost predicate BudgetNeverLarger(boot: EmissionParams, c: Config, d: Config) {
    forall supply :: ComputeEpochBudget(supply, ParamsFromRuntime(boot, d)) <= ComputeEpochBudget(supply, ParamsFromRuntime(boot, c))
  }

  /** Between two governed configurations no supply gets a larger budget exactly when target
      times period length does not grow. */
  lemma {:induction false} BudgetNeverLargerIff(boot: EmissionParams, c: Config, d: Config)
    requires Governed(c) && Governed(d)
    ensures BudgetNeverLarger(boot, c, d) <==> PeriodWeight(d) <= PeriodWeight(c)
  {
    if PeriodWeight(d) <= PeriodWeight(c) {
      forall supply { BudgetOrdered(boot, c, d, supply); }
    } else {
      BudgetWitness(boot, c);
      BudgetWitness(boot, d);
    }
  }

  /** A longer period counts as tightening, is accepted, and still raises the budget. */
  lemma {:induction false} TightenCanRaiseBudget(boot: EmissionParams, c: Config, longer: U64, block: string, ts: int)
    requires ConfigInvariant(c) && Governed(c) && c.emissionTargetBps.value > 0
    requires longer > c.emissionEpochDurationSec.value
    ensures var u := SetEmissionCorridor(c.emissionCeilingBps.value, c.emissionFloorBps.value, c.emissionTargetBps.value, longer);
            && DirectionOf(u, c) == Tighten
            && ApplyUpdate(c, u, block, ts).Ok?
            && !BudgetNeverLarger(boot, c, ApplyUpdate(c, u, block, ts).value)
  {
    var u := SetEmissionCorridor(c.emissionCeilingBps.value, c.emissionFloorBps.value, c.emissionTargetBps.value, longer);
    var d := ApplyUpdate(c, u, block, ts).value;
    LongerWeighsMore(c.emissionTargetBps.value, c.emissionEpochDurationSec.value, longer);
    BudgetNeverLargerIff(boot, c, d);
  }

  lemma {:induction false} LongerWeighsMore(t: nat, a: nat, b: nat)
    requires t > 0 && a < b
    ensures t * a < t * b
  {}
}
