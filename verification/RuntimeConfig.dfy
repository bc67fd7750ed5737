/** The runtime configuration and the recursive language of its updates. */
module RuntimeConfig {
  import opened Common

  const U32_MOD: nat := 0x1_0000_0000
  const U64_MOD: nat := 0x1_0000_0000_0000_0000

  type U16 = x: int | 0 <= x < 0x1_0000
  type U32 = x: int | 0 <= x < U32_MOD
  type U64 = x: int | 0 <= x < U64_MOD

  /** Decimal text, parsed or not. */
  datatype DecimalText = Parses(value: real) | Malformed(text: string)

  datatype FeeTier = FeeTier(upTo: Option<DecimalText>, ratio: DecimalText)

  datatype FeeBeneficiary = FeeBeneficiary(role: string, percentBps: U16, address: Option<string>)

  datatype Config = Config(
    feeRateBps: U32,
    baseFee: string,
    coordinatorFeeBps: U32,
    treasuryFeeBps: U32,
    minPowBits: nat,
    maxMintPerBlock: U64,
    mintEnabled: bool,
    feeTiers: seq<FeeTier>,
    feeDistribution: Option<seq<FeeBeneficiary>>,
    mintFeeBase: Option<string>,
    mintFeeRatio: Option<string>,
    tokenCreationFee: Option<string>,
    nftMintFee: Option<string>,
    nftFeeExemptTypes: seq<string>,
    burnRateBps: U32,
    contractDeploymentFee: Option<string>,
    storageFeePerKb: Option<string>,
    dynamicFeeEnabled: bool,
    targetTps: U32,
    maxFeeMultiplier: real,
    emissionCeilingBps: Option<U32>,
    emissionFloorBps: Option<U32>,
    emissionTargetBps: Option<U32>,
    emissionEpochDurationSec: Option<U64>,
    updatedAtBlock: string,
    updatedAtTimestamp: int)

  datatype ConfigUpdate =
    | SetFeeRate(bps: U32)
    | SetBaseFee(fee: string)
    | SetCoordinatorFee(bps: U32)
    | SetTreasuryFee(bps: U32)
    | SetMinPow(bits: nat)
    | SetMaxMint(amount: U64)
    | SetMintEnabled(enabled: bool)
    | SetFeeTiers(tiers: seq<FeeTier>)
    | ClearFeeTiers
    | SetFeeDistribution(beneficiaries: seq<FeeBeneficiary>)
    | SetMintFee(base: Option<string>, ratio: Option<string>)
    | SetTokenCreationFee(optFee: Option<string>)
    | SetNftMintFee(optFee: Option<string>)
    | SetNftFeeExemptTypes(types: seq<string>)
    | SetBurnRate(bps: U32)
    | SetContractDeploymentFee(optFee: Option<string>)
    | SetStorageFeePerKb(optFee: Option<string>)
    | SetDynamicFee(dynEnabled: bool, optTps: Option<U32>, maxMultiplier: Option<DecimalText>)
    | SetEmissionCorridor(ceilingBps: U32, floorBps: U32, targetBps: U32, epochDurationSec: U64)
    | BatchUpdate(updates: seq<ConfigUpdate>)

  datatype UpdateError =
    | BadTiers | BadDistribution | BadSplit | BadBurnRate | BadMultiplier | BadCorridor

  // ----- fee validation -----

  predicate RatioOk(t: FeeTier) {
    t.ratio.Parses? && t.ratio.value >= 0.0
  }

  predicate BoundaryOk(t: FeeTier, previous: real) {
    t.upTo.Some? && t.upTo.value.Parses? && t.upTo.value.value > previous
  }

  /** Boundary below tier `i`: zero for the first, else the boundary of the tier before. */
  function BoundaryBelow(tiers: seq<FeeTier>, i: nat): real
    requires i <= |tiers|
  {
    if i == 0 then 0.0
    else
      match tiers[i - 1].upTo
      case Some(Parses(v)) => v
      case _ => 0.0
  }

  /** A schedule: some tier, ratios not negative, positive boundaries that strictly increase,
      and a last tier without boundary. */
  predicate TiersValid(tiers: seq<FeeTier>) {
    && tiers != []
    && tiers[|tiers| - 1].upTo == None
    && (forall i :: 0 <= i < |tiers| ==> RatioOk(tiers[i]))
    && (forall i :: 0 <= i < |tiers| - 1 ==> BoundaryOk(tiers[i], BoundaryBelow(tiers, i)))
  }

  /** The boundary of a tier, if it has one that parses. */
  function BoundaryOf(t: FeeTier): Option<real> {
    match t.upTo
    case Some(Parses(v)) => Some(v)
    case _ => None
  }

  /** No ratio is negative, and all boundaries but the missing last one lie above zero and in
      strictly ascending order. */
  ghost predicate Ascending(tiers: seq<FeeTier>) {
    && tiers != [] && tiers[|tiers| - 1].upTo == None
    && (forall t :: t in tiers ==> t.ratio.Parses? && t.ratio.value >= 0.0)
    && (forall i :: 0 <= i < |tiers| - 1 ==> BoundaryOf(tiers[i]).Some? && BoundaryOf(tiers[i]).value > 0.0)
    && (forall i, j :: 0 <= i < j < |tiers| - 1 ==> BoundaryOf(tiers[i]).value < BoundaryOf(tiers[j]).value)
  }

  lemma {:induction false} BoundariesAscend(tiers: seq<FeeTier>, j: nat)
    requires TiersValid(tiers) && j < |tiers| - 1
    ensures BoundaryOf(tiers[j]).Some? && BoundaryOf(tiers[j]).value > 0.0
    ensures forall i :: 0 <= i < j ==> BoundaryOf(tiers[i]).Some? && BoundaryOf(tiers[i]).value < BoundaryOf(tiers[j]).value
  {
    assert BoundaryOk(tiers[j], BoundaryBelow(tiers, j));
    if j > 0 { BoundariesAscend(tiers, j - 1); }
  }

  /** Comparing each boundary with the one before it orders all of them. */
  lemma {:induction false} TiersValidIff(tiers: seq<FeeTier>)
    ensures TiersValid(tiers) <==> Ascending(tiers)
  {
    if TiersValid(tiers) {
      forall j | 0 <= j < |tiers| - 1 { BoundariesAscend(tiers, j); }
      forall t | t in tiers ensures t.ratio.Parses? && t.ratio.value >= 0.0 {
        var i :| 0 <= i < |tiers| && tiers[i] == t;
        assert RatioOk(tiers[i]);
      }
    }
    if Ascending(tiers) {
      forall i | 0 <= i < |tiers| ensures RatioOk(tiers[i]) { assert tiers[i] in tiers; }
      forall i | 0 <= i < |tiers| - 1 ensures BoundaryOk(tiers[i], BoundaryBelow(tiers, i)) {
        assert BoundaryOf(tiers[i]).Some?;
        if i > 0 { assert BoundaryOf(tiers[i - 1]).Some?; }
      }
    }
  }

  method ValidateFeeTiers(tiers: seq<FeeTier>) returns (ok: bool)
    ensures ok <==> TiersValid(tiers)
    ensures ok <==> Ascending(tiers)
  {
    TiersValidIff(tiers);
    hide Ascending;
    if tiers == [] { return false; }
    if tiers[|tiers| - 1].upTo.Some? { return false; }
    var prevBoundary := 0.0;
    for i := 0 to |tiers|
      invariant forall j :: 0 <= j < i ==> RatioOk(tiers[j])
      invariant forall j :: 0 <= j < i && j < |tiers| - 1 ==> BoundaryOk(tiers[j], BoundaryBelow(tiers, j))
      invariant i < |tiers| ==> prevBoundary == BoundaryBelow(tiers, i)
    {
      var tier := tiers[i];
      if !tier.ratio.Parses? || tier.ratio.value < 0.0 { return false; }
      if i < |tiers| - 1 {
        match tier.upTo {
          case None => return false;
          case Some(Malformed(_)) => return false;
          case Some(Parses(upTo)) =>
            if upTo <= prevBoundary { return false; }
            prevBoundary := upTo;
        }
      }
    }
    return true;
  }

  /** Sum of the shares in 32-bit arithmetic. */
  function ShareSum(bs: seq<FeeBeneficiary>): U32 {
    if bs == [] then 0
    else (ShareSum(bs[..|bs| - 1]) + bs[|bs| - 1].percentBps) % U32_MOD
  }

  predicate DistributionValid(bs: seq<FeeBeneficiary>) {
    ShareSum(bs) == 10_000
  }

  function TotalShare(bs: seq<FeeBeneficiary>): nat {
    if bs == [] then 0 else bs[0].percentBps + TotalShare(bs[1..])
  }

  lemma {:induction false} TotalShareSnoc(bs: seq<FeeBeneficiary>, b: FeeBeneficiary)
    ensures TotalShare(bs + [b]) == TotalShare(bs) + b.percentBps
  {
    if bs != [] {
      assert (bs + [b])[1..] == bs[1..] + [b];
      TotalShareSnoc(bs[1..], b);
    }
  }

  lemma {:induction false} WrapsAdd(a: nat, s: nat, b: nat)
    requires s == a % U32_MOD
    ensures (s + b) % U32_MOD == (a + b) % U32_MOD
  {}

  /** A distribution is valid exactly if its shares total 10000 up to wrap-around, which takes more
      than 65537 beneficiaries. */
  lemma {:induction false} DistributionMeansTenThousand(bs: seq<FeeBeneficiary>)
    ensures DistributionValid(bs) <==> TotalShare(bs) % U32_MOD == 10_000
    ensures TotalShare(bs) <= 0xFFFF * |bs|
    ensures |bs| <= 65_537 ==> (DistributionValid(bs) <==> TotalShare(bs) == 10_000)
  {
    SharesWrap(bs);
  }

  lemma {:induction false} SharesWrap(bs: seq<FeeBeneficiary>)
    ensures ShareSum(bs) == TotalShare(bs) % U32_MOD && TotalShare(bs) <= 0xFFFF * |bs|
  {
    if bs != [] {
      var n := |bs| - 1;
      SharesWrap(bs[..n]);
      assert bs == bs[..n] + [bs[n]];
      TotalShareSnoc(bs[..n], bs[n]);
      WrapsAdd(TotalShare(bs[..n]), ShareSum(bs[..n]), bs[n].percentBps);
    }
  }

  /** The two-way split must total 10000; the sum is a 32-bit one and wraps. */
  predicate SplitValid(c: Config) {
    (c.coordinatorFeeBps + c.treasuryFeeBps) % U32_MOD == 10_000
  }

  /** The wrapping check means a true split exactly when the sum does not wrap. */
  lemma {:induction false} SplitMeansTenThousandIff(c: Config)
    ensures var sum := c.coordinatorFeeBps + c.treasuryFeeBps;
            && (SplitValid(c) <==> sum == 10_000 || sum == 10_000 + U32_MOD)
            && ((SplitValid(c) <==> sum == 10_000) <==> sum != 10_000 + U32_MOD)
  {}

  predicate FeeConfigValid(c: Config) {
    && (match c.feeDistribution case Some(d) => DistributionValid(d) case None => SplitValid(c))
    && (c.feeTiers != [] ==> TiersValid(c.feeTiers))
  }

  /** What the final check asks: the shares of a distribution, if there is one, else the two-way split,
      total 10000 up to wrap-around, and a tier schedule, if there is one, ascends. */
  lemma {:induction false} FeeConfigMeans(c: Config)
    ensures FeeConfigValid(c) <==>
              && (if c.feeDistribution.Some? then TotalShare(c.feeDistribution.value) % U32_MOD == 10_000
                  else c.coordinatorFeeBps + c.treasuryFeeBps == 10_000 || c.coordinatorFeeBps + c.treasuryFeeBps == 10_000 + U32_MOD)
              && (c.feeTiers == [] || Ascending(c.feeTiers))
  {
    hide Ascending, TiersValid, DistributionValid, SplitValid;
    TiersValidIff(c.feeTiers);
    SplitMeansTenThousandIff(c);
    if c.feeDistribution.Some? { DistributionMeansTenThousand(c.feeDistribution.value); }
  }

  // ----- updates -----

  function Touch(c: Config, block: string, ts: int): Config {
    c.(updatedAtBlock := block, updatedAtTimestamp := ts)
  }

  predicate CorridorCoherent(ceiling: U32, floor: U32, target: U32, duration: U64) {
    floor <= target <= ceiling && duration > 0
  }

  /** A single, non-batch update. */
  function ApplyLeaf(c: Config, u: ConfigUpdate): Result<Config, UpdateError>
    requires !u.BatchUpdate?
  {
    match u
    case SetFeeRate(bps) => Ok(c.(feeRateBps := bps))
    case SetBaseFee(fee) => Ok(c.(baseFee := fee))
    case SetCoordinatorFee(bps) => Ok(c.(coordinatorFeeBps := bps))
    case SetTreasuryFee(bps) => Ok(c.(treasuryFeeBps := bps))
    case SetMinPow(bits) => Ok(c.(minPowBits := bits))
    case SetMaxMint(amount) => Ok(c.(maxMintPerBlock := amount))
    case SetMintEnabled(enabled) => Ok(c.(mintEnabled := enabled))
    case SetFeeTiers(tiers) => if TiersValid(tiers) then Ok(c.(feeTiers := tiers)) else Err(BadTiers)
    case ClearFeeTiers => Ok(c.(feeTiers := []))
    case SetFeeDistribution(bs) =>
      if DistributionValid(bs) then Ok(c.(feeDistribution := Some(bs))) else Err(BadDistribution)
    case SetMintFee(base, ratio) => Ok(c.(mintFeeBase := base, mintFeeRatio := ratio))
    case SetTokenCreationFee(fee) => Ok(c.(tokenCreationFee := fee))
    case SetNftMintFee(fee) => Ok(c.(nftMintFee := fee))
    case SetNftFeeExemptTypes(types) => Ok(c.(nftFeeExemptTypes := types))
    case SetBurnRate(bps) => if bps > 10_000 then Err(BadBurnRate) else Ok(c.(burnRateBps := bps))
    case SetContractDeploymentFee(fee) => Ok(c.(contractDeploymentFee := fee))
    case SetStorageFeePerKb(fee) => Ok(c.(storageFeePerKb := fee))
    case SetDynamicFee(enabled, tps, mult) =>
      var d := c.(dynamicFeeEnabled := enabled, targetTps := tps.GetOr(c.targetTps));
      (match mult
       case None => Ok(d)
       case Some(Parses(v)) => Ok(d.(maxFeeMultiplier := v))
       case Some(Malformed(_)) => Err(BadMultiplier))
    case SetEmissionCorridor(ceiling, floor, target, duration) =>
      if !CorridorCoherent(ceiling, floor, target, duration) then Err(BadCorridor)
      else Ok(c.(emissionCeilingBps := Some(ceiling), emissionFloorBps := Some(floor),
                 emissionTargetBps := Some(target), emissionEpochDurationSec := Some(duration)))
  }

  /** Mutations of an update without the global check; batches apply in sequence. */
  function ApplyInner(c: Config, u: ConfigUpdate, block: string, ts: int): Result<Config, UpdateError>
    decreases u, 1
  {
    if u.BatchUpdate? then ApplyAll(Touch(c, block, ts), u.updates, block, ts)
    else ApplyLeaf(Touch(c, block, ts), u)
  }

  function ApplyAll(c: Config, us: seq<ConfigUpdate>, block: string, ts: int): Result<Config, UpdateError>
    decreases us, 0
  {
    if us == [] then Ok(c)
    else
      match ApplyInner(c, us[0], block, ts)
      case Err(e) => Err(e)
      case Ok(d) => ApplyAll(d, us[1..], block, ts)
  }

  function ApplyUpdate(c: Config, u: ConfigUpdate, block: string, ts: int): Result<Config, UpdateError> {
    match ApplyInner(c, u, block, ts)
    case Err(e) => Err(e)
    case Ok(d) => if FeeConfigValid(d) then Ok(d) else Err(BadSplit)
  }

  /** The update as it runs: a copy of the configuration changed in place, batches in a loop. */
  method ApplyUpdateInner(c: Config, u: ConfigUpdate, block: string, ts: int)
    returns (r: Result<Config, UpdateError>)
    ensures r == ApplyInner(c, u, block, ts)
    decreases u
  {
    var newConfig := c.(updatedAtBlock := block, updatedAtTimestamp := ts);
    if !u.BatchUpdate? {
      return ApplyLeaf(newConfig, u);
    }
    var us := u.updates;
    for i := 0 to |us|
      invariant ApplyAll(newConfig, us[i..], block, ts) == ApplyInner(c, u, block, ts)
    {
      assert us[i..][1..] == us[i + 1..];
      var step := ApplyUpdateInner(newConfig, us[i], block, ts);
      if step.Err? {
        return step;
      }
      newConfig := step.value;
    }
    return Ok(newConfig);
  }

  // ----- batches are their leaves -----

  /** The single updates inside an update, in the order they apply. */
  function Leaves(u: ConfigUpdate): seq<ConfigUpdate>
    decreases u, 1
  {
    if u.BatchUpdate? then AllLeaves(u.updates) else [u]
  }

  function AllLeaves(us: seq<ConfigUpdate>): seq<ConfigUpdate>
    decreases us, 0
  {
    if us == [] then [] else Leaves(us[0]) + AllLeaves(us[1..])
  }

  lemma {:induction false} LeavesAreSingle(u: ConfigUpdate)
    ensures forall v :: v in Leaves(u) ==> !v.BatchUpdate?
    decreases u, 1
  {
    if u.BatchUpdate? { AllLeavesAreSingle(u.updates); }
  }

  lemma {:induction false} AllLeavesAreSingle(us: seq<ConfigUpdate>)
    ensures forall v :: v in AllLeaves(us) ==> !v.BatchUpdate?
    decreases us, 0
  {
    if us != [] {
      LeavesAreSingle(us[0]);
      AllLeavesAreSingle(us[1..]);
    }
  }

  lemma {:induction false} ApplyAllConcat(c: Config, a: seq<ConfigUpdate>, b: seq<ConfigUpdate>, block: string, ts: int)
    ensures ApplyAll(c, a + b, block, ts) ==
              match ApplyAll(c, a, block, ts) case Err(e) => Err(e) case Ok(d) => ApplyAll(d, b, block, ts)
    decreases |a|
  {
    if a == [] {
      assert a + b == b;
    } else {
      assert (a + b)[1..] == a[1..] + b;
      var r := ApplyInner(c, a[0], block, ts);
      if r.Ok? { ApplyAllConcat(r.value, a[1..], b, block, ts); }
    }
  }

  lemma {:induction false} LeafTouches(c: Config, u: ConfigUpdate, block: string, ts: int)
    requires !u.BatchUpdate? && ApplyInner(c, u, block, ts).Ok?
    ensures Touch(ApplyInner(c, u, block, ts).value, block, ts) == ApplyInner(c, u, block, ts).value
  {}

  lemma {:induction false} AllTouch(c: Config, us: seq<ConfigUpdate>, block: string, ts: int)
    requires forall v :: v in us ==> !v.BatchUpdate?
    requires Touch(c, block, ts) == c && ApplyAll(c, us, block, ts).Ok?
    ensures Touch(ApplyAll(c, us, block, ts).value, block, ts) == ApplyAll(c, us, block, ts).value
    decreases |us|
  {
    if us != [] {
      LeafTouches(c, us[0], block, ts);
      AllTouch(ApplyInner(c, us[0], block, ts).value, us[1..], block, ts);
    }
  }

  /** However batches nest, an update means its leaves applied one after the other. */
  lemma {:induction false} UpdateIsItsLeaves(c: Config, u: ConfigUpdate, block: string, ts: int)
    ensures ApplyInner(c, u, block, ts) == ApplyAll(Touch(c, block, ts), Leaves(u), block, ts)
    decreases u, 1
  {
    if u.BatchUpdate? {
      BatchIsItsLeaves(Touch(c, block, ts), u.updates, block, ts);
    } else {
      var d := Touch(c, block, ts);
      assert Leaves(u)[1..] == [];
      assert ApplyAll(d, [u], block, ts) == ApplyInner(d, u, block, ts);
    }
  }

  lemma {:induction false} BatchIsItsLeaves(c: Config, us: seq<ConfigUpdate>, block: string, ts: int)
    requires Touch(c, block, ts) == c
    ensures ApplyAll(c, us, block, ts) == ApplyAll(c, AllLeaves(us), block, ts)
    decreases us, 0
  {
    if us != [] {
      UpdateIsItsLeaves(c, us[0], block, ts);
      ApplyAllConcat(c, Leaves(us[0]), AllLeaves(us[1..]), block, ts);
      var r := ApplyInner(c, us[0], block, ts);
      if r.Ok? {
        LeavesAreSingle(us[0]);
        AllTouch(c, Leaves(us[0]), block, ts);
        BatchIsItsLeaves(r.value, us[1..], block, ts);
      }
    }
  }
}
