/** What updates do to the configuration, field by field: the last single update that names a field
    decides it, whatever the batches look like. */
module ConfigEffect {
  import opened Common
  import opened RuntimeConfig

  /** Every field but the two that record where and when the configuration changed. */
  datatype Field =
    | FeeRate | BaseFee | CoordinatorFee | TreasuryFee | MinPow | MaxMint | MintEnabled | FeeTiers
    | FeeDistribution | MintFeeBase | MintFeeRatio | TokenCreationFee | NftMintFee
    | NftFeeExemptTypes | BurnRate | ContractDeploymentFee | StorageFeePerKb | DynamicFee
    | TargetTps | MaxFeeMultiplier | EmissionCeiling | EmissionFloor | EmissionTarget
    | EmissionEpochDuration

  datatype Value =
    | Number(n: int)
    | Rate(r: real)
    | Flag(b: bool)
    | Text(s: string)
    | Texts(ts: seq<string>)
    | OptNumber(on: Option<int>)
    | OptText(os: Option<string>)
    | Tiers(tiers: seq<FeeTier>)
    | Shares(shares: Option<seq<FeeBeneficiary>>)

  function ValueOf(c: Config, f: Field): Value {
    match f
    case FeeRate => Number(c.feeRateBps)
    case BaseFee => Text(c.baseFee)
    case CoordinatorFee => Number(c.coordinatorFeeBps)
    case TreasuryFee => Number(c.treasuryFeeBps)
    case MinPow => Number(c.minPowBits)
    case MaxMint => Number(c.maxMintPerBlock)
    case MintEnabled => Flag(c.mintEnabled)
    case FeeTiers => Tiers(c.feeTiers)
    case FeeDistribution => Shares(c.feeDistribution)
    case MintFeeBase => OptText(c.mintFeeBase)
    case MintFeeRatio => OptText(c.mintFeeRatio)
    case TokenCreationFee => OptText(c.tokenCreationFee)
    case NftMintFee => OptText(c.nftMintFee)
    case NftFeeExemptTypes => Texts(c.nftFeeExemptTypes)
    case BurnRate => Number(c.burnRateBps)
    case ContractDeploymentFee => OptText(c.contractDeploymentFee)
    case StorageFeePerKb => OptText(c.storageFeePerKb)
    case DynamicFee => Flag(c.dynamicFeeEnabled)
    case TargetTps => Number(c.targetTps)
    case MaxFeeMultiplier => Rate(c.maxFeeMultiplier)
    case EmissionCeiling => OptNumber(c.emissionCeilingBps)
    case EmissionFloor => OptNumber(c.emissionFloorBps)
    case EmissionTarget => OptNumber(c.emissionTargetBps)
    case EmissionEpochDuration => OptNumber(c.emissionEpochDurationSec)
  }

  function When(names: bool, v: Value): Option<Value> { if names then Some(v) else None }

  /** The value that a single update carries for a field, if it names the field. */
  function NamedBy(u: ConfigUpdate, f: Field): Option<Value> {
    match u
    case SetFeeRate(bps) => When(f.FeeRate?, Number(bps))
    case SetBaseFee(fee) => When(f.BaseFee?, Text(fee))
    case SetCoordinatorFee(bps) => When(f.CoordinatorFee?, Number(bps))
    case SetTreasuryFee(bps) => When(f.TreasuryFee?, Number(bps))
    case SetMinPow(bits) => When(f.MinPow?, Number(bits))
    case SetMaxMint(amount) => When(f.MaxMint?, Number(amount))
    case SetMintEnabled(enabled) => When(f.MintEnabled?, Flag(enabled))
    case SetFeeTiers(tiers) => When(f.FeeTiers?, Tiers(tiers))
    case ClearFeeTiers => When(f.FeeTiers?, Tiers([]))
    case SetFeeDistribution(bs) => When(f.FeeDistribution?, Shares(Some(bs)))
    case SetMintFee(base, ratio) => When(f.MintFeeBase? || f.MintFeeRatio?, OptText(if f.MintFeeBase? then base else ratio))
    case SetTokenCreationFee(fee) => When(f.TokenCreationFee?, OptText(fee))
    case SetNftMintFee(fee) => When(f.NftMintFee?, OptText(fee))
    case SetNftFeeExemptTypes(types) => When(f.NftFeeExemptTypes?, Texts(types))
    case SetBurnRate(bps) => When(f.BurnRate?, Number(bps))
    case SetContractDeploymentFee(fee) => When(f.ContractDeploymentFee?, OptText(fee))
    case SetStorageFeePerKb(fee) => When(f.StorageFeePerKb?, OptText(fee))
    case SetDynamicFee(enabled, tps, multiplier) =>
      (match f
       case DynamicFee => Some(Flag(enabled))
       case TargetTps => When(tps.Some?, Number(tps.GetOr(0)))
       case MaxFeeMultiplier => (match multiplier case Some(Parses(v)) => Some(Rate(v)) case _ => None)
       case _ => None)
    case SetEmissionCorridor(ceiling, floor, target, duration) =>
      (match f
       case EmissionCeiling => Some(OptNumber(Some(ceiling)))
       case EmissionFloor => Some(OptNumber(Some(floor)))
       case EmissionTarget => Some(OptNumber(Some(target)))
       case EmissionEpochDuration => Some(OptNumber(Some(duration)))
       case _ => None)
    case BatchUpdate(_) => None
  }

  /** The value carried by the last of the updates that names the field. */
  function LastNamed(us: seq<ConfigUpdate>, f: Field): Option<Value> {
    if us == [] then None
    else
      match LastNamed(us[1..], f)
      case Some(v) => Some(v)
      case None => NamedBy(us[0], f)
  }

  /** Why a single update is malformed, if it is. */
  function Complaint(u: ConfigUpdate): Option<UpdateError> {
    if u.SetFeeTiers? && !TiersValid(u.tiers) then Some(BadTiers)
    else if u.SetFeeDistribution? && !DistributionValid(u.beneficiaries) then Some(BadDistribution)
    else if u.SetBurnRate? && u.bps > 10_000 then Some(BadBurnRate)
    else if u.SetDynamicFee? && u.maxMultiplier.Some? && u.maxMultiplier.value.Malformed? then Some(BadMultiplier)
    else if u.SetEmissionCorridor? && !(u.floorBps <= u.targetBps <= u.ceilingBps && u.epochDurationSec > 0) then Some(BadCorridor)
    else None
  }

  function FirstComplaint(us: seq<ConfigUpdate>): Option<UpdateError> {
    if us == [] then None
    else
      match Complaint(us[0])
      case Some(e) => Some(e)
      case None => FirstComplaint(us[1..])
  }

  /** `d` is `c` with every field that the updates name at its last named value, others unchanged. */
  ghost predicate EndsAs(c: Config, us: seq<ConfigUpdate>, d: Config) {
    forall f :: ValueOf(d, f) == LastNamed(us, f).GetOr(ValueOf(c, f))
  }

  lemma {:induction false} LastNamedSpec(us: seq<ConfigUpdate>, f: Field)
    ensures LastNamed(us, f) == None <==> forall i :: 0 <= i < |us| ==> NamedBy(us[i], f) == None
    ensures LastNamed(us, f).Some? ==>
              exists i :: 0 <= i < |us| && NamedBy(us[i], f) == LastNamed(us, f) && LastNamed(us[i + 1..], f) == None
  {
    if us != [] {
      var rest := us[1..];
      LastNamedSpec(rest, f);
      if LastNamed(rest, f).Some? {
        var i :| 0 <= i < |rest| && NamedBy(rest[i], f) == LastNamed(rest, f) && LastNamed(rest[i + 1..], f) == None;
        assert us[i + 1] == rest[i] && us[i + 2..] == rest[i + 1..];
      } else {
        assert us[0 + 1..] == rest;
        assert forall i :: 0 < i < |us| ==> us[i] == rest[i - 1];
      }
    }
  }

  lemma {:induction false} LeafAnswer(c: Config, u: ConfigUpdate, block: string, ts: int)
    requires !u.BatchUpdate?
    ensures var r := ApplyInner(c, u, block, ts);
            match Complaint(u)
            case Some(e) => r == Err(e)
            case None => r.Ok? && r.value.updatedAtBlock == block && r.value.updatedAtTimestamp == ts
  {
    hide TiersValid, DistributionValid;
  }

  ghost predicate FieldMoves(c: Config, u: ConfigUpdate, d: Config, f: Field) {
    ValueOf(d, f) == NamedBy(u, f).GetOr(ValueOf(c, f))
  }

  /** `d` is `t` with the fields of one setting replaced. */
  ghost predicate Replaces(t: Config, u: ConfigUpdate, d: Config) {
    match u
    case SetFeeRate(bps) => d == t.(feeRateBps := bps)
    case SetBaseFee(fee) => d == t.(baseFee := fee)
    case SetCoordinatorFee(bps) => d == t.(coordinatorFeeBps := bps)
    case SetTreasuryFee(bps) => d == t.(treasuryFeeBps := bps)
    case SetMinPow(bits) => d == t.(minPowBits := bits)
    case SetMaxMint(amount) => d == t.(maxMintPerBlock := amount)
    case SetMintEnabled(enabled) => d == t.(mintEnabled := enabled)
    case SetFeeTiers(tiers) => d == t.(feeTiers := tiers)
    case ClearFeeTiers => d == t.(feeTiers := [])
    case SetFeeDistribution(bs) => d == t.(feeDistribution := Some(bs))
    case SetMintFee(base, ratio) => d == t.(mintFeeBase := base, mintFeeRatio := ratio)
    case SetTokenCreationFee(fee) => d == t.(tokenCreationFee := fee)
    case SetNftMintFee(fee) => d == t.(nftMintFee := fee)
    case SetNftFeeExemptTypes(types) => d == t.(nftFeeExemptTypes := types)
    case SetBurnRate(bps) => d == t.(burnRateBps := bps)
    case SetContractDeploymentFee(fee) => d == t.(contractDeploymentFee := fee)
    case SetStorageFeePerKb(fee) => d == t.(storageFeePerKb := fee)
    case SetDynamicFee(enabled, tps, multiplier) =>
      d == t.(dynamicFeeEnabled := enabled, targetTps := tps.GetOr(t.targetTps),
              maxFeeMultiplier := match multiplier case Some(Parses(v)) => v case _ => t.maxFeeMultiplier)
    case SetEmissionCorridor(ceiling, floor, target, duration) =>
      d == t.(emissionCeilingBps := Some(ceiling), emissionFloorBps := Some(floor),
              emissionTargetBps := Some(target), emissionEpochDurationSec := Some(duration))
    case BatchUpdate(_) => true
  }

  lemma {:induction false} LeafReplaces(c: Config, u: ConfigUpdate, block: string, ts: int)
    requires !u.BatchUpdate? && ApplyInner(c, u, block, ts).Ok?
    ensures Replaces(Touch(c, block, ts), u, ApplyInner(c, u, block, ts).value)
  {
    hide TiersValid, DistributionValid, CorridorCoherent, ApplyAll;
  }

  lemma {:induction false} TouchedField(c: Config, block: string, ts: int, f: Field)
    ensures ValueOf(Touch(c, block, ts), f) == ValueOf(c, f)
  {}

  lemma {:induction false} LeafField(t: Config, u: ConfigUpdate, d: Config, f: Field)
    requires !u.BatchUpdate? && Replaces(t, u, d)
    ensures FieldMoves(t, u, d, f)
  {}

  /** A single update is refused exactly when it is malformed; otherwise it changes exactly the fields
      it names. */
  lemma {:induction false} LeafEffect(c: Config, u: ConfigUpdate, block: string, ts: int)
    requires !u.BatchUpdate?
    ensures var r := ApplyInner(c, u, block, ts);
            match Complaint(u)
            case Some(e) => r == Err(e)
            case None =>
              && r.Ok? && r.value.updatedAtBlock == block && r.value.updatedAtTimestamp == ts
              && forall f :: ValueOf(r.value, f) == NamedBy(u, f).GetOr(ValueOf(c, f))
  {
    hide ApplyInner, Complaint, NamedBy, ValueOf, Replaces, Touch;
    LeafAnswer(c, u, block, ts);
    if Complaint(u) == None {
      forall f ensures ValueOf(ApplyInner(c, u, block, ts).value, f) == NamedBy(u, f).GetOr(ValueOf(c, f)) {
        LeafReplaces(c, u, block, ts);
        LeafField(Touch(c, block, ts), u, ApplyInner(c, u, block, ts).value, f);
        TouchedField(c, block, ts, f);
      }
    }
  }

  lemma {:induction false} LeavesEffect(c: Config, us: seq<ConfigUpdate>, block: string, ts: int)
    requires Touch(c, block, ts) == c && forall v :: v in us ==> !v.BatchUpdate?
    ensures var r := ApplyAll(c, us, block, ts);
            match FirstComplaint(us)
            case Some(e) => r == Err(e)
            case None => r.Ok? && r.value.updatedAtBlock == block && r.value.updatedAtTimestamp == ts && EndsAs(c, us, r.value)
    decreases |us|
  {
    hide ApplyInner, Complaint, NamedBy, ValueOf;
    if us != [] {
      LeafEffect(c, us[0], block, ts);
      if Complaint(us[0]) == None {
        LeavesEffect(ApplyInner(c, us[0], block, ts).value, us[1..], block, ts);
      }
    }
  }

  /** The inner application, for batches nested to any depth: the first malformed single update refuses
      all of it, and otherwise each field has the value of the last single update that names it. */
  lemma {:induction false} InnerEffect(c: Config, u: ConfigUpdate, block: string, ts: int)
    ensures var r := ApplyInner(c, u, block, ts);
            match FirstComplaint(Leaves(u))
            case Some(e) => r == Err(e)
            case None => r.Ok? && r.value.updatedAtBlock == block && r.value.updatedAtTimestamp == ts && EndsAs(c, Leaves(u), r.value)
  {
    hide ApplyInner, FirstComplaint, LastNamed;
    UpdateIsItsLeaves(c, u, block, ts);
    LeavesAreSingle(u);
    LeavesEffect(Touch(c, block, ts), Leaves(u), block, ts);
    forall f ensures ValueOf(Touch(c, block, ts), f) == ValueOf(c, f) {}
  }

  lemma {:induction false} SameFeeChecks(a: Config, b: Config)
    requires forall f :: ValueOf(a, f) == ValueOf(b, f)
    ensures FeeConfigValid(a) <==> FeeConfigValid(b)
  {
    hide TiersValid, DistributionValid;
    assert ValueOf(a, FeeTiers) == ValueOf(b, FeeTiers) && ValueOf(a, FeeDistribution) == ValueOf(b, FeeDistribution);
    assert ValueOf(a, CoordinatorFee) == ValueOf(b, CoordinatorFee) && ValueOf(a, TreasuryFee) == ValueOf(b, TreasuryFee);
  }

  /** An accepted update has its full effect, and nothing else changes. It is accepted exactly if no
      single update inside is malformed and the configuration it ends as passes the fee checks. */
  lemma {:induction false} UpdateEffect(c: Config, u: ConfigUpdate, block: string, ts: int)
    ensures var r := ApplyUpdate(c, u, block, ts);
            r.Ok? ==> r.value.updatedAtBlock == block && r.value.updatedAtTimestamp == ts && EndsAs(c, Leaves(u), r.value)
    ensures forall d :: EndsAs(c, Leaves(u), d) ==>
              (ApplyUpdate(c, u, block, ts).Ok? <==> FirstComplaint(Leaves(u)) == None && FeeConfigValid(d))
    ensures FirstComplaint(Leaves(u)).Some? ==> ApplyUpdate(c, u, block, ts) == Err(FirstComplaint(Leaves(u)).value)
  {
    hide ApplyInner, FirstComplaint, LastNamed, FeeConfigValid, ValueOf;
    InnerEffect(c, u, block, ts);
    var r := ApplyInner(c, u, block, ts);
    if r.Ok? {
      forall d | EndsAs(c, Leaves(u), d) ensures FeeConfigValid(d) <==> FeeConfigValid(r.value) {
        SameFeeChecks(d, r.value);
      }
    }
  }

  /** In particular for a single update. */
  lemma {:induction false} SingleEffect(c: Config, u: ConfigUpdate, block: string, ts: int)
    requires !u.BatchUpdate? && ApplyUpdate(c, u, block, ts).Ok?
    ensures forall f :: ValueOf(ApplyUpdate(c, u, block, ts).value, f) == NamedBy(u, f).GetOr(ValueOf(c, f))
  {
    hide ApplyInner, FeeConfigValid;
    LeafEffect(c, u, block, ts);
  }

  lemma {:induction false} SwitchOnly(c: Config, d: Config)
    requires forall f :: ValueOf(d, f) == NamedBy(SetMintEnabled(false), f).GetOr(ValueOf(c, f))
    ensures !d.mintEnabled && (FeeConfigValid(d) <==> FeeConfigValid(c))
  {
    hide TiersValid, DistributionValid;
    assert ValueOf(d, MintEnabled) == Flag(false);
    assert ValueOf(d, FeeTiers) == ValueOf(c, FeeTiers) && ValueOf(d, FeeDistribution) == ValueOf(c, FeeDistribution);
    assert ValueOf(d, CoordinatorFee) == ValueOf(c, CoordinatorFee) && ValueOf(d, TreasuryFee) == ValueOf(c, TreasuryFee);
  }

  /** The kill switch always closes: a valid configuration accepts it, and the mint is off. */
  lemma {:induction false} MintSwitchCloses(c: Config, block: string, ts: int)
    requires FeeConfigValid(c)
    ensures var r := ApplyUpdate(c, SetMintEnabled(false), block, ts); r.Ok? && !r.value.mintEnabled
  {
    hide ApplyInner, FeeConfigValid, ValueOf, NamedBy;
    LeafEffect(c, SetMintEnabled(false), block, ts);
    SwitchOnly(c, ApplyInner(c, SetMintEnabled(false), block, ts).value);
  }
}
