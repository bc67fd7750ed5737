/** Transfer fees of contracts and their split among beneficiaries. Fees are integers in units of
    10^-8 once rounded; shares are in basis points. */
module FeeSplit {
  import opened Common
  import opened EmissionBudget

  datatype Split = Split(address: string, shareBps: nat)

  datatype SplitFee = SplitFee(beneficiary: string, amount: int)

  /** `fixed` is the parsed amount in units of 10^-8, with any further digits; `None` does not parse. */
  datatype Formula = PercentageBps(rateBps: nat) | FixedAmount(fixed: Option<real>)

  datatype FormulaError = RateAboveWhole | InvalidAmount | NegativeFee

  function EvaluateTransferFormula(formula: Formula, amount: int): Result<int, FormulaError> {
    match formula
    case PercentageBps(rate) =>
      if rate > 10_000 then Err(RateAboveWhole) else Ok(RoundedShare(amount, rate))
    case FixedAmount(None) => Err(InvalidAmount)
    case FixedAmount(Some(x)) => if x < 0.0 then Err(NegativeFee) else Ok(RoundHalfEven(x))
  }

  /** `fee * bps / 10000`, rounded to the unit with ties to even. */
  function RoundedShare(fee: int, bps: nat): int { RoundHalfEven(Share(fee, bps)) }

  function Share(fee: int, bps: nat): real { (fee * bps) as real / 10_000.0 }

  /** Sum of the rounded shares. */
  function Distributed(fee: int, splits: seq<Split>): int {
    if splits == [] then 0
    else Distributed(fee, splits[..|splits| - 1]) + RoundedShare(fee, splits[|splits| - 1].shareBps)
  }

  function TotalBps(splits: seq<Split>): nat {
    if splits == [] then 0 else TotalBps(splits[..|splits| - 1]) + splits[|splits| - 1].shareBps
  }

  function TotalFees(fees: seq<SplitFee>): int {
    if fees == [] then 0 else TotalFees(fees[..|fees| - 1]) + fees[|fees| - 1].amount
  }

  /** What the fees pay to one address. */
  function PaidTo(fees: seq<SplitFee>, address: string): int {
    if fees == [] then 0
    else PaidTo(fees[..|fees| - 1], address) + if fees[|fees| - 1].beneficiary == address then fees[|fees| - 1].amount else 0
  }

  /** The rounded shares of one address. */
  function DueTo(fee: int, splits: seq<Split>, address: string): int {
    if splits == [] then 0
    else DueTo(fee, splits[..|splits| - 1], address)
         + if splits[|splits| - 1].address == address then RoundedShare(fee, splits[|splits| - 1].shareBps) else 0
  }

  /** The positive shares, in order. */
  function PositiveShares(fee: int, splits: seq<Split>): seq<SplitFee> {
    if splits == [] then []
    else
      var last := splits[|splits| - 1];
      var a := RoundedShare(fee, last.shareBps);
      PositiveShares(fee, splits[..|splits| - 1]) + if a > 0 then [SplitFee(last.address, a)] else []
  }

  lemma {:induction false} ShareBounds(fee: int, bps: nat)
    requires fee >= 0
    ensures Share(fee, bps) >= 0.0
    ensures bps <= 10_000 ==> Share(fee, bps) <= fee as real
  {}

  lemma {:induction false} RoundedShareBounds(fee: int, bps: nat)
    requires fee >= 0
    ensures RoundedShare(fee, bps) >= 0
    ensures bps <= 10_000 ==> RoundedShare(fee, bps) <= fee
    ensures RoundedShare(fee, bps) as real <= Share(fee, bps) + 0.5
  {
    ShareBounds(fee, bps);
    RoundingNear(Share(fee, bps));
    RoundingExact(0);
    RoundingMonotone(0.0, Share(fee, bps));
    RoundingExact(fee);
    if bps <= 10_000 { RoundingMonotone(Share(fee, bps), fee as real); }
  }

  lemma {:induction false} RoundedShareNonNegative(fee: int, bps: nat)
    requires fee >= 0
    ensures RoundedShare(fee, bps) >= 0
  {}

  lemma {:induction false} SharesPositive(fee: int, splits: seq<Split>)
    ensures forall i :: 0 <= i < |PositiveShares(fee, splits)| ==> PositiveShares(fee, splits)[i].amount > 0
  {
    hide RoundedShare;
    if splits != [] { SharesPositive(fee, splits[..|splits| - 1]); }
  }

  /** Leaving out the zero shares changes no total. */
  lemma {:induction false} DistributedIsPositiveShares(fee: int, splits: seq<Split>)
    requires fee >= 0
    ensures TotalFees(PositiveShares(fee, splits)) == Distributed(fee, splits) >= 0
  {
    hide RoundedShare;
    if splits != [] {
      var n := |splits| - 1;
      DistributedIsPositiveShares(fee, splits[..n]);
      RoundedShareNonNegative(fee, splits[n].shareBps);
      var front := PositiveShares(fee, splits[..n]);
      var a := RoundedShare(fee, splits[n].shareBps);
      if a > 0 {
        TotalSnoc(front, SplitFee(splits[n].address, a));
      } else {
        assert PositiveShares(fee, splits) == front;
      }
    }
  }

  lemma {:induction false} PaidToSnoc(fees: seq<SplitFee>, f: SplitFee, address: string)
    ensures PaidTo(fees + [f], address) == PaidTo(fees, address) + if f.beneficiary == address then f.amount else 0
  {}

  /** Every address is paid its shares. */
  lemma {:induction false} SharesReachOwners(fee: int, splits: seq<Split>, address: string)
    requires fee >= 0
    ensures PaidTo(PositiveShares(fee, splits), address) == DueTo(fee, splits, address)
  {
    hide RoundedShare;
    if splits != [] {
      var n := |splits| - 1;
      SharesReachOwners(fee, splits[..n], address);
      RoundedShareNonNegative(fee, splits[n].shareBps);
      var front := PositiveShares(fee, splits[..n]);
      PaidToSnoc(front, SplitFee(splits[n].address, RoundedShare(fee, splits[n].shareBps)), address);
      assert front + [] == front;
    }
  }

  lemma {:induction false} TotalSnoc(fees: seq<SplitFee>, f: SplitFee)
    ensures TotalFees(fees + [f]) == TotalFees(fees) + f.amount
  {}

  /** Rounding gains at most half a unit per share. */
  lemma {:induction false} RoundingGain(fee: int, splits: seq<Split>)
    requires fee >= 0
    ensures Distributed(fee, splits) as real <= Share(fee, TotalBps(splits)) + 0.5 * |splits| as real
  {
    if splits != [] {
      var n := |splits| - 1;
      RoundingGain(fee, splits[..n]);
      RoundedShareBounds(fee, splits[n].shareBps);
      SharesAdd(fee, TotalBps(splits[..n]), splits[n].shareBps);
    }
  }

  lemma {:induction false} SharesAdd(fee: int, a: nat, b: nat)
    ensures Share(fee, a + b) == Share(fee, a) + Share(fee, b)
  {}

  /** Shares of at most the whole overshoot the fee by at most half a unit each. */
  lemma {:induction false} Overshoot(fee: int, front: seq<Split>)
    requires fee >= 0 && TotalBps(front) <= 10_000
    ensures 2 * (Distributed(fee, front) - fee) <= |front|
  {
    RoundingGain(fee, front);
    ShareBounds(fee, TotalBps(front));
  }

  /** With one or two splits the fee is always met. */
  lemma {:induction false} TwoSplitsExact(fee: int, front: seq<Split>)
    requires fee >= 0 && |front| <= 1 && TotalBps(front) <= 10_000
    ensures Distributed(fee, front) <= fee
  {
    if |front| == 1 {
      assert front[..0] == [];
      RoundedShareBounds(fee, front[0].shareBps);
    }
  }

  /** Each address gets its rounded shares, and that of the last split what is left of the fee. */
  ghost predicate PaysOut(fee: int, splits: seq<Split>, results: seq<SplitFee>)
    requires splits != []
  {
    var n := |splits| - 1;
    forall a :: PaidTo(results, a) ==
                DueTo(fee, splits[..n], a) + if splits[n].address == a then Max(fee - Distributed(fee, splits[..n]), 0) else 0
  }

  lemma {:induction false} ResultsPayOut(fee: int, splits: seq<Split>, results: seq<SplitFee>)
    requires fee > 0 && splits != []
    requires var n := |splits| - 1;
             var rest := fee - Distributed(fee, splits[..n]);
             results == PositiveShares(fee, splits[..n]) + if rest > 0 then [SplitFee(splits[n].address, rest)] else []
    ensures PaysOut(fee, splits, results)
  {
    hide Distributed, PositiveShares, PaidTo, DueTo;
    var n := |splits| - 1;
    var front, rest := PositiveShares(fee, splits[..n]), fee - Distributed(fee, splits[..n]);
    assert front + [] == front;
    forall a
      ensures PaidTo(results, a) == DueTo(fee, splits[..n], a) + if splits[n].address == a then Max(rest, 0) else 0
    {
      SharesReachOwners(fee, splits[..n], a);
      PaidToSnoc(front, SplitFee(splits[n].address, rest), a);
    }
  }

  /** The split loop: every share but the last is rounded, the last takes what is left, and only
      positive amounts are emitted. */
  method SplitTotal(fee: int, splits: seq<Split>) returns (results: seq<SplitFee>)
    ensures fee <= 0 || splits == [] ==> results == []
    ensures fee > 0 && splits != [] ==>
              var n := |splits| - 1;
              var rest := fee - Distributed(fee, splits[..n]);
              results == PositiveShares(fee, splits[..n]) + if rest > 0 then [SplitFee(splits[n].address, rest)] else []
    ensures forall i :: 0 <= i < |results| ==> results[i].amount > 0
    ensures fee > 0 && splits != [] ==>
              TotalFees(results) == Max(fee, Distributed(fee, splits[..|splits| - 1]))
    ensures fee > 0 && splits != [] ==> PaysOut(fee, splits, results)
  {
    hide RoundedShare, TotalFees, PaysOut;
    results := [];
    if fee <= 0 || splits == [] { return; }
    var distributed := 0;
    var lastIdx := |splits| - 1;
    for i := 0 to |splits|
      invariant i <= lastIdx ==> distributed == Distributed(fee, splits[..i]) && results == PositiveShares(fee, splits[..i])
      invariant i > lastIdx ==>
                  var rest := fee - Distributed(fee, splits[..lastIdx]);
                  results == PositiveShares(fee, splits[..lastIdx]) + if rest > 0 then [SplitFee(splits[lastIdx].address, rest)] else []
    {
      assert splits[..i + 1][..i] == splits[..i];
      var amount: int;
      if i < lastIdx {
        amount := RoundedShare(fee, splits[i].shareBps);
        distributed := distributed + amount;
      } else {
        amount := fee - distributed;
      }
      if amount > 0 { results := results + [SplitFee(splits[i].address, amount)]; }
    }
    var front, rest := PositiveShares(fee, splits[..lastIdx]), fee - Distributed(fee, splits[..lastIdx]);
    DistributedIsPositiveShares(fee, splits[..lastIdx]);
    SharesPositive(fee, splits[..lastIdx]);
    TotalSnoc(front, SplitFee(splits[lastIdx].address, rest));
    if rest <= 0 { assert results == front; }
    ResultsPayOut(fee, splits, results);
  }

  method EvaluateTransfer(formula: Formula, splits: seq<Split>, amount: int) returns (results: seq<SplitFee>)
    ensures EvaluateTransferFormula(formula, amount).Err? || splits == [] || EvaluateTransferFormula(formula, amount).value <= 0 ==>
              results == []
    ensures forall i :: 0 <= i < |results| ==> results[i].amount > 0
    ensures var fee := EvaluateTransferFormula(formula, amount);
            fee.Ok? && fee.value > 0 && splits != [] ==>
              && TotalFees(results) == Max(fee.value, Distributed(fee.value, splits[..|splits| - 1]))
              && PaysOut(fee.value, splits, results)
  {
    hide PaysOut, Distributed;
    match EvaluateTransferFormula(formula, amount)
    case Ok(fee) => results := SplitTotal(fee, splits);
    case Err(_) => results := [];
  }

  /** A share is the unit nearest to `fee * bps / 10000`. */
  lemma {:induction false} ShareNearest(fee: int, bps: nat)
    ensures -5_000 <= 10_000 * RoundedShare(fee, bps) - fee * bps <= 5_000
  {
    RoundingNear(Share(fee, bps));
    hide RoundHalfEven;
    NearestUnit(fee * bps, RoundedShare(fee, bps));
  }

  lemma {:induction false} NearestUnit(x: int, r: int)
    requires x as real / 10_000.0 - 0.5 <= r as real <= x as real / 10_000.0 + 0.5
    ensures -5_000 <= 10_000 * r - x <= 5_000
  {
    assert x as real - 5_000.0 <= 10_000.0 * r as real <= x as real + 5_000.0;
    assert (10_000 * r) as real == 10_000.0 * r as real;
  }

  /** What each formula charges: the unit nearest to the rate's part of the amount, or the unit nearest
      to the fixed amount, which is that amount itself when it has no further digits. */
  lemma {:induction false} FormulaCharges(amount: int, rate: nat, x: real, n: nat)
    ensures rate <= 10_000 ==>
              var fee := EvaluateTransferFormula(PercentageBps(rate), amount);
              fee.Ok? && -5_000 <= 10_000 * fee.value - amount * rate <= 5_000
    ensures rate > 10_000 ==> EvaluateTransferFormula(PercentageBps(rate), amount) == Err(RateAboveWhole)
    ensures EvaluateTransferFormula(FixedAmount(None), amount) == Err(InvalidAmount)
    ensures x < 0.0 ==> EvaluateTransferFormula(FixedAmount(Some(x)), amount) == Err(NegativeFee)
    ensures x >= 0.0 ==>
              var fee := EvaluateTransferFormula(FixedAmount(Some(x)), amount);
              fee.Ok? && x - 0.5 <= fee.value as real <= x + 0.5
    ensures EvaluateTransferFormula(FixedAmount(Some(n as real)), amount) == Ok(n)
  {
    hide RoundHalfEven;
    ShareNearest(amount, rate);
    RoundingNear(x);
    RoundingExact(n);
  }

  /** The fee of a transfer that is not negative lies between nothing and the whole amount. */
  lemma {:induction false} PercentageWithinAmount(rate: nat, amount: int)
    requires amount >= 0
    ensures var fee := EvaluateTransferFormula(PercentageBps(rate), amount);
            fee.Ok? <==> rate <= 10_000
    ensures rate <= 10_000 ==> 0 <= EvaluateTransferFormula(PercentageBps(rate), amount).value <= amount
  {
    RoundedShareBounds(amount, rate);
  }

  /** A split list that registration accepts. */
  predicate Registered(splits: seq<Split>) {
    splits != [] && TotalBps(splits) == 10_000 && forall i :: 0 <= i < |splits| ==> splits[i].shareBps > 0
  }

  /** What is paid out meets the fee if and only if the rounded shares before the last do not exceed
      it, and never exceeds it by more than half a unit per share before the last. */
  lemma {:induction false} PaidOut(fee: int, splits: seq<Split>)
    requires fee > 0 && splits != [] && TotalBps(splits) <= 10_000
    ensures var front := splits[..|splits| - 1];
            var paid := Max(fee, Distributed(fee, front));
            && (paid == fee <==> Distributed(fee, front) <= fee)
            && 0 <= 2 * (paid - fee) <= |splits| - 1
            && (|splits| <= 2 ==> paid == fee)
  {
    var front := splits[..|splits| - 1];
    Overshoot(fee, front);
    if |splits| <= 2 { TwoSplitsExact(fee, front); }
  }

  /** The sums one split further. */
  lemma {:induction false} OneMoreSplit(fee: int, splits: seq<Split>, n: nat)
    requires n < |splits|
    ensures TotalBps(splits[..n + 1]) == TotalBps(splits[..n]) + splits[n].shareBps
    ensures Distributed(fee, splits[..n + 1]) == Distributed(fee, splits[..n]) + RoundedShare(fee, splits[n].shareBps)
  {
    assert splits[..n + 1][..n] == splits[..n];
  }

  /** The bound is met: three shares with two ties that round up. */
  lemma {:induction false} BoundIsTight()
    ensures var splits := [Split("a", 5_000), Split("b", 5_000), Split("c", 0)];
            TotalBps(splits) == 10_000 && 2 * (Distributed(3, splits[..2]) - 3) == |splits| - 1
  {
    var splits := [Split("a", 5_000), Split("b", 5_000), Split("c", 0)];
    OneMoreSplit(3, splits, 0);
    OneMoreSplit(3, splits, 1);
    OneMoreSplit(3, splits, 2);
    assert splits[..3] == splits;
  }

  /** A registered split list that pays out more than its fee. */
  lemma {:induction false} RegisteredOverpays()
    ensures var splits := [Split("a", 3_000), Split("b", 3_000), Split("c", 3_999), Split("d", 1)];
            Registered(splits) && Distributed(5, splits[..3]) == 6
  {
    var splits := [Split("a", 3_000), Split("b", 3_000), Split("c", 3_999), Split("d", 1)];
    OneMoreSplit(5, splits, 0);
    OneMoreSplit(5, splits, 1);
    OneMoreSplit(5, splits, 2);
    OneMoreSplit(5, splits, 3);
    assert splits[..4] == splits;
  }
}
