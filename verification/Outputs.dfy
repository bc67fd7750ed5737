/** Transaction outputs, their shard placement, and sums over a set of outputs. */
module Outputs {
  import opened Common

  datatype OutputId = OutputId(txid: string, index: nat)

  /** An output; amounts count units of 10^-8. */
  datatype Output = Output(
    address: string,
    amount: int,
    assetId: Option<string>,
    lockedUntil: Option<nat>,
    spendCondition: Option<string>,
    createdAt: Option<nat>)

  type OutputMap = map<OutputId, Output>

  const SHARD_COUNT: nat := 256

  function HexDigit(c: char): (d: Option<nat>)
    ensures d.Some? ==> d.value < 16
  {
    if '0' <= c <= '9' then Some(c as int - '0' as int)
    else if 'a' <= c <= 'f' then Some(c as int - 'a' as int + 10)
    else if 'A' <= c <= 'F' then Some(c as int - 'A' as int + 10)
    else None
  }

  /** Shard of an outpoint: the first transaction-id byte in hexadecimal; text that does not
      parse goes to shard 0. A leading plus sign is accepted by the parser used. */
  function ShardIndex(op: OutputId): (i: nat)
    ensures i < SHARD_COUNT
  {
    if |op.txid| < 2 then 0
    else
      match (HexDigit(op.txid[0]), HexDigit(op.txid[1]))
      case (Some(hi), Some(lo)) => 16 * hi + lo
      case (None, Some(lo)) => if op.txid[0] == '+' then lo else 0
      case _ => 0
  }

  const LOWER_HEX := "0123456789abcdef"
  const UPPER_HEX := "0123456789ABCDEF"

  /** A transaction id that starts with two hexadecimal digits, of either case, goes to the shard of that
      byte, a plus sign standing for zero; any other to shard 0. */
  lemma {:induction false} ShardOfHex(op: OutputId, hi: nat, lo: nat)
    requires |op.txid| >= 2 && hi < 16 && lo < 16
    ensures (op.txid[0] == LOWER_HEX[hi] || op.txid[0] == UPPER_HEX[hi]) && (op.txid[1] == LOWER_HEX[lo] || op.txid[1] == UPPER_HEX[lo]) ==>
              ShardIndex(op) == 16 * hi + lo
    ensures op.txid[0] == '+' && (op.txid[1] == LOWER_HEX[lo] || op.txid[1] == UPPER_HEX[lo]) ==> ShardIndex(op) == lo
    ensures op.txid[0] !in LOWER_HEX + UPPER_HEX + "+" || op.txid[1] !in LOWER_HEX + UPPER_HEX ==> ShardIndex(op) == 0
  {
    HexDigits(op.txid[0], hi);
    HexDigits(op.txid[1], lo);
  }

  lemma {:induction false} HexDigits(c: char, d: nat)
    requires d < 16
    ensures c == LOWER_HEX[d] || c == UPPER_HEX[d] ==> HexDigit(c) == Some(d)
    ensures c !in LOWER_HEX + UPPER_HEX ==> HexDigit(c) == None
  {
    if HexDigit(c).Some? {
      var v := HexDigit(c).value;
      assert c == LOWER_HEX[v] || c == UPPER_HEX[v];
      assert c in LOWER_HEX + UPPER_HEX;
    }
  }

  /** What a balance or supply query adds up. */
  datatype Measure =
    | AssetTotal(asset: Option<string>)
    | AssetCount(asset: Option<string>)
    | Balance(address: string, asset: Option<string>)

  function Weight(q: Measure, o: Output): int {
    match q
    case AssetTotal(a) => if o.assetId == a then o.amount else 0
    case AssetCount(a) => if o.assetId == a then 1 else 0
    case Balance(addr, a) => if o.address == addr && o.assetId == a then o.amount else 0
  }

  /** Total of a measure over a finite set of outputs: the reference meaning of every cache. */
  ghost function Sum(q: Measure, m: OutputMap): int
    decreases |m|
  {
    if m == map[] then 0
    else
      var k :| k in m;
      Weight(q, m[k]) + Sum(q, m - {k})
  }

  lemma {:induction false} SumRemove(q: Measure, m: OutputMap, k: OutputId)
    requires k in m
    ensures Sum(q, m) == Weight(q, m[k]) + Sum(q, m - {k})
    decreases |m|
  {
    var j :| j in m && Sum(q, m) == Weight(q, m[j]) + Sum(q, m - {j});
    if j != k {
      SumRemove(q, m - {j}, k);
      SumRemove(q, m - {k}, j);
      assert m - {j} - {k} == m - {k} - {j};
    }
  }

  lemma {:induction false} SumInsert(q: Measure, m: OutputMap, k: OutputId, o: Output)
    requires k !in m
    ensures Sum(q, m[k := o]) == Sum(q, m) + Weight(q, o)
  {
    SumRemove(q, m[k := o], k);
    assert m[k := o] - {k} == m;
  }

  ghost predicate NonNegative(m: OutputMap) {
    forall k :: k in m ==> m[k].amount >= 0
  }

  ghost predicate SubMap(a: OutputMap, b: OutputMap) {
    forall k :: k in a ==> k in b && a[k] == b[k]
  }

  /** Sums of non-negative amounts only grow with the set. */
  lemma {:induction false} SumMonotone(q: Measure, a: OutputMap, b: OutputMap)
    requires SubMap(a, b) && NonNegative(b)
    ensures 0 <= Sum(q, a) <= Sum(q, b)
    decreases |b|
  {
    if b != map[] {
      var k :| k in b;
      SumRemove(q, b, k);
      if k in a {
        SumRemove(q, a, k);
        SumMonotone(q, a - {k}, b - {k});
      } else {
        SumMonotone(q, a, b - {k});
      }
    } else {
      assert a == map[];
    }
  }

  /** A part sums to the whole exactly when what is missing weighs nothing. */
  lemma {:induction false} SumGap(q: Measure, a: OutputMap, b: OutputMap)
    requires SubMap(a, b) && NonNegative(b)
    ensures Sum(q, a) == Sum(q, b) <==> forall k :: k in b && k !in a ==> Weight(q, b[k]) == 0
    decreases |b|
  {
    if b == map[] {
      assert a == map[];
    } else {
      var k :| k in b;
      SumRemove(q, b, k);
      var b' := b - {k};
      if k in a {
        SumRemove(q, a, k);
        SumGap(q, a - {k}, b');
        assert forall j :: j in b && j !in a <==> j in b' && j !in a - {k};
      } else {
        SumMonotone(q, a, b');
        SumGap(q, a, b');
        assert forall j :: j in b && j !in a ==> j == k || (j in b' && j !in a);
      }
    }
  }
}
