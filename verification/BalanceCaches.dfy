/** The supply cache and the two balance caches, as values, and what it means for them to be
    exact for a set of outputs. */
module BalanceCaches {
  import opened Common
  import opened Outputs

  datatype Caches = Caches(
    supply: map<Option<string>, (int, nat)>,
    native: map<string, int>,
    token: map<(string, string), int>)

  const EMPTY_CACHES := Caches(map[], map[], map[])

  function AddSupply(c: map<Option<string>, (int, nat)>, o: Output): map<Option<string>, (int, nat)> {
    var e := Lookup(c, o.assetId).GetOr((0, 0));
    c[o.assetId := (e.0 + o.amount, e.1 + 1)]
  }

  /** The entry disappears with its last output; the count saturates at zero. */
  function SubSupply(c: map<Option<string>, (int, nat)>, o: Output): map<Option<string>, (int, nat)> {
    match Lookup(c, o.assetId)
    case None => c
    case Some(e) =>
      var n: nat := if e.1 == 0 then 0 else e.1 - 1;
      if n == 0 then c - {o.assetId} else c[o.assetId := (e.0 - o.amount, n)]
  }

  function AddBalance<K(==)>(b: map<K, int>, k: K, amount: int): map<K, int> {
    b[k := Lookup(b, k).GetOr(0) + amount]
  }

  /** A missing entry is left missing; an entry that reaches zero is deleted. */
  function SubBalance<K(==)>(b: map<K, int>, k: K, amount: int): map<K, int> {
    match Lookup(b, k)
    case None => b
    case Some(v) => if v - amount == 0 then b - {k} else b[k := v - amount]
  }

  function AddOutput(c: Caches, o: Output): Caches {
    match o.assetId
    case None => Caches(AddSupply(c.supply, o), AddBalance(c.native, o.address, o.amount), c.token)
    case Some(a) => Caches(AddSupply(c.supply, o), c.native, AddBalance(c.token, (o.address, a), o.amount))
  }

  function SubOutput(c: Caches, o: Output): Caches {
    match o.assetId
    case None => Caches(SubSupply(c.supply, o), SubBalance(c.native, o.address, o.amount), c.token)
    case Some(a) => Caches(SubSupply(c.supply, o), c.native, SubBalance(c.token, (o.address, a), o.amount))
  }

  function SupplyOf(c: Caches, asset: Option<string>): (int, nat) {
    Lookup(c.supply, asset).GetOr((0, 0))
  }

  function BalanceOf(c: Caches, address: string, asset: Option<string>): int {
    match asset
    case None => Lookup(c.native, address).GetOr(0)
    case Some(a) => Lookup(c.token, (address, a)).GetOr(0)
  }

  ghost predicate SupplyExact(c: Caches, m: OutputMap) {
    forall a :: SupplyOf(c, a).0 == Sum(AssetTotal(a), m) && SupplyOf(c, a).1 == Sum(AssetCount(a), m)
  }

  ghost predicate BalancesExact(c: Caches, m: OutputMap) {
    forall addr, a :: BalanceOf(c, addr, a) == Sum(Balance(addr, a), m)
  }

  /** Every supply and balance lookup answers the sum over `m`; an asset has a supply entry
      exactly while it has an output. */
  ghost predicate Exact(c: Caches, m: OutputMap) {
    && SupplyExact(c, m)
    && BalancesExact(c, m)
    && (forall a :: a in c.supply ==> c.supply[a].1 > 0)
  }

  lemma {:induction false} EmptyExact()
    ensures Exact(EMPTY_CACHES, map[])
  {}

  lemma {:induction false} AddExact(c: Caches, m: OutputMap, k: OutputId, o: Output)
    requires Exact(c, m) && k !in m
    ensures Exact(AddOutput(c, o), m[k := o])
  {
    var d := AddOutput(c, o);
    forall a ensures SupplyOf(d, a).0 == Sum(AssetTotal(a), m[k := o]) && SupplyOf(d, a).1 == Sum(AssetCount(a), m[k := o]) {
      SumInsert(AssetTotal(a), m, k, o);
      SumInsert(AssetCount(a), m, k, o);
    }
    forall addr, a ensures BalanceOf(d, addr, a) == Sum(Balance(addr, a), m[k := o]) {
      SumInsert(Balance(addr, a), m, k, o);
      assert BalanceOf(c, addr, a) == Sum(Balance(addr, a), m);
    }
  }

  lemma {:induction false} SubSupplyExact(c: Caches, m: OutputMap, k: OutputId)
    requires Exact(c, m) && k in m && NonNegative(m)
    ensures SupplyExact(SubOutput(c, m[k]), m - {k})
    ensures forall a :: a in SubOutput(c, m[k]).supply ==> SubOutput(c, m[k]).supply[a].1 > 0
  {
    var o, d, rest := m[k], SubOutput(c, m[k]), m - {k};
    forall a ensures SupplyOf(d, a).0 == Sum(AssetTotal(a), rest) && SupplyOf(d, a).1 == Sum(AssetCount(a), rest) {
      SumRemove(AssetTotal(a), m, k);
      SumRemove(AssetCount(a), m, k);
      SumMonotone(AssetCount(a), rest, m);
      if a == o.assetId && SupplyOf(c, a).1 == 1 {
        NoneLeft(a, rest);
      }
    }
  }

  lemma {:induction false} SubBalancesExact(c: Caches, m: OutputMap, k: OutputId)
    requires BalancesExact(c, m) && k in m && NonNegative(m)
    ensures BalancesExact(SubOutput(c, m[k]), m - {k})
  {
    var d, rest := SubOutput(c, m[k]), m - {k};
    forall addr, a ensures BalanceOf(d, addr, a) == Sum(Balance(addr, a), rest) {
      SumRemove(Balance(addr, a), m, k);
      SumMonotone(Balance(addr, a), rest, m);
      assert BalanceOf(c, addr, a) == Sum(Balance(addr, a), m);
    }
  }

  /** Deleting zero entries loses nothing, because amounts are not negative: a missing balance
      entry means every remaining output of that address and asset has amount zero. */
  lemma {:induction false} SubExact(c: Caches, m: OutputMap, k: OutputId)
    requires Exact(c, m) && k in m && NonNegative(m)
    ensures Exact(SubOutput(c, m[k]), m - {k})
  {
    SubSupplyExact(c, m, k);
    SubBalancesExact(c, m, k);
  }

  /** No output of an asset left, so nothing left to total. */
  lemma {:induction false} NoneLeft(a: Option<string>, m: OutputMap)
    requires Sum(AssetCount(a), m) == 0 && NonNegative(m)
    ensures Sum(AssetTotal(a), m) == 0
    decreases |m|
  {
    if m != map[] {
      var k :| k in m;
      SumRemove(AssetCount(a), m, k);
      SumRemove(AssetTotal(a), m, k);
      SumMonotone(AssetCount(a), m - {k}, m - {k});
      NoneLeft(a, m - {k});
    }
  }

  /** With negative amounts the deletion of zero entries would lose a debt: the subtraction is
      right exactly when the entry is present or the amount is zero. */
  lemma {:induction false} SubBalanceRightIff<K>(b: map<K, int>, k: K, amount: int)
    ensures Lookup(SubBalance(b, k, amount), k).GetOr(0) == Lookup(b, k).GetOr(0) - amount
            <==> k in b || amount == 0
  {}

  /** Adding an outpoint that is already counted always breaks the supply cache, so freshness
      is not only sufficient but necessary. */
  lemma {:induction false} AddExactIffFresh(c: Caches, m: OutputMap, k: OutputId, o: Output)
    requires Exact(c, m)
    ensures SupplyExact(AddOutput(c, o), m[k := o]) <==> k !in m
  {
    if k in m {
      var a := o.assetId;
      SumRemove(AssetCount(a), m, k);
      SumRemove(AssetCount(a), m[k := o], k);
      assert m[k := o] - {k} == m - {k};
      SumRemove(AssetCount(m[k].assetId), m, k);
      SumRemove(AssetCount(m[k].assetId), m[k := o], k);
      assert SupplyOf(AddOutput(c, o), a).1 == SupplyOf(c, a).1 + 1;
      if m[k].assetId != a {
        assert SupplyOf(AddOutput(c, o), m[k].assetId) == SupplyOf(c, m[k].assetId);
      }
    } else {
      AddExact(c, m, k, o);
    }
  }

  /** Caches that are exact for a subset are exact for the whole only if nothing is missing. */
  lemma {:induction false} ExactForBothIff(c: Caches, part: OutputMap, whole: OutputMap)
    requires Exact(c, part) && SubMap(part, whole) && NonNegative(whole)
    ensures SupplyExact(c, whole) <==> part == whole
  {
    if part != whole {
      assert part.Keys != whole.Keys;
      var k :| k in whole && k !in part;
      var q := AssetCount(whole[k].assetId);
      SumRemove(q, whole, k);
      SumMonotone(q, part, whole - {k});
    }
  }
}
