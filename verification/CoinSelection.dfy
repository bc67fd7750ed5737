/** Greedy, largest-first choice of the outputs that fund a bridge transfer. Amounts are integers in
    units of 10^-8; `None` is an amount text that does not parse. */
module CoinSelection {
  import opened Common

  datatype Utxo = Utxo(id: string, asset: Option<string>, amount: Option<int>)

  datatype Coin = Coin(id: string, amount: int)

  datatype SelectError = AmountNotPositive | NoUtxos | InsufficientBalance(have: int)

  /** Outputs of the asset, before parsing. */
  function OfAsset(utxos: seq<Utxo>, asset: Option<string>): seq<Utxo> {
    if utxos == [] then []
    else
      var n := |utxos| - 1;
      OfAsset(utxos[..n], asset) + if utxos[n].asset == asset then [utxos[n]] else []
  }

  /** Those whose amount parses. */
  function Parsed(utxos: seq<Utxo>): seq<Coin> {
    if utxos == [] then []
    else
      var n := |utxos| - 1;
      Parsed(utxos[..n]) + if utxos[n].amount.Some? then [Coin(utxos[n].id, utxos[n].amount.value)] else []
  }

  function Eligible(utxos: seq<Utxo>, asset: Option<string>): seq<Coin> { Parsed(OfAsset(utxos, asset)) }

  lemma {:induction false} OfAssetMembers(utxos: seq<Utxo>, asset: Option<string>)
    ensures forall u :: multiset(OfAsset(utxos, asset))[u] == if u.asset == asset then multiset(utxos)[u] else 0
  {
    if utxos != [] {
      var n := |utxos| - 1;
      OfAssetMembers(utxos[..n], asset);
      assert utxos == utxos[..n] + [utxos[n]];
    }
  }

  lemma {:induction false} ParsedMembers(utxos: seq<Utxo>, asset: Option<string>, c: Coin)
    requires forall i :: 0 <= i < |utxos| ==> utxos[i].asset == asset
    ensures multiset(Parsed(utxos))[c] == multiset(utxos)[Utxo(c.id, asset, Some(c.amount))]
  {
    if utxos != [] {
      var n := |utxos| - 1;
      ParsedMembers(utxos[..n], asset, c);
      assert utxos == utxos[..n] + [utxos[n]];
    }
  }

  /** A coin is eligible as often as the input has it, under its id, in the requested asset, with that amount. */
  lemma {:induction false} EligibleFromInput(utxos: seq<Utxo>, asset: Option<string>, c: Coin)
    ensures multiset(Eligible(utxos, asset))[c] == multiset(utxos)[Utxo(c.id, asset, Some(c.amount))]
    ensures OfAsset(utxos, asset) == [] <==> forall u :: u in utxos ==> u.asset != asset
  {
    OfAssetMembers(utxos, asset);
    var kept := OfAsset(utxos, asset);
    forall i | 0 <= i < |kept| ensures kept[i].asset == asset { assert kept[i] in multiset(kept); }
    ParsedMembers(kept, asset, c);
    if kept == [] {
      forall u | u in utxos ensures u.asset != asset { assert u in multiset(utxos) && u !in multiset(kept); }
    } else {
      assert kept[0] in multiset(kept) && kept[0] in multiset(utxos);
    }
  }

  /** Stable insertion: `c` goes behind every coin that is at least as large. */
  function InsertDesc(coins: seq<Coin>, c: Coin): seq<Coin> {
    if coins == [] || coins[|coins| - 1].amount >= c.amount then coins + [c]
    else InsertDesc(coins[..|coins| - 1], c) + [coins[|coins| - 1]]
  }

  /** The stable descending sort of the library. */
  function SortDesc(coins: seq<Coin>): seq<Coin> {
    if coins == [] then [] else InsertDesc(SortDesc(coins[..|coins| - 1]), coins[|coins| - 1])
  }

  ghost predicate Descending(coins: seq<Coin>) {
    forall i, j :: 0 <= i < j < |coins| ==> coins[i].amount >= coins[j].amount
  }

  /** The coins of one amount, in order. */
  function WithAmount(coins: seq<Coin>, v: int): seq<Coin> {
    if coins == [] then []
    else
      var n := |coins| - 1;
      WithAmount(coins[..n], v) + if coins[n].amount == v then [coins[n]] else []
  }

  function Total(coins: seq<Coin>): int {
    if coins == [] then 0 else Total(coins[..|coins| - 1]) + coins[|coins| - 1].amount
  }

  /** Value of any selection of coins. */
  ghost function Value(m: multiset<Coin>): int
    decreases |m|
  {
    if m == multiset{} then 0
    else
      var c :| c in m;
      c.amount + Value(m - multiset{c})
  }

  lemma {:induction false} ValueRemove(m: multiset<Coin>, c: Coin)
    requires c in m
    ensures Value(m) == c.amount + Value(m - multiset{c})
    decreases |m|
  {
    var d :| d in m && Value(m) == d.amount + Value(m - multiset{d});
    if d != c {
      ValueRemove(m - multiset{d}, c);
      ValueRemove(m - multiset{c}, d);
      assert m - multiset{d} - multiset{c} == m - multiset{c} - multiset{d};
    }
  }

  lemma {:induction false} TotalIsValue(coins: seq<Coin>)
    ensures Total(coins) == Value(multiset(coins))
  {
    if coins != [] {
      var n := |coins| - 1;
      assert coins == coins[..n] + [coins[n]];
      TotalIsValue(coins[..n]);
      ValueRemove(multiset(coins), coins[n]);
      assert multiset(coins) - multiset{coins[n]} == multiset(coins[..n]);
    }
  }

  lemma {:induction false} FrontLarger(coins: seq<Coin>, n: nat, c: Coin, front: seq<Coin>)
    requires n < |coins| && Descending(coins) && coins[n].amount < c.amount
    requires multiset(front) == multiset(coins[..n]) + multiset{c}
    ensures forall i :: 0 <= i < |front| ==> front[i].amount >= coins[n].amount
  {
    forall i | 0 <= i < |front| ensures front[i].amount >= coins[n].amount {
      assert front[i] in multiset(front);
      if front[i] != c {
        assert front[i] in coins[..n];
      }
    }
  }

  lemma {:induction false} InsertPermutes(coins: seq<Coin>, c: Coin)
    ensures multiset(InsertDesc(coins, c)) == multiset(coins) + multiset{c}
  {
    if coins != [] && coins[|coins| - 1].amount < c.amount {
      var n := |coins| - 1;
      InsertPermutes(coins[..n], c);
      assert coins == coins[..n] + [coins[n]];
    }
  }

  lemma {:induction false} InsertSorted(coins: seq<Coin>, c: Coin)
    requires Descending(coins)
    ensures Descending(InsertDesc(coins, c))
  {
    if coins != [] && coins[|coins| - 1].amount < c.amount {
      var n := |coins| - 1;
      InsertSorted(coins[..n], c);
      InsertPermutes(coins[..n], c);
      FrontLarger(coins, n, c, InsertDesc(coins[..n], c));
    }
  }

  lemma {:induction false} WithAmountSnoc(coins: seq<Coin>, c: Coin, v: int)
    ensures WithAmount(coins + [c], v) == WithAmount(coins, v) + if c.amount == v then [c] else []
  {}

  lemma {:induction false} InsertStable(coins: seq<Coin>, c: Coin, v: int)
    ensures WithAmount(InsertDesc(coins, c), v) == WithAmount(coins, v) + if c.amount == v then [c] else []
  {
    if coins == [] || coins[|coins| - 1].amount >= c.amount {
      WithAmountSnoc(coins, c, v);
    } else {
      var n := |coins| - 1;
      InsertStable(coins[..n], c, v);
      WithAmountSnoc(InsertDesc(coins[..n], c), coins[n], v);
    }
  }

  /** Sorting permutes and orders. */
  lemma {:induction false} SortOrders(coins: seq<Coin>)
    ensures Descending(SortDesc(coins)) && multiset(SortDesc(coins)) == multiset(coins)
  {
    if coins != [] {
      var n := |coins| - 1;
      SortOrders(coins[..n]);
      InsertSorted(SortDesc(coins[..n]), coins[n]);
      InsertPermutes(SortDesc(coins[..n]), coins[n]);
      assert coins == coins[..n] + [coins[n]];
    }
  }

  /** Equal amounts keep their original order. */
  lemma {:induction false} SortIsStable(coins: seq<Coin>, v: int)
    ensures WithAmount(SortDesc(coins), v) == WithAmount(coins, v)
  {
    if coins != [] {
      var n := |coins| - 1;
      SortIsStable(coins[..n], v);
      InsertStable(SortDesc(coins[..n]), coins[n], v);
    }
  }

  lemma {:induction false} TotalFront(coins: seq<Coin>)
    requires coins != []
    ensures Total(coins) == coins[0].amount + Total(coins[1..])
  {
    if |coins| > 1 {
      var n := |coins| - 1;
      TotalFront(coins[..n]);
      assert coins[..n][1..] == coins[1..][..n - 1];
    }
  }

  /** Some member of the selection is worth no more than the first coin and leaves the rest within
      the remaining coins. */
  lemma {:induction false} SwapForFirst(coins: seq<Coin>, m: multiset<Coin>) returns (c: Coin)
    requires Descending(coins) && m <= multiset(coins) && m != multiset{}
    ensures coins != [] && c in m && c.amount <= coins[0].amount && m - multiset{c} <= multiset(coins[1..])
  {
    var x :| x in m;
    assert x in multiset(coins);
    assert x in coins;
    assert coins == [coins[0]] + coins[1..];
    c := if coins[0] in m then coins[0] else x;
  }

  /** Of all selections of the same size, the first coins of a descending list are worth most. */
  lemma {:induction false} FirstAreBest(coins: seq<Coin>, m: multiset<Coin>)
    requires Descending(coins) && m <= multiset(coins)
    ensures |m| <= |coins| && Value(m) <= Total(coins[..|m|])
    decreases |coins|
  {
    hide Total;
    if m == multiset{} {
      TotalNone(coins);
    } else {
      var c := SwapForFirst(coins, m);
      ValueRemove(m, c);
      FirstAreBest(coins[1..], m - multiset{c});
      TotalFront(coins[..|m|]);
      assert coins[..|m|][1..] == coins[1..][..|m| - 1];
    }
  }

  lemma {:induction false} TotalNone(coins: seq<Coin>)
    ensures Total(coins[..0]) == 0
  {}

  /** Some selection of the coins reaches the amount. */
  ghost predicate Coverable(coins: seq<Coin>, amount: int) {
    exists m: multiset<Coin> :: m <= multiset(coins) && Value(m) >= amount
  }

  /** No selection with fewer than `k` of the coins reaches the amount. */
  ghost predicate NeedsAtLeast(coins: seq<Coin>, amount: int, k: nat) {
    forall m: multiset<Coin> :: m <= multiset(coins) && |m| < k ==> Value(m) < amount
  }

  /** The greedy loop takes the shortest prefix of `coins` that reaches `amount`. */
  ghost predicate ShortestPrefix(coins: seq<Coin>, amount: int, k: nat) {
    k <= |coins| && forall j :: 0 <= j < k ==> Total(coins[..j]) < amount
  }

  /** No selection with fewer coins, from any order of the same coins, reaches the amount. */
  lemma {:induction false} FewerNeverCover(coins: seq<Coin>, sorted: seq<Coin>, amount: int, k: nat, m: multiset<Coin>)
    requires Descending(sorted) && multiset(sorted) == multiset(coins) && ShortestPrefix(sorted, amount, k)
    requires m <= multiset(coins) && |m| < k
    ensures Value(m) < amount
  {
    FirstAreBest(sorted, m);
  }

  method OfAssetOnly(utxos: seq<Utxo>, asset: Option<string>) returns (kept: seq<Utxo>)
    ensures kept == OfAsset(utxos, asset)
  {
    kept := [];
    for i := 0 to |utxos|
      invariant kept == OfAsset(utxos[..i], asset)
    {
      assert utxos[..i + 1][..i] == utxos[..i];
      if utxos[i].asset == asset { kept := kept + [utxos[i]]; }
    }
    assert utxos[..|utxos|] == utxos;
  }

  method ParsedOnly(utxos: seq<Utxo>) returns (coins: seq<Coin>)
    ensures coins == Parsed(utxos)
  {
    coins := [];
    for i := 0 to |utxos|
      invariant coins == Parsed(utxos[..i])
    {
      assert utxos[..i + 1][..i] == utxos[..i];
      if utxos[i].amount.Some? { coins := coins + [Coin(utxos[i].id, utxos[i].amount.value)]; }
    }
    assert utxos[..|utxos|] == utxos;
  }

  method Greedy(coins: seq<Coin>, amount: int) returns (k: nat, sum: int)
    ensures ShortestPrefix(coins, amount, k) && sum == Total(coins[..k])
    ensures sum >= amount || k == |coins|
  {
    k, sum := 0, 0;
    while k < |coins| && sum < amount
      invariant ShortestPrefix(coins, amount, k) && sum == Total(coins[..k])
    {
      assert coins[..k + 1][..k] == coins[..k];
      sum, k := sum + coins[k].amount, k + 1;
    }
  }

  /** Coin selection of a bridge transfer, for any amounts. It succeeds exactly if some selection of
      eligible coins covers the amount, and then no selection with fewer coins does. */
  method SelectCoins(utxos: seq<Utxo>, asset: Option<string>, amount: int) returns (r: Result<seq<Coin>, SelectError>)
    ensures r == Err(AmountNotPositive) <==> amount <= 0
    ensures r == Err(NoUtxos) <==> amount > 0 && forall u :: u in utxos ==> u.asset != asset
    ensures r.Ok? <==> amount > 0 && Coverable(Eligible(utxos, asset), amount)
    ensures r.Err? && r.error.InsufficientBalance? ==> r.error.have == Total(Eligible(utxos, asset))
    ensures r.Ok? ==> forall c :: multiset(r.value)[c] <= multiset(utxos)[Utxo(c.id, asset, Some(c.amount))]
    ensures r.Ok? ==> multiset(r.value) <= multiset(Eligible(utxos, asset)) && r.value <= SortDesc(Eligible(utxos, asset))
    ensures r.Ok? ==> r.value != [] && Total(r.value) >= amount && Total(r.value[..|r.value| - 1]) < amount
    ensures r.Ok? ==> NeedsAtLeast(Eligible(utxos, asset), amount, |r.value|)
  {
    hide Value, Total, Descending, ShortestPrefix, SortDesc, Coverable, NeedsAtLeast, OfAsset, Parsed;
    forall c: Coin ensures multiset(Eligible(utxos, asset))[c] == multiset(utxos)[Utxo(c.id, asset, Some(c.amount))] {
      EligibleFromInput(utxos, asset, c);
    }
    EligibleFromInput(utxos, asset, Coin("", 0));
    if amount <= 0 { return Err(AmountNotPositive); }
    var kept := OfAssetOnly(utxos, asset);
    if kept == [] {
      NothingParsed();
      NothingCovers([], amount);
      return Err(NoUtxos);
    }
    var coins := ParsedOnly(kept);
    SortOrders(coins);
    var list := SortDesc(coins);
    var k, sum := Greedy(list, amount);
    if sum < amount {
      AllTakenShort(coins, list, amount);
      return Err(InsufficientBalance(sum));
    }
    PrefixCovers(coins, list, amount, k);
    return Ok(list[..k]);
  }

  lemma {:induction false} NothingParsed()
    ensures Parsed([]) == []
  {}

  lemma {:induction false} NothingCovers(coins: seq<Coin>, amount: int)
    requires coins == [] && amount > 0
    ensures !Coverable(coins, amount)
  {}

  /** If even the whole list stays short at every prefix, no selection covers. */
  lemma {:induction false} AllTakenShort(coins: seq<Coin>, sorted: seq<Coin>, amount: int)
    requires Descending(sorted) && multiset(sorted) == multiset(coins) && ShortestPrefix(sorted, amount, |sorted|)
    requires Total(sorted[..|sorted|]) < amount
    ensures Total(sorted[..|sorted|]) == Total(coins)
    ensures !Coverable(coins, amount)
  {
    assert sorted[..|sorted|] == sorted;
    forall m: multiset<Coin> | m <= multiset(coins) ensures Value(m) < amount {
      FirstAreBest(sorted, m);
      assert |m| < |sorted| || sorted[..|m|] == sorted;
    }
    TotalIsValue(sorted);
    TotalIsValue(coins);
  }

  /** A shortest covering prefix is a covering selection without a smaller rival. */
  lemma {:induction false} PrefixCovers(coins: seq<Coin>, sorted: seq<Coin>, amount: int, k: nat)
    requires Descending(sorted) && multiset(sorted) == multiset(coins) && ShortestPrefix(sorted, amount, k)
    requires Total(sorted[..k]) >= amount > 0
    ensures multiset(sorted[..k]) <= multiset(coins) && Coverable(coins, amount)
    ensures k > 0 && Total(sorted[..k][..k - 1]) < amount
    ensures NeedsAtLeast(coins, amount, k)
  {
    assert sorted == sorted[..k] + sorted[k..];
    TotalIsValue(sorted[..k]);
    TotalNone(sorted);
    assert sorted[..k][..k - 1] == sorted[..k - 1];
    forall m: multiset<Coin> | m <= multiset(coins) && |m| < k ensures Value(m) < amount {
      FewerNeverCover(coins, sorted, amount, k, m);
    }
  }

  /** With amounts that are not negative, selection fails for lack of funds exactly when everything
      eligible together is below the amount. */
  lemma {:induction false} CoverableIff(coins: seq<Coin>, amount: int)
    requires forall i :: 0 <= i < |coins| ==> coins[i].amount >= 0
    ensures Coverable(coins, amount) <==> Total(coins) >= amount
  {
    TotalIsValue(coins);
    forall m: multiset<Coin> | m <= multiset(coins) ensures Value(m) <= Total(coins) {
      SelectionBelowTotal(coins, m);
    }
  }

  lemma {:induction false} SelectionBelowTotal(coins: seq<Coin>, m: multiset<Coin>)
    requires m <= multiset(coins) && forall i :: 0 <= i < |coins| ==> coins[i].amount >= 0
    ensures Value(m) <= Total(coins)
  {
    if coins == [] {
      assert m == multiset{};
    } else {
      var n := |coins| - 1;
      assert coins == coins[..n] + [coins[n]];
      if m[coins[n]] == multiset(coins)[coins[n]] {
        ValueRemove(m, coins[n]);
        SelectionBelowTotal(coins[..n], m - multiset{coins[n]});
      } else {
        SelectionBelowTotal(coins[..n], m);
      }
    }
  }
}
