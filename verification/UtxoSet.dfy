/** The sharded in-memory output set: bounded shards with eviction, an address index over the
    resident outputs, supply and balance caches over all live outputs, and a store that answers
    for evicted outputs. */
module UtxoSet {
  import opened Common
  import opened Outputs
  import opened LruCache
  import opened BalanceCaches
  import opened UtxoDiff
  import opened UtxoRecency

  method GroupByShard<T(!new)>(items: seq<T>, id: T -> OutputId) returns (g: map<nat, seq<T>>)
    ensures forall i: nat :: Lookup(g, i).GetOr([]) == InShard(items, id, i)
  {
    g := map[];
    for k := 0 to |items|
      invariant forall i: nat :: Lookup(g, i).GetOr([]) == InShard(items[..k], id, i)
    {
      var s := ShardIndex(id(items[k]));
      g := g[s := Lookup(g, s).GetOr([]) + [items[k]]];
      assert items[..k + 1][..k] == items[..k];
    }
    assert items[..|items|] == items;
  }

  ghost function OwnedBy(m: OutputMap, address: string): set<OutputId> {
    set op | op in m && m[op].address == address
  }

  lemma {:induction false} OwnedWhenResident(live: OutputMap, resident: OutputMap, address: string, listed: set<OutputId>)
    requires SubMap(resident, live)
    requires forall op :: op in listed <==> op in resident && resident[op].address == address
    ensures OwnedBy(live, address) == listed <==> OwnedBy(live, address) <= resident.Keys
  {}

  lemma {:induction false} DropKeepsParts(resident: OutputMap, live: OutputMap, op: OutputId)
    requires SubMap(resident, live) && NonNegative(live)
    ensures SubMap(resident - {op}, live - {op}) && NonNegative(live - {op})
    ensures op in resident ==> Lookup(live, op) == Some(resident[op])
    ensures op !in resident ==> resident - {op} == resident
  {}

  lemma {:induction false} RemovedIndex(ix: AddressIndex, r: OutputMap, op: OutputId, o: Option<Output>)
    requires IndexExact(ix, r) && (op in r ==> o == Some(r[op]))
    ensures IndexExact(if o.Some? then IndexRemove(ix, o.value.address, op) else ix, r - {op})
  {
    if o.Some? { IndexRemoveSpec(ix, o.value.address, op); }
  }

  lemma {:induction false} CreateStarts(r: OutputMap, n: nat)
    ensures ToMap([]) == map[] && CreateState(r, map[], [], [], n, r)
  {}

  lemma {:induction false} SpentNext(spends: seq<OutputId>, k: nat, r: OutputMap)
    requires k < |spends|
    ensures spends[k] in r ==> Elems(spends[..k + 1]) * r.Keys == Elems(spends[..k]) * r.Keys + {spends[k]}
    ensures spends[k] !in r ==> Elems(spends[..k + 1]) * r.Keys == Elems(spends[..k]) * r.Keys
  {}

  lemma {:induction false} LatestOwned(live: OutputMap, resident: OutputMap, logs: Logs, address: string, listed: set<OutputId>)
    requires SubMap(resident, live) && ResidentLatest(resident, logs)
    requires forall op :: op in listed <==> op in resident && resident[op].address == address
    ensures forall op :: op in listed <==> op in OwnedBy(live, address) && op in LatestOf(logs, resident, ShardIndex(op))
  {
    hide ShardIndex, Latest;
    forall op ensures op in resident <==> op in LatestOf(logs, resident, ShardIndex(op)) {
      assert LatestOn(resident, logs, ShardIndex(op));
      assert op in resident <==> op in OnShard(resident, ShardIndex(op)).Keys;
    }
  }

  class ShardedUtxoSet {
    const shards: array<Lru<OutputId, Output>>
    const capPerShard: nat
    var addressIndex: AddressIndex
    var supplyCache: map<Option<string>, (int, nat)>
    var nativeBalanceCache: map<string, int>
    var tokenBalanceCache: map<(string, string), int>

    /** All unspent outputs, evicted ones included. */
    ghost var live: OutputMap
    /** The outputs held in the shards. */
    ghost var resident: OutputMap
    /** For each shard, its live outpoints in the order in which they were added. */
    ghost var added: Logs

    function CacheValues(): Caches
      reads this
    {
      Caches(supplyCache, nativeBalanceCache, tokenBalanceCache)
    }

    /** Everything but the address index, which lags inside `ApplyDiff`. */
    ghost predicate Sound()
      reads this, shards
    {
      && shards.Length == SHARD_COUNT
      && Tracks(shards[..], capPerShard, resident)
      && SubMap(resident, live)
      && NonNegative(live)
      && Exact(CacheValues(), live)
      && Logged(added, live)
      && AllRecent(shards[..], added)
    }

    /** The invariant: shards hold a part of the live outputs, the caches are exact for all of
        them, the index for the resident ones. */
    ghost predicate Valid()
      reads this, shards
    {
      Sound() && IndexExact(addressIndex, resident)
    }

    /** The store fallback answers exactly the live outputs that are not resident. */
    ghost predicate StoreAnswers(store: OutputMap)
      reads this
    {
      forall op :: op !in resident ==> Lookup(store, op) == Lookup(live, op)
    }

    constructor (maxUtxos: nat)
      ensures Valid() && live == map[] && fresh(shards)
      ensures resident == map[] && forall n :: 0 <= n < SHARD_COUNT ==> added[n] == []
      ensures capPerShard == if maxUtxos == 0 then 0 else Max((maxUtxos + SHARD_COUNT - 1) / SHARD_COUNT, 1)
    {
      var cap: nat := if maxUtxos == 0 then 0 else Max((maxUtxos + SHARD_COUNT - 1) / SHARD_COUNT, 1);
      capPerShard := cap;
      var empty: Lru<OutputId, Output> := Lru(cap, []);
      shards := new Lru<OutputId, Output>[SHARD_COUNT](_ => empty);
      addressIndex := map[];
      supplyCache, nativeBalanceCache, tokenBalanceCache := map[], map[], map[];
      live, resident, added := map[], map[], seq(SHARD_COUNT, _ => []);
      new;
      EmptyExact();
    }

    // ----- cache and index helpers -----

    /** Counts one output. Caches exact for the outputs `counted` are then exact with it, if it is new. */
    method SupplyAdd(output: Output, ghost op: OutputId, ghost counted: OutputMap)
      modifies this`supplyCache, this`nativeBalanceCache, this`tokenBalanceCache
      ensures Exact(old(CacheValues()), counted) && op !in counted ==> Exact(CacheValues(), counted[op := output])
      ensures CacheValues() == AddOutput(old(CacheValues()), output)
    {
      ghost var caches := CacheValues();
      supplyCache := AddSupply(supplyCache, output);
      match output.assetId {
        case None => nativeBalanceCache := AddBalance(nativeBalanceCache, output.address, output.amount);
        case Some(a) => tokenBalanceCache := AddBalance(tokenBalanceCache, (output.address, a), output.amount);
      }
      if Exact(caches, counted) && op !in counted { AddExact(caches, counted, op, output); }
    }

    /** Discounts one output. Caches exact for the outputs `counted` are then exact without it, if it
        was among them and no amount is negative. */
    method SupplySub(output: Output, ghost op: OutputId, ghost counted: OutputMap)
      modifies this`supplyCache, this`nativeBalanceCache, this`tokenBalanceCache
      ensures Exact(old(CacheValues()), counted) && Lookup(counted, op) == Some(output) && NonNegative(counted) ==>
                Exact(CacheValues(), counted - {op})
      ensures CacheValues() == SubOutput(old(CacheValues()), output)
    {
      ghost var caches := CacheValues();
      supplyCache := SubSupply(supplyCache, output);
      match output.assetId {
        case None => nativeBalanceCache := SubBalance(nativeBalanceCache, output.address, output.amount);
        case Some(a) => tokenBalanceCache := SubBalance(tokenBalanceCache, (output.address, a), output.amount);
      }
      if Exact(caches, counted) && Lookup(counted, op) == Some(output) && NonNegative(counted) { SubExact(caches, counted, op); }
    }

    /** Takes an outpoint out of its shard. */
    method ShardPop(op: OutputId) returns (r: Option<Output>)
      requires shards.Length == SHARD_COUNT && Tracks(shards[..], capPerShard, resident)
      requires Logged(added, live) && AllRecent(shards[..], added)
      modifies shards, this`resident, this`added
      ensures Tracks(shards[..], capPerShard, resident) && AllRecent(shards[..], added)
      ensures r == Lookup(old(resident), op) && resident == old(resident) - {op}
      ensures added == if r.Some? then LogDrop(old(added), op) else old(added)
    {
      hide Tracks, Logged, AllRecent, Minus, ShardIndex;
      PopTracks(shards[..], capPerShard, resident, op);
      PopAllRecent(shards[..], capPerShard, resident, added, live, op);
      var i := ShardIndex(op);
      ghost var before := shards[..];
      var (c, found) := Pop(shards[i], op);
      r := found;
      shards[i] := c;
      resident := resident - {op};
      if r.Some? { added := LogDrop(added, op); } else { assert before[i := c] == before; }
      assert shards[..] == before[i := c];
    }

    /** Puts a new outpoint into its shard. A full shard evicts, and reports, what was added to it
        earliest among what it holds. */
    method ShardPush(op: OutputId, o: Output) returns (ev: Option<(OutputId, Output)>)
      requires shards.Length == SHARD_COUNT && Tracks(shards[..], capPerShard, resident)
      requires op !in resident && AllRecent(shards[..], added)
      modifies shards, this`resident, this`added
      ensures Tracks(shards[..], capPerShard, resident) && AllRecent(shards[..], added)
      ensures Pushed(old(resident), op, o, ev, resident)
      ensures ev.Some? ==> capPerShard > 0 && |OnShard(old(resident), ShardIndex(op))| == capPerShard
      ensures added == LogAdd(old(added), op)
      ensures |OnShard(resident, ShardIndex(op))| == Room(capPerShard, |OnShard(old(resident), ShardIndex(op))| + 1)
      ensures ev.Some? ==> Some(ev.value.0) == EarliestHeld(old(added)[ShardIndex(op)], |OnShard(old(resident), ShardIndex(op))|)
    {
      hide Tracks, AllRecent, ShardIndex, OnShard;
      ghost var r' := PushTracks(shards[..], capPerShard, resident, op, o);
      PushAllRecent(shards[..], capPerShard, resident, added, op, o);
      var i := ShardIndex(op);
      ghost var before := shards[..];
      var (c, e) := Push(shards[i], op, o);
      ev := e;
      shards[i] := c;
      resident := r';
      added := LogAdd(added, op);
      assert shards[..] == before[i := c];
      ShardSize(shards[..], capPerShard, resident, i);
    }

    /** One spend: pops a resident output and takes it out of the caches. */
    method SpendResident(sp: OutputId) returns (r: Option<Output>)
      requires Sound()
      modifies shards, this`resident, this`live, this`added, this`supplyCache, this`nativeBalanceCache, this`tokenBalanceCache
      ensures Sound()
      ensures r == Lookup(old(resident), sp)
      ensures resident == old(resident) - {sp}
      ensures live == if r.Some? then old(live) - {sp} else old(live)
      ensures added == if r.Some? then LogDrop(old(added), sp) else old(added)
    {
      hide Logged, AllRecent, Tracks, LogDrop;
      DropKeepsLogged(added, live, sp);
      r := ShardPop(sp);
      if r.Some? {
        SupplySub(r.value, sp, live);
        live := live - {sp};
      }
    }

    /** One create: enters the caches, then the shard. */
    method CreateResident(op: OutputId, o: Output) returns (ev: Option<(OutputId, Output)>)
      requires Sound() && op !in live && o.amount >= 0
      modifies shards, this`resident, this`live, this`added, this`supplyCache, this`nativeBalanceCache, this`tokenBalanceCache
      ensures Sound()
      ensures live == old(live)[op := o]
      ensures Pushed(old(resident), op, o, ev, resident)
      ensures ev.Some? ==> capPerShard > 0 && |OnShard(old(resident), ShardIndex(op))| == capPerShard
      ensures added == LogAdd(old(added), op)
      ensures |OnShard(resident, ShardIndex(op))| == Room(capPerShard, |OnShard(old(resident), ShardIndex(op))| + 1)
      ensures ev.Some? ==> Some(ev.value.0) == EarliestHeld(old(added)[ShardIndex(op)], |OnShard(old(resident), ShardIndex(op))|)
    {
      hide Logged, AllRecent, Tracks, LogAdd, OnShard, ShardIndex;
      AddKeepsLogged(added, live, op, o);
      SupplyAdd(o, op, live);
      live := live[op := o];
      ev := ShardPush(op, o);
    }

    // ----- single operations -----

    method Get(op: OutputId, store: OutputMap) returns (r: Option<Output>)
      requires Valid() && StoreAnswers(store)
      ensures r == Lookup(live, op)
    {
      r := Peek(shards[ShardIndex(op)], op);
      assert Peek(shards[..][ShardIndex(op)], op) == Lookup(resident, op);
      if r == None {
        r := Lookup(store, op);
      }
    }

    method Add(op: OutputId, output: Output)
      requires Valid()
      requires op !in live && output.amount >= 0
      modifies this, shards
      ensures Valid()
      ensures live == old(live)[op := output]
      ensures added == LogAdd(old(added), op) && ResidentLatest(resident, added)
      ensures |OnShard(resident, ShardIndex(op))| == Room(capPerShard, |OnShard(old(resident), ShardIndex(op))| + 1)
      ensures forall x :: ShardIndex(x) != ShardIndex(op) ==> Lookup(resident, x) == Lookup(old(resident), x)
      ensures old(resident) == old(live) && Fits(live, capPerShard) ==> resident == live
    {
      hide Logged, AllRecent, Tracks, Exact, OnShard, ShardIndex, LogAdd, ResidentLatest, Room, Fits;
      ghost var ix, before := addressIndex, resident;
      var evicted := CreateResident(op, output);
      addressIndex := IndexAdd(addressIndex, output.address, op);
      if evicted.Some? {
        var (id, o) := evicted.value;
        addressIndex := IndexRemove(addressIndex, o.address, id);
      }
      PushedIndex(ix, before, op, output, evicted, resident);
      NoEviction(before, old(live), op, output, capPerShard);
      LatestResident(shards[..], capPerShard, resident, added);
    }

    method Remove(op: OutputId, store: OutputMap) returns (r: Option<Output>)
      requires Valid() && StoreAnswers(store)
      modifies this, shards
      ensures Valid()
      ensures r == Lookup(old(live), op) && live == old(live) - {op}
      ensures resident == old(resident) - {op}
      ensures added == LogDrop(old(added), op) && ResidentLatest(resident, added)
    {
      hide Logged, AllRecent, Tracks, LogDrop, ResidentLatest, ShardIndex, SubMap, NonNegative, Exact, IndexExact, IndexRemove;
      DropKeepsLogged(added, live, op);
      DropKeepsParts(resident, live, op);
      if op !in live { DropAbsent(added, live, op); }
      ghost var before := resident;
      r := ShardPop(op);
      if r == None {
        r := Lookup(store, op);
        PopAllRecent(shards[..], capPerShard, resident, added, live, op);
        added := LogDrop(added, op);
      }
      assert r == Lookup(live, op);
      RemovedIndex(addressIndex, before, op, r);
      if r.Some? {
        addressIndex := IndexRemove(addressIndex, r.value.address, op);
        SupplySub(r.value, op, live);
      }
      assert r == None ==> live - {op} == live;
      live := live - {op};
      LatestResident(shards[..], capPerShard, resident, added);
    }

    // ----- batched diff -----

    method SpendInShard(spends: seq<OutputId>) returns (ops: seq<IndexOp>, missed: seq<OutputId>)
      requires Sound() && DistinctBy(spends, Self)
      modifies shards, this`resident, this`live, this`added, this`supplyCache, this`nativeBalanceCache, this`tokenBalanceCache
      ensures Sound()
      ensures resident == old(resident) - Elems(spends)
      ensures live == old(live) - (Elems(spends) * old(resident).Keys)
      ensures LogsMinus(old(added), Elems(spends) * old(resident).Keys, added)
      ensures SpendOps(ops, Elems(spends), old(resident))
      ensures DistinctBy(missed, Self) && Elems(missed) == Elems(spends) - old(resident).Keys
    {
      hide Exact, Tracks, NonNegative, SubMap, Logged, AllRecent, LogsMinus, LogDrop;
      ops, missed := [], [];
      ghost var logs, all := added, live;
      NothingGone(logs);
      assert Elems(spends[..0]) * old(resident).Keys == {};
      for k := 0 to |spends|
        invariant Sound()
        invariant resident == old(resident) - Elems(spends[..k])
        invariant live == old(live) - (Elems(spends[..k]) * old(resident).Keys)
        invariant LogsMinus(logs, Elems(spends[..k]) * old(resident).Keys, added)
        invariant SpendOps(ops, Elems(spends[..k]), old(resident))
        invariant DistinctBy(missed, Self) && Elems(missed) == Elems(spends[..k]) - old(resident).Keys
      {
        var sp := spends[k];
        FreshElem(spends, Self, k);
        ElemsStep(spends, k);
        OneMoreGone(logs, all, Elems(spends[..k]) * old(resident).Keys, added, sp);
        SpentNext(spends, k, old(resident));
        var c := SpendResident(sp);
        if c.Some? {
          ops := ops + [IndexOp(c.value.address, sp, false)];
        } else {
          ElemsAppend(missed, sp);
          missed := missed + [sp];
        }
      }
      assert spends[..|spends|] == spends;
    }

    method CreateInShard(creates: seq<(OutputId, Output)>, ghost n: nat)
      returns (ops: seq<IndexOp>, evicted: seq<(OutputId, Output)>)
      requires Sound() && DistinctBy(creates, Key) && n < SHARD_COUNT
      requires forall c :: c in creates ==> c.0 !in live && c.1.amount >= 0 && ShardIndex(c.0) == n
      modifies shards, this`resident, this`live, this`added, this`supplyCache, this`nativeBalanceCache, this`tokenBalanceCache
      ensures Sound()
      ensures live == old(live) + ToMap(creates)
      ensures CreateState(old(resident), ToMap(creates), ops, evicted, n, resident)
      ensures added == old(added)[n := old(added)[n] + IdsOf(creates)]
      ensures |OnShard(resident, n)| == Room(capPerShard, |OnShard(old(resident), n)| + |creates|)
    {
      hide Exact, Tracks, NonNegative, Logged, AllRecent, LogAdd, OnShard, ToMap, CreateState, Pushed;
      CreateStarts(resident, n);
      assert creates[..0] == [];
      ops, evicted := [], [];
      ghost var logs, size := added, |OnShard(resident, n)|;
      ShardSize(shards[..], capPerShard, resident, n);
      assert IdsOf([]) == [] && logs[n] + [] == logs[n];
      ghost var made: OutputMap := map[];
      for k := 0 to |creates|
        invariant Sound()
        invariant made == ToMap(creates[..k])
        invariant live == old(live) + made
        invariant CreateState(old(resident), made, ops, evicted, n, resident)
        invariant added == logs[n := logs[n] + IdsOf(creates[..k])]
        invariant |OnShard(resident, n)| == Room(capPerShard, size + k)
      {
        var (id, o) := creates[k];
        AddOneMore(logs, n, creates, k, added);
        MadeStep(creates, k);
        ghost var r0 := resident;
        assert id !in r0;
        var ev := CreateResident(id, o);
        CreateStep(old(resident), made, ops, evicted, n, r0, id, o, ev, resident);
        AddThenPut(old(live), made, id, o);
        ops := ops + [IndexOp(o.address, id, true)];
        made := made[id := o];
        if ev.Some? {
          evicted := evicted + [ev.value];
        }
      }
      assert creates[..|creates|] == creates;
    }

    /** One shard of a diff, under one write lock: its spends, then its creates. */
    method DiffShard(n: nat, spends: seq<OutputId>, creates: seq<(OutputId, Output)>)
      returns (ops1: seq<IndexOp>, missed: seq<OutputId>, ops2: seq<IndexOp>, evicted: seq<(OutputId, Output)>)
      requires Sound() && DistinctBy(spends, Self) && DistinctBy(creates, Key) && n < SHARD_COUNT
      requires forall c :: c in creates ==> c.0 !in live && c.1.amount >= 0 && ShardIndex(c.0) == n
      modifies shards, this`resident, this`live, this`added, this`supplyCache, this`nativeBalanceCache, this`tokenBalanceCache
      ensures Sound()
      ensures SpendOps(ops1, Elems(spends), old(resident))
      ensures DistinctBy(missed, Self) && Elems(missed) == Elems(spends) - old(resident).Keys
      ensures CreateState(old(resident) - Elems(spends), ToMap(creates), ops2, evicted, n, resident)
      ensures live == (old(live) - (Elems(spends) * old(resident).Keys)) + ToMap(creates)
      ensures ShardDone(n, spends, creates, capPerShard, old(added), old(resident), added, resident)
    {
      hide Exact, Tracks, NonNegative, SubMap, Logged, AllRecent, ToMap, CreateState, SpendOps, DistinctBy, Minus, OnShard;
      ops1, missed := SpendInShard(spends);
      ops2, evicted := CreateInShard(creates, n);
    }

    /** Carries a diff over shard `n`, if the diff touches it. */
    method DiffNext(n: nat, spends: seq<OutputId>, creates: seq<(OutputId, Output)>,
                    spendByShard: map<nat, seq<OutputId>>, createByShard: map<nat, seq<(OutputId, Output)>>,
                    ops: seq<IndexOp>, missed: seq<OutputId>, evicted: seq<(OutputId, Output)>,
                    ghost before: OutputMap, ghost all: OutputMap, ghost logs: Logs)
      returns (ops': seq<IndexOp>, missed': seq<OutputId>, evicted': seq<(OutputId, Output)>)
      requires Sound() && DistinctBy(spends, Self) && DistinctBy(creates, Key) && n < SHARD_COUNT
      requires NewCreates(creates, all) && Logged(logs, all)
      requires DiffLogs(n, logs, before, Elems(spends), creates, added)
      requires DiffSizes(n, before, Elems(spends), creates, capPerShard, resident)
      requires Lookup(spendByShard, n).GetOr([]) == InShard(spends, Self, n)
      requires Lookup(createByShard, n).GetOr([]) == InShard(creates, Key, n)
      requires DiffState(n, before, all, Elems(spends), ToMap(creates), ops, missed, evicted, resident, live)
      modifies shards, this`resident, this`live, this`added, this`supplyCache, this`nativeBalanceCache, this`tokenBalanceCache
      ensures Sound()
      ensures DiffState(n + 1, before, all, Elems(spends), ToMap(creates), ops', missed', evicted', resident, live)
      ensures DiffLogs(n + 1, logs, before, Elems(spends), creates, added)
      ensures DiffSizes(n + 1, before, Elems(spends), creates, capPerShard, resident)
    {
      hide Exact, Tracks, NonNegative, SubMap, Logged, AllRecent, ToMap, CreateState, SpendOps, DistinctBy, ShardDone,
           DiffLogs, IdsOnShard, OnShard, InShard;
      ghost var r, l, logs0 := resident, live, added;
      var ops1, missed1, ops2, evicted2 := [], [], [], [];
      if n in spendByShard || n in createByShard {
        InShardElems(spends, n);
        InShardMap(creates, n);
        CreatesStillFresh(creates, n, before, all, Elems(spends), l);
        ops1, missed1, ops2, evicted2 :=
          DiffShard(n, Lookup(spendByShard, n).GetOr([]), Lookup(createByShard, n).GetOr([]));
      } else {
        NothingOnShard(spends, creates, n, r, l);
        NothingDone(n, capPerShard, added, shards[..], r);
      }
      DiffStep(n, before, all, Elems(spends), ToMap(creates), ops, missed, evicted, r, l,
               ops1, missed1, ops2, evicted2, resident, live);
      ops', missed', evicted' := ops + ops1 + ops2, missed + missed1, evicted + evicted2;
      OthersKept(n, Elems(spends), ToMap(creates), ops2, evicted2, r, resident);
      DiffLogsStep(n, logs, all, before, spends, creates, capPerShard, logs0, r, added, resident);
      DiffSizesStep(n, before, spends, creates, capPerShard, logs0, r, added, resident);
    }

    /** The shard loop of a diff, over the affected shards in ascending order. */
    method DiffShards(spends: seq<OutputId>, creates: seq<(OutputId, Output)>)
      returns (ops: seq<IndexOp>, missed: seq<OutputId>, evicted: seq<(OutputId, Output)>)
      requires Sound() && DistinctBy(spends, Self) && DistinctBy(creates, Key)
      requires NewCreates(creates, live)
      modifies shards, this`resident, this`live, this`added, this`supplyCache, this`nativeBalanceCache, this`tokenBalanceCache
      ensures Sound()
      ensures DiffState(SHARD_COUNT, old(resident), old(live), Elems(spends), ToMap(creates),
                        ops, missed, evicted, resident, live)
      ensures DiffLogs(SHARD_COUNT, old(added), old(resident), Elems(spends), creates, added)
      ensures DiffSizes(SHARD_COUNT, old(resident), Elems(spends), creates, capPerShard, resident)
    {
      hide Exact, Tracks, NonNegative, SubMap, Logged, AllRecent, DistinctBy, DiffState, InShard, ToMap, DiffLogs, DiffSizes;
      DiffStarts(added, resident, live, Elems(spends), creates, capPerShard);
      var spendByShard := GroupByShard(spends, Self);
      var createByShard := GroupByShard(creates, Key);
      ops, missed, evicted := [], [], [];
      for i := 0 to SHARD_COUNT
        invariant Sound()
        invariant DiffState(i, old(resident), old(live), Elems(spends), ToMap(creates),
                            ops, missed, evicted, resident, live)
        invariant DiffLogs(i, old(added), old(resident), Elems(spends), creates, added)
        invariant DiffSizes(i, old(resident), Elems(spends), creates, capPerShard, resident)
      {
        ops, missed, evicted := DiffNext(i, spends, creates, spendByShard, createByShard, ops, missed, evicted,
                                         old(resident), old(live), old(added));
      }
    }

    /** Spends that missed the shards are settled from the store. */
    method SettleMissed(missed: seq<OutputId>, store: OutputMap, deferred: seq<IndexOp>) returns (ops: seq<IndexOp>)
      requires Sound() && DistinctBy(missed, Self)
      requires forall sp :: sp in missed && sp in store ==> sp !in resident && Lookup(live, sp) == Some(store[sp])
      modifies this`live, this`added, this`supplyCache, this`nativeBalanceCache, this`tokenBalanceCache
      ensures Sound()
      ensures live == old(live) - (Elems(missed) * store.Keys)
      ensures LogsMinus(old(added), Elems(missed) * store.Keys, added)
      ensures forall x :: x in ops <==> x in deferred || SettledOp(x, missed, store)
    {
      hide Exact, Tracks, Logged, AllRecent, LogsMinus, LogDrop, SubMap, NonNegative, DistinctBy;
      ops := deferred;
      ghost var logs, all, cells := added, live, shards[..];
      NothingGone(logs);
      assert Elems(missed[..0]) * store.Keys == {};
      for k := 0 to |missed|
        invariant Sound() && shards[..] == cells
        invariant live == old(live) - (Elems(missed[..k]) * store.Keys)
        invariant LogsMinus(logs, Elems(missed[..k]) * store.Keys, added)
        invariant forall x :: x in ops <==> x in deferred || SettledOp(x, missed[..k], store)
      {
        var sp := missed[k];
        ElemsStep(missed, k);
        FreshElem(missed, Self, k);
        assert missed[..k + 1] == missed[..k] + [sp];
        var found := Lookup(store, sp);
        OneMoreGone(logs, all, Elems(missed[..k]) * store.Keys, added, sp);
        SpentNext(missed, k, store);
        if found.Some? {
          DropKeepsLogged(added, live, sp);
          DropKeepsParts(resident, live, sp);
          PopAllRecent(shards[..], capPerShard, resident, added, live, sp);
          ops := ops + [IndexOp(found.value.address, sp, false)];
          SupplySub(found.value, sp, live);
          live := live - {sp};
          added := LogDrop(added, sp);
        }
      }
      assert missed[..|missed|] == missed;
    }

    method ApplyDeferred(ops: seq<IndexOp>)
      requires NoConflict(ops) && forall a :: a in addressIndex ==> addressIndex[a] != {}
      modifies this`addressIndex
      ensures IndexAfter(old(addressIndex), ops, addressIndex)
    {
      for k := 0 to |ops|
        invariant IndexAfter(old(addressIndex), ops[..k], addressIndex)
      {
        assert ops[..k + 1] == ops[..k] + [ops[k]];
        IndexAfterStep(old(addressIndex), ops[..k], addressIndex, ops[k]);
        addressIndex := if ops[k].isAdd then IndexAdd(addressIndex, ops[k].address, ops[k].op)
                        else IndexRemove(addressIndex, ops[k].address, ops[k].op);
      }
      assert ops[..|ops|] == ops;
    }

    method DropEvicted(evicted: seq<(OutputId, Output)>)
      requires forall a :: a in addressIndex ==> addressIndex[a] != {}
      modifies this`addressIndex
      ensures forall a :: a in addressIndex ==> addressIndex[a] != {}
      ensures forall a, op :: Indexed(addressIndex, a, op) <==>
                Indexed(old(addressIndex), a, op) && !exists e :: e in evicted && e.0 == op && e.1.address == a
    {
      for k := 0 to |evicted|
        invariant forall a :: a in addressIndex ==> addressIndex[a] != {}
        invariant forall a, op :: Indexed(addressIndex, a, op) <==>
                    Indexed(old(addressIndex), a, op) && !exists e :: e in evicted[..k] && e.0 == op && e.1.address == a
      {
        var (id, o) := evicted[k];
        assert evicted[..k + 1] == evicted[..k] + [evicted[k]];
        assert evicted[k] in evicted[..k + 1];
        IndexRemoveSpec(addressIndex, o.address, id);
        addressIndex := IndexRemove(addressIndex, o.address, id);
      }
      assert evicted[..|evicted|] == evicted;
    }

    /** Applies spends and creates together: grouped by shard, store lookups after the shard
        locks, index updates last. Spends need not be live; creates must be new. */
    method ApplyDiff(spends: seq<OutputId>, creates: seq<(OutputId, Output)>, store: OutputMap)
      requires Valid() && StoreAnswers(store)
      requires DistinctBy(spends, Self) && DistinctBy(creates, Key)
      requires NewCreates(creates, live)
      modifies this, shards
      ensures Valid()
      ensures live == AfterDiff(old(live), spends, creates)
      ensures LogsAfterDiff(old(added), spends, creates, added) && ResidentLatest(resident, added)
      ensures forall n: nat :: n < SHARD_COUNT ==>
                |OnShard(resident, n)| == KeptBy(n, old(resident), Elems(spends), creates, capPerShard)
    {
      hide Exact, Tracks, Logged, AllRecent, LogsMinus, DiffLogs, LogsAfterDiff, ResidentLatest, OnShard, KeptBy;
      ghost var ix, before, all, logs := addressIndex, resident, live, added;
      ghost var sp, cr := Elems(spends), ToMap(creates);
      ToMapSpec(creates);
      var deferred, missed, evicted := DiffShards(spends, creates);
      ghost var half, halfLogs := live, added;
      MissedSettle(before, all, sp, cr, deferred, missed, evicted, resident, live, store);
      var ops := SettleMissed(missed, store, deferred);
      SettledLive(before, all, spends, creates, deferred, missed, evicted, resident, half, store, live);
      SettledOps(before, all, sp, cr, deferred, missed, store, ops);
      LogsSettle(logs, all, before, store, spends, creates, missed, halfLogs, added);
      LatestResident(shards[..], capPerShard, resident, added);
      ApplyDeferred(ops);
      ghost var jx := addressIndex;
      DropEvicted(evicted);
      IndexSettles(before, sp, cr, evicted, resident, ix, ops, jx, addressIndex);
    }

    // ----- queries -----

    method CirculatingSupplyByAsset(asset: Option<string>) returns (total: int, count: nat)
      requires Valid()
      ensures total == Sum(AssetTotal(asset), live) && count == Sum(AssetCount(asset), live)
    {
      var e := Lookup(supplyCache, asset).GetOr((0, 0));
      assert e == SupplyOf(CacheValues(), asset);
      total, count := e.0, e.1;
    }

    method BalanceByAddressAndAsset(address: string, asset: Option<string>) returns (amount: int)
      requires Valid()
      ensures amount == Sum(Balance(address, asset), live)
    {
      assert BalanceOf(CacheValues(), address, asset) == Sum(Balance(address, asset), live);
      match asset
      case None => amount := Lookup(nativeBalanceCache, address).GetOr(0);
      case Some(a) => amount := Lookup(tokenBalanceCache, (address, a)).GetOr(0);
    }

    /** Lists an address through the index. Evicted outputs have left the index, so only the
        resident ones are listed, whatever the store could answer; the listing is complete exactly
        while no live output of the address is evicted. */
    method UtxosByAddress(address: string, store: OutputMap) returns (r: seq<(OutputId, Output)>)
      requires Valid()
      ensures DistinctBy(r, Key)
      ensures forall c :: c in r <==> c.0 in resident && resident[c.0] == c.1 && c.1.address == address
      ensures OwnedBy(live, address) == Ids(r) <==> OwnedBy(live, address) <= resident.Keys
      ensures forall op :: op in Ids(r) <==> op in OwnedBy(live, address) && op in LatestOf(added, resident, ShardIndex(op))
    {
      hide Exact, Logged, AllRecent;
      r := [];
      var todo := Lookup(addressIndex, address).GetOr({});
      assert forall op :: op in todo <==> Indexed(addressIndex, address, op);
      while todo != {}
        invariant forall op :: op in todo ==> op in resident && resident[op].address == address && op !in Ids(r)
        invariant forall op :: op in resident && resident[op].address == address ==> op in todo || op in Ids(r)
        invariant forall c :: c in r ==> c.0 in resident && resident[c.0] == c.1 && c.1.address == address
        invariant DistinctBy(r, Key)
        decreases todo
      {
        var op :| op in todo;
        todo := todo - {op};
        var found := Peek(shards[ShardIndex(op)], op);
        assert Peek(shards[..][ShardIndex(op)], op) == Lookup(resident, op);
        if found == None { found := Lookup(store, op); }
        assert Ids(r + [(op, found.value)]) == Ids(r) + {op};
        assert forall i :: 0 <= i < |r| ==> r[i] in r && r[i].0 in Ids(r);
        r := r + [(op, found.value)];
      }
      forall c: (OutputId, Output) | c.0 in resident && resident[c.0] == c.1 && c.1.address == address ensures c in r {
        var d :| d in r && d.0 == c.0;
      }
      OwnedWhenResident(live, resident, address, Ids(r));
      LatestResident(shards[..], capPerShard, resident, added);
      LatestOwned(live, resident, added, address, Ids(r));
    }

    // ----- rebuild -----

    method RebuildShard(n: nat, supply: map<Option<string>, (int, nat)>, ghost done: OutputMap)
      returns (supply': map<Option<string>, (int, nat)>, ghost done': OutputMap)
      requires shards.Length == SHARD_COUNT && Tracks(shards[..], capPerShard, resident) && n < SHARD_COUNT
      requires forall op :: Lookup(done, op) == if ShardIndex(op) < n then Lookup(resident, op) else None
      requires Exact(Caches(supply, nativeBalanceCache, tokenBalanceCache), done) && IndexExact(addressIndex, done)
      modifies this`addressIndex, this`nativeBalanceCache, this`tokenBalanceCache
      ensures forall op :: Lookup(done', op) == if ShardIndex(op) < n + 1 then Lookup(resident, op) else None
      ensures Exact(Caches(supply', nativeBalanceCache, tokenBalanceCache), done') && IndexExact(addressIndex, done')
    {
      var es := shards[n].entries;
      assert shards[..][n] == shards[n];
      supply', done' := supply, done;
      for k := 0 to |es|
        invariant forall op :: Lookup(done', op) ==
                    if ShardIndex(op) == n then Find(es[..k], op) else Lookup(done, op)
        invariant Exact(Caches(supply', nativeBalanceCache, tokenBalanceCache), done')
        invariant IndexExact(addressIndex, done')
      {
        var (op, o) := es[k];
        FindPrefix(es, k);
        FindAt(es, k);
        assert ShardIndex(op) == n && Lookup(resident, op) == Some(o) by {
          assert Peek(shards[..][n], op) == Some(o);
        }
        assert Lookup(done', op) == None;
        PushedIndex(addressIndex, done', op, o, None, done'[op := o]);
        addressIndex := IndexAdd(addressIndex, o.address, op);
        AddExact(Caches(supply', nativeBalanceCache, tokenBalanceCache), done', op, o);
        supply' := AddSupply(supply', o);
        match o.assetId {
          case None => nativeBalanceCache := AddBalance(nativeBalanceCache, o.address, o.amount);
          case Some(a) => tokenBalanceCache := AddBalance(tokenBalanceCache, (o.address, a), o.amount);
        }
        done' := done'[op := o];
      }
      assert es[..|es|] == es;
      forall op ensures Lookup(done', op) == if ShardIndex(op) < n + 1 then Lookup(resident, op) else None {
        assert Peek(shards[..][n], op) == if n == ShardIndex(op) then Lookup(resident, op) else None;
      }
    }

    /** Recomputes index and caches from the shards: exact for the resident outputs. */
    method RebuildIndexes()
      requires shards.Length == SHARD_COUNT && Tracks(shards[..], capPerShard, resident)
      modifies this`addressIndex, this`supplyCache, this`nativeBalanceCache, this`tokenBalanceCache
      ensures Exact(CacheValues(), resident) && IndexExact(addressIndex, resident)
    {
      addressIndex, nativeBalanceCache, tokenBalanceCache := map[], map[], map[];
      var newSupply: map<Option<string>, (int, nat)> := map[];
      ghost var done: OutputMap := map[];
      EmptyExact();
      for i := 0 to SHARD_COUNT
        invariant forall op :: Lookup(done, op) == if ShardIndex(op) < i then Lookup(resident, op) else None
        invariant Exact(Caches(newSupply, nativeBalanceCache, tokenBalanceCache), done)
        invariant IndexExact(addressIndex, done)
      {
        newSupply, done := RebuildShard(i, newSupply, done);
      }
      EqualLookups(done, resident);
      supplyCache := newSupply;
    }
  }

  /** A client's view: outputs of one address added to one shard of a new set. The listing has exactly
      the last of them, as many as the shard can keep. */
  method ListAfterAdds(maxUtxos: nat, address: string, n: nat, adds: seq<(OutputId, Output)>)
    returns (utxos: ShardedUtxoSet, r: seq<(OutputId, Output)>)
    requires n < SHARD_COUNT && DistinctBy(adds, Key)
    requires forall c :: c in adds ==> c.1.address == address && c.1.amount >= 0 && ShardIndex(c.0) == n
    ensures fresh(utxos) && utxos.Valid()
    ensures Ids(r) == Elems(Latest(IdsOf(adds), Room(utxos.capPerShard, |adds|)))
  {
    hide DistinctBy, ResidentLatest, OnShard, Latest, ShardIndex, ToMap, Exact, Tracks, Logged, AllRecent, IndexExact, OwnedBy;
    utxos := new ShardedUtxoSet(maxUtxos);
    assert adds[..0] == [] && IdsOf([]) == [];
    CreateStarts(utxos.resident, n);
    assert |OnShard(utxos.resident, n)| == 0 by { OnShardOfNone(n); }
    for k := 0 to |adds|
      invariant fresh(utxos) && fresh(utxos.shards) && utxos.Valid()
      invariant utxos.live == ToMap(adds[..k])
      invariant utxos.added[n] == IdsOf(adds[..k])
      invariant |OnShard(utxos.resident, n)| == Room(utxos.capPerShard, k)
    {
      MadeStep(adds, k);
      IdsSnoc(adds, k);
      utxos.Add(adds[k].0, adds[k].1);
    }
    assert adds[..|adds|] == adds;
    r := utxos.UtxosByAddress(address, map[]);
    ListedAreLatest(adds, address, n, utxos.resident, utxos.added, Ids(r));
  }

  lemma {:induction false} OnShardOfNone(n: nat)
    ensures OnShard(map[], n) == map[]
  {}

  lemma {:induction false} ListedAreLatest(adds: seq<(OutputId, Output)>, address: string, n: nat, resident: OutputMap,
                                           logs: Logs, listed: set<OutputId>)
    requires n < SHARD_COUNT && DistinctBy(adds, Key) && logs[n] == IdsOf(adds)
    requires forall c :: c in adds ==> c.1.address == address && ShardIndex(c.0) == n
    requires forall op :: op in listed <==> op in OwnedBy(ToMap(adds), address) && op in LatestOf(logs, resident, ShardIndex(op))
    ensures listed == Elems(Latest(IdsOf(adds), |OnShard(resident, n)|))
  {
    hide ShardIndex, DistinctBy, OnShard;
    ToMapSpec(adds);
    forall op ensures op in listed <==> op in Latest(IdsOf(adds), |OnShard(resident, n)|) {
      if op in IdsOf(adds) {
        var i :| 0 <= i < |adds| && IdsOf(adds)[i] == op;
        assert adds[i] in adds;
      }
    }
  }
}
