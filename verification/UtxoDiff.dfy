/** How a batched diff over sharded, evicting caches acts on the sets of resident and live
    outputs and on the address index, step by step, as facts about values. */
module UtxoDiff {
  import opened Common
  import opened Outputs
  import opened LruCache

  type AddressIndex = map<string, set<OutputId>>

  datatype IndexOp = IndexOp(address: string, op: OutputId, isAdd: bool)

  ghost predicate Indexed(ix: AddressIndex, a: string, op: OutputId) {
    a in ix && op in ix[a]
  }

  /** The index lists exactly the outpoints of `m`, each under its address, and no empty set. */
  ghost predicate IndexExact(ix: AddressIndex, m: OutputMap) {
    && (forall a :: a in ix ==> ix[a] != {})
    && (forall a, op :: Indexed(ix, a, op) <==> op in m && m[op].address == a)
  }

  /** Shard `i` holds exactly the resident outpoints that hash to it, within its capacity. */
  ghost predicate Tracks(shards: seq<Lru<OutputId, Output>>, cap: nat, resident: OutputMap) {
    && |shards| == SHARD_COUNT
    && (forall i :: 0 <= i < SHARD_COUNT ==> ValidLru(shards[i]) && shards[i].cap == cap)
    && (forall i, op :: 0 <= i < SHARD_COUNT ==>
          Peek(shards[i], op) == if i == ShardIndex(op) then Lookup(resident, op) else None)
  }

  function Self(op: OutputId): OutputId { op }

  function Key(c: (OutputId, Output)): OutputId { c.0 }

  /** Creates as a map; later entries win. */
  function ToMap(cs: seq<(OutputId, Output)>): OutputMap {
    if cs == [] then map[] else ToMap(cs[..|cs| - 1])[cs[|cs| - 1].0 := cs[|cs| - 1].1]
  }

  ghost function Ids(cs: seq<(OutputId, Output)>): set<OutputId> {
    set c | c in cs :: c.0
  }

  /** Meaning of a diff on the set of live outputs. */
  ghost function AfterDiff(live: OutputMap, spends: seq<OutputId>, creates: seq<(OutputId, Output)>): OutputMap {
    (live - Elems(spends)) + ToMap(creates)
  }

  datatype Step = RemoveOne(op: OutputId) | AddOne(op: OutputId, output: Output)

  ghost function AfterStep(live: OutputMap, st: Step): OutputMap {
    match st
    case RemoveOne(op) => live - {op}
    case AddOne(op, o) => live[op := o]
  }

  ghost function AfterSteps(live: OutputMap, steps: seq<Step>): OutputMap {
    if steps == [] then live
    else AfterStep(AfterSteps(live, steps[..|steps| - 1]), steps[|steps| - 1])
  }

  ghost function OneAtATime(spends: seq<OutputId>, creates: seq<(OutputId, Output)>): seq<Step> {
    seq(|spends| + |creates|, i requires 0 <= i < |spends| + |creates| =>
      if i < |spends| then RemoveOne(spends[i]) else AddOne(creates[i - |spends|].0, creates[i - |spends|].1))
  }

  /** A diff means: remove every spend, then add every create, one at a time. */
  lemma {:induction false} DiffIsSequential(live: OutputMap, spends: seq<OutputId>, creates: seq<(OutputId, Output)>)
    ensures AfterSteps(live, OneAtATime(spends, creates)) == AfterDiff(live, spends, creates)
    decreases |spends| + |creates|
  {
    var steps := OneAtATime(spends, creates);
    if creates != [] {
      var n := |creates| - 1;
      assert steps[..|steps| - 1] == OneAtATime(spends, creates[..n]);
      DiffIsSequential(live, spends, creates[..n]);
      AddThenPut(live - Elems(spends), ToMap(creates[..n]), creates[n].0, creates[n].1);
    } else if spends != [] {
      var n := |spends| - 1;
      assert steps[..|steps| - 1] == OneAtATime(spends[..n], []);
      DiffIsSequential(live, spends[..n], []);
      ElemsStep(spends, n);
      assert spends[..n + 1] == spends;
      assert AfterDiff(live, spends, []) == AfterDiff(live, spends[..n], []) - {spends[n]};
    }
  }

  function InShard<T>(s: seq<T>, id: T -> OutputId, i: nat): seq<T> {
    if s == [] then []
    else
      var init := InShard(s[..|s| - 1], id, i);
      if ShardIndex(id(s[|s| - 1])) == i then init + [s[|s| - 1]] else init
  }

  lemma {:induction false} InShardSpec<T(!new)>(s: seq<T>, id: T -> OutputId, i: nat)
    ensures forall x :: x in InShard(s, id, i) <==> x in s && ShardIndex(id(x)) == i
    ensures DistinctBy(s, id) ==> DistinctBy(InShard(s, id, i), id)
  {
    if s != [] {
      var n := |s| - 1;
      InShardSpec(s[..n], id, i);
      assert s == s[..n] + [s[n]];
      assert DistinctBy(s, id) ==> forall x :: x in s[..n] ==> id(x) != id(s[n]);
    }
  }

  lemma {:induction false} ToMapSpec(cs: seq<(OutputId, Output)>)
    ensures ToMap(cs).Keys == Ids(cs)
    ensures DistinctBy(cs, Key) ==> forall c :: c in cs ==> ToMap(cs)[c.0] == c.1
  {
    if cs != [] {
      var n := |cs| - 1;
      ToMapSpec(cs[..n]);
      assert cs == cs[..n] + [cs[n]];
      if DistinctBy(cs, Key) {
        forall c | c in cs[..n] ensures c.0 != cs[n].0 {
          var j :| 0 <= j < n && cs[j] == c;
          assert Key(cs[j]) != Key(cs[n]);
        }
      }
    }
  }

  function IndexAdd(ix: AddressIndex, a: string, op: OutputId): AddressIndex {
    ix[a := Lookup(ix, a).GetOr({}) + {op}]
  }

  function IndexRemove(ix: AddressIndex, a: string, op: OutputId): AddressIndex {
    match Lookup(ix, a)
    case None => ix
    case Some(s) => if s - {op} == {} then ix - {a} else ix[a := s - {op}]
  }

  lemma {:induction false} IndexAddSpec(ix: AddressIndex, a: string, op: OutputId)
    requires forall b :: b in ix ==> ix[b] != {}
    ensures var jx := IndexAdd(ix, a, op);
            && (forall b :: b in jx ==> jx[b] != {})
            && (forall b, p :: Indexed(jx, b, p) <==> Indexed(ix, b, p) || (b == a && p == op))
  {}

  lemma {:induction false} IndexRemoveSpec(ix: AddressIndex, a: string, op: OutputId)
    requires forall b :: b in ix ==> ix[b] != {}
    ensures var jx := IndexRemove(ix, a, op);
            && (forall b :: b in jx ==> jx[b] != {})
            && (forall b, p :: Indexed(jx, b, p) <==> Indexed(ix, b, p) && !(b == a && p == op))
  {
    if a in ix {
      forall p | p in ix[a] && ix[a] - {op} == {} ensures p == op {
        assert p !in ix[a] - {op};
      }
    }
  }

  /** What a spend list is worth in one shard: hits are resident, misses are not. */
  ghost predicate SpendOps(ops: seq<IndexOp>, spends: set<OutputId>, resident: OutputMap) {
    forall x :: x in ops <==>
      !x.isAdd && x.op in spends && x.op in resident && resident[x.op].address == x.address
  }

  ghost predicate CreateOps(ops: seq<IndexOp>, creates: OutputMap) {
    forall x :: x in ops <==> x.isAdd && x.op in creates && creates[x.op].address == x.address
  }

  lemma {:induction false} ElemsAppend(s: seq<OutputId>, x: OutputId)
    ensures Elems(s + [x]) == Elems(s) + {x}
  {}

  lemma {:induction false} ElemsStep(s: seq<OutputId>, k: nat)
    requires k < |s|
    ensures Elems(s[..k + 1]) == Elems(s[..k]) + {s[k]}
  {}

  lemma {:induction false} FreshElem(s: seq<OutputId>, id: OutputId -> OutputId, k: nat)
    requires id == Self && DistinctBy(s, id) && k < |s|
    ensures s[k] !in Elems(s[..k])
  {}

  lemma {:induction false} FreshKey(cs: seq<(OutputId, Output)>, k: nat)
    requires DistinctBy(cs, Key) && k < |cs|
    ensures cs[k].0 !in Ids(cs[..k])
  {}

  lemma {:induction false} AddThenPut(m: OutputMap, made: OutputMap, id: OutputId, o: Output)
    ensures (m + made)[id := o] == m + made[id := o]
  {}

  lemma {:induction false} MadeStep(cs: seq<(OutputId, Output)>, k: nat)
    requires DistinctBy(cs, Key) && k < |cs|
    ensures cs[k] in cs && cs[k].0 !in ToMap(cs[..k])
    ensures ToMap(cs[..k + 1]) == ToMap(cs[..k])[cs[k].0 := cs[k].1]
  {
    assert cs[..k + 1][..k] == cs[..k];
    ToMapSpec(cs[..k]);
    FreshKey(cs, k);
  }

  /** What pushing one new output does to the resident set. */
  ghost predicate Pushed(r: OutputMap, id: OutputId, o: Output, ev: Option<(OutputId, Output)>, r': OutputMap) {
    match ev
    case None => r' == r[id := o]
    case Some(e) =>
      && e.0 != id && e.0 in r && r[e.0] == e.1
      && ShardIndex(e.0) == ShardIndex(id)
      && r' == r[id := o] - {e.0}
  }

  /** Indexing a pushed output and un-indexing the evicted one keeps the index exact. */
  lemma {:induction false} PushedIndex(ix: AddressIndex, r: OutputMap, id: OutputId, o: Output, ev: Option<(OutputId, Output)>, r': OutputMap)
    requires IndexExact(ix, r) && id !in r && Pushed(r, id, o, ev, r')
    ensures var jx := IndexAdd(ix, o.address, id);
            IndexExact(if ev.Some? then IndexRemove(jx, ev.value.1.address, ev.value.0) else jx, r')
  {
    IndexAddSpec(ix, o.address, id);
    if ev.Some? {
      IndexRemoveSpec(IndexAdd(ix, o.address, id), ev.value.1.address, ev.value.0);
    }
  }

  /** Replacing one shard, when the new one holds what is then resident there. */
  lemma {:induction false} TracksUpdate(shards: seq<Lru<OutputId, Output>>, cap: nat, r: OutputMap, i: nat, c: Lru<OutputId, Output>, r': OutputMap)
    requires Tracks(shards, cap, r) && i < SHARD_COUNT && ValidLru(c) && c.cap == cap
    requires forall op :: Peek(c, op) == if ShardIndex(op) == i then Lookup(r', op) else None
    requires forall op :: ShardIndex(op) != i ==> Lookup(r', op) == Lookup(r, op)
    ensures Tracks(shards[i := c], cap, r')
  {}

  lemma {:induction false} PopTracks(shards: seq<Lru<OutputId, Output>>, cap: nat, r: OutputMap, op: OutputId)
    requires Tracks(shards, cap, r)
    ensures var i := ShardIndex(op);
            && Peek(shards[i], op) == Lookup(r, op)
            && Tracks(shards[i := Pop(shards[i], op).0], cap, r - {op})
  {
    var i := ShardIndex(op);
    var c := Pop(shards[i], op).0;
    forall x ensures Peek(c, x) == if ShardIndex(x) == i then Lookup(r - {op}, x) else None {
      PopSpec(shards[i], op, x);
      assert Peek(shards[i], x) == if i == ShardIndex(x) then Lookup(r, x) else None;
    }
    PopSpec(shards[i], op, op);
    TracksUpdate(shards, cap, r, i, c, r - {op});
  }

  /** A shard is as long as the part of the resident outputs that hashes to it. */
  lemma {:induction false} ShardSize(shards: seq<Lru<OutputId, Output>>, cap: nat, r: OutputMap, i: nat)
    requires Tracks(shards, cap, r) && i < SHARD_COUNT
    ensures |shards[i].entries| == |OnShard(r, i)|
    ensures cap == 0 || |OnShard(r, i)| <= cap
  {
    var es := shards[i].entries;
    DistinctKeysCount(es);
    var ks := set e | e in es :: e.0;
    forall op ensures op in ks <==> op in OnShard(r, i) {
      FindIff(es, op);
      assert Peek(shards[i], op) == if i == ShardIndex(op) then Lookup(r, op) else None;
      if op in ks {
        var e :| e in es && e.0 == op;
        var j :| 0 <= j < |es| && es[j] == e;
      }
    }
    assert ks == OnShard(r, i).Keys;
    assert |OnShard(r, i)| == |OnShard(r, i).Keys|;
  }

  /** Every shard has room for the outputs that hash to it. */
  ghost predicate Fits(m: OutputMap, cap: nat) {
    cap == 0 || forall i :: 0 <= i < SHARD_COUNT ==> |OnShard(m, i)| <= cap
  }

  lemma {:induction false} OnShardSubset(a: OutputMap, b: OutputMap, i: nat)
    requires SubMap(a, b)
    ensures |OnShard(a, i)| <= |OnShard(b, i)|
    ensures a.Keys < b.Keys && (exists op :: op in b && op !in a && ShardIndex(op) == i) ==> |OnShard(a, i)| < |OnShard(b, i)|
  {
    var x, y := OnShard(a, i).Keys, OnShard(b, i).Keys;
    assert |OnShard(a, i)| == |x| && |OnShard(b, i)| == |y|;
    assert x <= y;
    SubsetSize(x, y);
    if op :| op in b && op !in a && ShardIndex(op) == i {
      assert op in y && op !in x;
      SubsetSize(x, y - {op});
    }
  }

  /** While everything is resident, an output that still fits finds its shard below capacity. */
  lemma {:induction false} NoEviction(r: OutputMap, l: OutputMap, op: OutputId, o: Output, cap: nat)
    requires op !in l
    ensures r == l && Fits(l[op := o], cap) && cap > 0 ==> |OnShard(r, ShardIndex(op))| < cap
  {
    OnShardSubset(l, l[op := o], ShardIndex(op));
  }

  lemma {:induction false} PushTracks(shards: seq<Lru<OutputId, Output>>, cap: nat, r: OutputMap, op: OutputId, o: Output)
    returns (r': OutputMap)
    requires Tracks(shards, cap, r) && op !in r
    ensures var i := ShardIndex(op);
            var (c, ev) := Push(shards[i], op, o);
            && Tracks(shards[i := c], cap, r')
            && Pushed(r, op, o, ev, r')
            && (ev.Some? ==> cap > 0 && |OnShard(r, i)| == cap)
  {
    hide Find, OnShard, ShardIndex, DistinctKeys;
    var i := ShardIndex(op);
    ShardSize(shards, cap, r, i);
    assert Peek(shards[i], op) == None;
    var (c, ev) := Push(shards[i], op, o);
    PushSpec(shards[i], op, o, op);
    r' := r[op := o];
    if ev.Some? {
      var e := ev.value;
      assert Peek(shards[i], e.0) == Some(e.1);
      assert ShardIndex(e.0) == i && Lookup(r, e.0) == Some(e.1);
      r' := r[op := o] - {e.0};
    }
    forall x ensures Peek(c, x) == if ShardIndex(x) == i then Lookup(r', x) else None {
      PushSpec(shards[i], op, o, x);
      assert Peek(shards[i], x) == if i == ShardIndex(x) then Lookup(r, x) else None;
    }
    TracksUpdate(shards, cap, r, i, c, r');
  }

  ghost function CreatedAt(before: OutputMap, made: OutputMap, op: OutputId): Option<Output> {
    if op in made then Some(made[op]) else Lookup(before, op)
  }

  /** State of a create loop on shard `n`: outputs `made` so far, pairs evicted so far. */
  ghost predicate CreateState(before: OutputMap, made: OutputMap, ops: seq<IndexOp>,
                              evicted: seq<(OutputId, Output)>, n: nat, r: OutputMap)
  {
    && CreateOps(ops, made)
    && (forall e :: e in evicted ==> ShardIndex(e.0) == n && CreatedAt(before, made, e.0) == Some(e.1))
    && (forall op :: Lookup(r, op) == if op in Ids(evicted) then None else CreatedAt(before, made, op))
  }

  lemma {:induction false} CreateStep(before: OutputMap, made: OutputMap, ops: seq<IndexOp>, evicted: seq<(OutputId, Output)>,
                   n: nat, r: OutputMap, id: OutputId, o: Output, ev: Option<(OutputId, Output)>, r': OutputMap)
    requires CreateState(before, made, ops, evicted, n, r)
    requires id !in before && id !in made && ShardIndex(id) == n
    requires Pushed(r, id, o, ev, r')
    ensures CreateState(before, made[id := o], ops + [IndexOp(o.address, id, true)],
                        if ev.Some? then evicted + [ev.value] else evicted, n, r')
  {
    var made' := made[id := o];
    var evicted' := if ev.Some? then evicted + [ev.value] else evicted;
    assert Ids(evicted') == if ev.Some? then Ids(evicted) + {ev.value.0} else Ids(evicted);
    assert id !in Ids(evicted) by {
      assert forall e :: e in evicted ==> CreatedAt(before, made, e.0).Some?;
    }
    forall e | e in evicted' ensures ShardIndex(e.0) == n && CreatedAt(before, made', e.0) == Some(e.1) {
      if e in evicted {
        assert e.0 in Ids(evicted);
      } else {
        assert Lookup(r, e.0) == Some(e.1);
      }
    }
    forall op ensures Lookup(r', op) == if op in Ids(evicted') then None else CreatedAt(before, made', op) {
      assert Lookup(r, op) == if op in Ids(evicted) then None else CreatedAt(before, made, op);
    }
  }

  ghost function OnShard(m: OutputMap, n: nat): OutputMap {
    map op | op in m && ShardIndex(op) == n :: m[op]
  }

  ghost function IdsOnShard(s: set<OutputId>, n: nat): set<OutputId> {
    set op | op in s && ShardIndex(op) == n
  }

  /** Where an outpoint stands once the shards below `n` have been processed, evictions aside. */
  ghost function PlacedAt(n: nat, m: OutputMap, spends: set<OutputId>, creates: OutputMap, op: OutputId): Option<Output> {
    if ShardIndex(op) < n && op in creates then Some(creates[op])
    else if ShardIndex(op) < n && op in spends then None
    else Lookup(m, op)
  }

  /** The index updates a diff defers: one per hit spend and one per create. */
  ghost predicate Deferred(n: nat, x: IndexOp, spends: set<OutputId>, before: OutputMap, creates: OutputMap) {
    && ShardIndex(x.op) < n
    && (x.isAdd ==> x.op in creates && creates[x.op].address == x.address)
    && (!x.isAdd ==> x.op in spends && x.op in before && before[x.op].address == x.address)
  }

  ghost predicate DiffOps(n: nat, ops: seq<IndexOp>, spends: set<OutputId>, before: OutputMap, creates: OutputMap) {
    forall x :: x in ops <==> Deferred(n, x, spends, before, creates)
  }

  ghost predicate DiffResident(n: nat, before: OutputMap, spends: set<OutputId>, creates: OutputMap,
                               evicted: seq<(OutputId, Output)>, r: OutputMap)
  {
    && (forall e :: e in evicted ==> ShardIndex(e.0) < n && PlacedAt(n, before, spends, creates, e.0) == Some(e.1))
    && (forall op :: Lookup(r, op) == if op in Ids(evicted) then None else PlacedAt(n, before, spends, creates, op))
  }

  /** A diff with the shards below `n` processed; `before` and `all` are the resident and live
      outputs at its start, `r` and `l` the current ones. Spends that miss the shards are still
      to be looked up in the store. */
  ghost predicate DiffState(n: nat, before: OutputMap, all: OutputMap, spends: set<OutputId>, creates: OutputMap,
                            ops: seq<IndexOp>, missed: seq<OutputId>, evicted: seq<(OutputId, Output)>,
                            r: OutputMap, l: OutputMap)
  {
    && DiffOps(n, ops, spends, before, creates)
    && DistinctBy(missed, Self)
    && (forall op :: op in missed <==> op in spends && ShardIndex(op) < n && op !in before)
    && DiffResident(n, before, spends, creates, evicted, r)
    && (forall op :: Lookup(l, op) == PlacedAt(n, all, spends * before.Keys, creates, op))
  }

  lemma {:induction false} EqualLookups(a: OutputMap, b: OutputMap)
    requires forall op :: Lookup(a, op) == Lookup(b, op)
    ensures a == b
  {
    forall op ensures op in a <==> op in b { assert Lookup(a, op) == Lookup(b, op); }
    forall op | op in a ensures a[op] == b[op] { assert Lookup(a, op) == Lookup(b, op); }
  }

  lemma {:induction false} DistinctConcat(a: seq<OutputId>, b: seq<OutputId>)
    requires DistinctBy(a, Self) && DistinctBy(b, Self) && Elems(a) !! Elems(b)
    ensures DistinctBy(a + b, Self)
  {
    forall i, j | 0 <= i < j < |a + b| ensures Self((a + b)[i]) != Self((a + b)[j]) {
      if j < |a| {
        assert Self(a[i]) != Self(a[j]);
      } else if i >= |a| {
        assert Self(b[i - |a|]) != Self(b[j - |a|]);
      } else {
        assert a[i] in Elems(a) && b[j - |a|] in Elems(b);
      }
    }
  }

  lemma {:induction false} DiffStepOps(n: nat, before: OutputMap, spends: set<OutputId>, creates: OutputMap,
                    ops: seq<IndexOp>, ops1: seq<IndexOp>, ops2: seq<IndexOp>, r: OutputMap)
    requires DiffOps(n, ops, spends, before, creates)
    requires SpendOps(ops1, IdsOnShard(spends, n), r)
    requires CreateOps(ops2, OnShard(creates, n))
    requires forall op :: ShardIndex(op) == n ==> Lookup(r, op) == Lookup(before, op)
    ensures DiffOps(n + 1, ops + ops1 + ops2, spends, before, creates)
  {}

  lemma {:induction false} DiffStepResident(n: nat, before: OutputMap, spends: set<OutputId>, creates: OutputMap,
                         evicted: seq<(OutputId, Output)>, r: OutputMap,
                         ops2: seq<IndexOp>, evicted2: seq<(OutputId, Output)>, r2: OutputMap)
    requires DiffResident(n, before, spends, creates, evicted, r)
    requires CreateState(r - IdsOnShard(spends, n), OnShard(creates, n), ops2, evicted2, n, r2)
    ensures DiffResident(n + 1, before, spends, creates, evicted + evicted2, r2)
  {
    var half := r - IdsOnShard(spends, n);
    var made := OnShard(creates, n);
    forall op ensures CreatedAt(half, made, op) == if op in Ids(evicted) then None else PlacedAt(n + 1, before, spends, creates, op) {
      assert Lookup(r, op) == if op in Ids(evicted) then None else PlacedAt(n, before, spends, creates, op);
    }
    forall e | e in evicted + evicted2
      ensures ShardIndex(e.0) < n + 1 && PlacedAt(n + 1, before, spends, creates, e.0) == Some(e.1)
    {
      if e in evicted2 {
        assert CreatedAt(half, made, e.0) == Some(e.1);
      }
    }
    assert Ids(evicted + evicted2) == Ids(evicted) + Ids(evicted2);
    forall op ensures Lookup(r2, op) == if op in Ids(evicted + evicted2) then None else PlacedAt(n + 1, before, spends, creates, op) {
      assert Lookup(r2, op) == if op in Ids(evicted2) then None else CreatedAt(half, made, op);
    }
  }

  lemma {:induction false} DiffStepMissed(n: nat, before: OutputMap, spends: set<OutputId>, missed: seq<OutputId>,
                       missed1: seq<OutputId>, r: OutputMap)
    requires DistinctBy(missed, Self)
    requires forall op :: op in missed <==> op in spends && ShardIndex(op) < n && op !in before
    requires DistinctBy(missed1, Self) && Elems(missed1) == IdsOnShard(spends, n) - r.Keys
    requires forall op :: ShardIndex(op) == n ==> Lookup(r, op) == Lookup(before, op)
    ensures DistinctBy(missed + missed1, Self)
    ensures forall op :: op in missed + missed1 <==> op in spends && ShardIndex(op) < n + 1 && op !in before
  {
    forall op ensures op in missed1 <==> op in spends && ShardIndex(op) == n && op !in before {
      assert op in missed1 <==> op in Elems(missed1);
      assert ShardIndex(op) == n ==> Lookup(r, op) == Lookup(before, op);
    }
    DistinctConcat(missed, missed1);
  }

  lemma {:induction false} DiffStepLive(n: nat, before: OutputMap, all: OutputMap, spends: set<OutputId>, creates: OutputMap,
                     r: OutputMap, l: OutputMap, l2: OutputMap)
    requires forall op :: Lookup(l, op) == PlacedAt(n, all, spends * before.Keys, creates, op)
    requires forall op :: ShardIndex(op) == n ==> Lookup(r, op) == Lookup(before, op)
    requires l2 == (l - (IdsOnShard(spends, n) * r.Keys)) + OnShard(creates, n)
    ensures forall op :: Lookup(l2, op) == PlacedAt(n + 1, all, spends * before.Keys, creates, op)
  {
    forall op ensures Lookup(l2, op) == PlacedAt(n + 1, all, spends * before.Keys, creates, op) {
      assert Lookup(l, op) == PlacedAt(n, all, spends * before.Keys, creates, op);
      assert ShardIndex(op) == n ==> Lookup(r, op) == Lookup(before, op);
    }
  }

  /** Processing one shard extends the diff state by that shard. */
  lemma {:induction false} DiffStep(n: nat, before: OutputMap, all: OutputMap, spends: set<OutputId>, creates: OutputMap,
                 ops: seq<IndexOp>, missed: seq<OutputId>, evicted: seq<(OutputId, Output)>,
                 r: OutputMap, l: OutputMap,
                 ops1: seq<IndexOp>, missed1: seq<OutputId>, ops2: seq<IndexOp>, evicted2: seq<(OutputId, Output)>,
                 r2: OutputMap, l2: OutputMap)
    requires DiffState(n, before, all, spends, creates, ops, missed, evicted, r, l)
    requires SpendOps(ops1, IdsOnShard(spends, n), r)
    requires DistinctBy(missed1, Self) && Elems(missed1) == IdsOnShard(spends, n) - r.Keys
    requires CreateState(r - IdsOnShard(spends, n), OnShard(creates, n), ops2, evicted2, n, r2)
    requires l2 == (l - (IdsOnShard(spends, n) * r.Keys)) + OnShard(creates, n)
    ensures DiffState(n + 1, before, all, spends, creates, ops + ops1 + ops2, missed + missed1, evicted + evicted2, r2, l2)
  {
    forall op | ShardIndex(op) == n ensures Lookup(r, op) == Lookup(before, op) {
      assert op !in Ids(evicted);
    }
    DiffStepOps(n, before, spends, creates, ops, ops1, ops2, r);
    DiffStepResident(n, before, spends, creates, evicted, r, ops2, evicted2, r2);
    DiffStepMissed(n, before, spends, missed, missed1, r);
    DiffStepLive(n, before, all, spends, creates, r, l, l2);
  }

  lemma {:induction false} InShardElems(s: seq<OutputId>, n: nat)
    requires DistinctBy(s, Self)
    ensures DistinctBy(InShard(s, Self, n), Self)
    ensures Elems(InShard(s, Self, n)) == IdsOnShard(Elems(s), n)
  {
    InShardSpec(s, Self, n);
  }

  lemma {:induction false} InShardMap(cs: seq<(OutputId, Output)>, n: nat)
    requires DistinctBy(cs, Key)
    ensures DistinctBy(InShard(cs, Key, n), Key)
    ensures ToMap(InShard(cs, Key, n)) == OnShard(ToMap(cs), n)
  {
    var part := InShard(cs, Key, n);
    InShardSpec(cs, Key, n);
    ToMapSpec(cs);
    ToMapSpec(part);
    forall op ensures Lookup(ToMap(part), op) == Lookup(OnShard(ToMap(cs), n), op) {
      if op in ToMap(part) {
        var c :| c in part && c.0 == op;
      }
    }
    EqualLookups(ToMap(part), OnShard(ToMap(cs), n));
  }

  /** Removal deferred for a spend found in the store only. */
  ghost predicate SettledOp(x: IndexOp, missed: seq<OutputId>, store: OutputMap) {
    !x.isAdd && x.op in missed && x.op in store && store[x.op].address == x.address
  }

  /** Index after deferred updates in which no outpoint is both added and removed. */
  ghost predicate IndexAfter(ix: AddressIndex, ops: seq<IndexOp>, jx: AddressIndex) {
    && (forall a :: a in jx ==> jx[a] != {})
    && (forall a, op :: Indexed(jx, a, op) <==>
          IndexOp(a, op, true) in ops || (Indexed(ix, a, op) && IndexOp(a, op, false) !in ops))
  }

  ghost predicate NoConflict(ops: seq<IndexOp>) {
    forall x, y :: x in ops && y in ops && x.isAdd && !y.isAdd ==> x.op != y.op
  }

  lemma {:induction false} IndexAfterStep(ix: AddressIndex, ops: seq<IndexOp>, jx: AddressIndex, x: IndexOp)
    requires IndexAfter(ix, ops, jx) && NoConflict(ops + [x])
    ensures IndexAfter(ix, ops + [x],
                       if x.isAdd then IndexAdd(jx, x.address, x.op) else IndexRemove(jx, x.address, x.op))
  {}

  /** Deferred updates followed by eviction clean-up leave the index exact for what is resident. */
  lemma {:induction false} IndexSettles(before: OutputMap, spends: set<OutputId>, creates: OutputMap,
                     evicted: seq<(OutputId, Output)>, r: OutputMap,
                     ix: AddressIndex, ops: seq<IndexOp>, jx: AddressIndex, kx: AddressIndex)
    requires IndexExact(ix, before)
    requires DiffResident(SHARD_COUNT, before, spends, creates, evicted, r)
    requires forall x: IndexOp :: x.isAdd ==> (x in ops <==> Deferred(SHARD_COUNT, x, spends, before, creates))
    requires forall x: IndexOp :: !x.isAdd && x.op in before ==> (x in ops <==> Deferred(SHARD_COUNT, x, spends, before, creates))
    requires forall op :: op in creates ==> op !in before
    requires IndexAfter(ix, ops, jx)
    requires forall a :: a in kx ==> kx[a] != {}
    requires forall a, op :: Indexed(kx, a, op) <==> Indexed(jx, a, op) && !exists e :: e in evicted && e.0 == op && e.1.address == a
    ensures IndexExact(kx, r)
  {
    forall a, op ensures Indexed(jx, a, op) <==>
        (var p := PlacedAt(SHARD_COUNT, before, spends, creates, op); p.Some? && p.value.address == a)
    {
      assert IndexOp(a, op, true) in ops <==> Deferred(SHARD_COUNT, IndexOp(a, op, true), spends, before, creates);
      assert op in before ==> (IndexOp(a, op, false) in ops <==> Deferred(SHARD_COUNT, IndexOp(a, op, false), spends, before, creates));
      assert Indexed(ix, a, op) <==> op in before && before[op].address == a;
    }
    forall a, op ensures Indexed(kx, a, op) <==> op in r && r[op].address == a {
      assert Lookup(r, op) == if op in Ids(evicted) then None else PlacedAt(SHARD_COUNT, before, spends, creates, op);
      if op in Ids(evicted) {
        var e :| e in evicted && e.0 == op;
        assert PlacedAt(SHARD_COUNT, before, spends, creates, e.0) == Some(e.1);
      }
    }
  }

  /** Created outpoints are new and their amounts are not negative. */
  ghost predicate NewCreates(creates: seq<(OutputId, Output)>, live: OutputMap) {
    forall c :: c in creates ==> c.0 !in live && c.1.amount >= 0
  }

  lemma {:induction false} CreatesStillFresh(creates: seq<(OutputId, Output)>, n: nat, before: OutputMap, all: OutputMap,
                          spends: set<OutputId>, l: OutputMap)
    requires NewCreates(creates, all)
    requires forall op :: Lookup(l, op) == PlacedAt(n, all, spends * before.Keys, ToMap(creates), op)
    ensures forall c :: c in InShard(creates, Key, n) ==> c.0 !in l && c.1.amount >= 0 && ShardIndex(c.0) == n
  {
    InShardSpec(creates, Key, n);
    forall c | c in InShard(creates, Key, n) ensures c.0 !in l && c.1.amount >= 0 && ShardIndex(c.0) == n {
      assert ShardIndex(Key(c)) == n;
      assert Lookup(l, c.0) == Lookup(all, c.0);
    }
  }

  lemma {:induction false} NothingOnShard(spends: seq<OutputId>, creates: seq<(OutputId, Output)>, n: nat, r: OutputMap, l: OutputMap)
    requires DistinctBy(spends, Self) && DistinctBy(creates, Key)
    requires InShard(spends, Self, n) == [] && InShard(creates, Key, n) == []
    ensures IdsOnShard(Elems(spends), n) == {} && OnShard(ToMap(creates), n) == map[]
    ensures CreateState(r - IdsOnShard(Elems(spends), n), OnShard(ToMap(creates), n), [], [], n, r)
    ensures l == (l - (IdsOnShard(Elems(spends), n) * r.Keys)) + OnShard(ToMap(creates), n)
  {
    InShardElems(spends, n);
    InShardMap(creates, n);
  }

  /** What the store says of a missed spend is what is still counted as live. */
  lemma {:induction false} MissedSettle(before: OutputMap, all: OutputMap, spends: set<OutputId>, creates: OutputMap,
                     ops: seq<IndexOp>, missed: seq<OutputId>, evicted: seq<(OutputId, Output)>,
                     r: OutputMap, l: OutputMap, store: OutputMap)
    requires forall op :: op !in before ==> Lookup(store, op) == Lookup(all, op)
    requires forall op :: op in creates ==> op !in all
    requires DiffState(SHARD_COUNT, before, all, spends, creates, ops, missed, evicted, r, l)
    ensures forall sp :: sp in missed && sp in store ==> sp !in r && Lookup(l, sp) == Some(store[sp])
  {
    forall sp | sp in missed && sp in store ensures sp !in r && Lookup(l, sp) == Some(store[sp]) {
      assert Lookup(store, sp) == Lookup(all, sp);
      assert Lookup(l, sp) == PlacedAt(SHARD_COUNT, all, spends * before.Keys, creates, sp);
      assert Lookup(r, sp) == if sp in Ids(evicted) then None else PlacedAt(SHARD_COUNT, before, spends, creates, sp);
    }
  }

  /** Once missed spends are settled the live outputs are those of the sequential meaning, and
      the deferred index updates do not conflict. */
  lemma {:induction false} SettledLive(before: OutputMap, all: OutputMap, spends: seq<OutputId>, creates: seq<(OutputId, Output)>,
                    ops: seq<IndexOp>, missed: seq<OutputId>, evicted: seq<(OutputId, Output)>,
                    r: OutputMap, l: OutputMap, store: OutputMap, l': OutputMap)
    requires SubMap(before, all)
    requires forall op :: op !in before ==> Lookup(store, op) == Lookup(all, op)
    requires forall op :: op in ToMap(creates) ==> op !in all
    requires DiffState(SHARD_COUNT, before, all, Elems(spends), ToMap(creates), ops, missed, evicted, r, l)
    requires l' == l - (Elems(missed) * store.Keys)
    ensures l' == AfterDiff(all, spends, creates)
  {
    forall op ensures Lookup(l', op) == Lookup(AfterDiff(all, spends, creates), op) {
      assert Lookup(l, op) == PlacedAt(SHARD_COUNT, all, Elems(spends) * before.Keys, ToMap(creates), op);
      assert op !in before ==> Lookup(store, op) == Lookup(all, op);
    }
    EqualLookups(l', AfterDiff(all, spends, creates));
  }

  lemma {:induction false} SettledOps(before: OutputMap, all: OutputMap, spends: set<OutputId>, creates: OutputMap,
                   deferred: seq<IndexOp>, missed: seq<OutputId>, store: OutputMap, ops: seq<IndexOp>)
    requires SubMap(before, all)
    requires forall op :: op !in before ==> Lookup(store, op) == Lookup(all, op)
    requires forall op :: op in creates ==> op !in all
    requires DiffOps(SHARD_COUNT, deferred, spends, before, creates)
    requires forall op :: op in missed ==> op !in before
    requires forall x :: x in ops <==> x in deferred || SettledOp(x, missed, store)
    ensures NoConflict(ops)
    ensures forall x: IndexOp :: x.isAdd ==> (x in ops <==> Deferred(SHARD_COUNT, x, spends, before, creates))
    ensures forall x: IndexOp :: !x.isAdd && x.op in before ==> (x in ops <==> Deferred(SHARD_COUNT, x, spends, before, creates))
  {}
}
