/** Which outputs a bounded shard keeps: those added last. Each shard has a log of the outpoints
    added to it and not removed since, oldest first, whether still resident or evicted. */
module UtxoRecency {
  import opened Common
  import opened Outputs
  import opened LruCache
  import opened UtxoDiff

  /** One log a shard. */
  type Logs = logs: seq<seq<OutputId>> | |logs| == SHARD_COUNT witness seq(SHARD_COUNT, _ => [])

  function Minus(log: seq<OutputId>, gone: set<OutputId>): seq<OutputId> {
    if log == [] then []
    else Minus(log[..|log| - 1], gone) + if log[|log| - 1] in gone then [] else [log[|log| - 1]]
  }

  /** The last `k` of a log. */
  function Latest(log: seq<OutputId>, k: nat): seq<OutputId> {
    if k <= |log| then log[|log| - k..] else log
  }

  /** The earliest of the last `k` of a log. */
  function EarliestHeld(log: seq<OutputId>, k: nat): Option<OutputId> {
    if 0 < k <= |log| then Some(log[|log| - k]) else None
  }

  /** How many of `n` a shard can keep. */
  function Room(cap: nat, n: nat): nat { if cap == 0 then n else Min(n, cap) }

  function LogAdd(logs: Logs, op: OutputId): Logs
  {
    logs[ShardIndex(op) := logs[ShardIndex(op)] + [op]]
  }

  function LogDrop(logs: Logs, op: OutputId): Logs
  {
    logs[ShardIndex(op) := Minus(logs[ShardIndex(op)], {op})]
  }

  /** The logs list exactly the live outpoints, each once and under its shard. */
  ghost predicate Logged(logs: Logs, live: OutputMap) {
    && (forall n :: 0 <= n < SHARD_COUNT ==> DistinctBy(logs[n], Self))
    && (forall n, op :: 0 <= n < SHARD_COUNT ==> (op in logs[n] <==> op in live && ShardIndex(op) == n))
  }

  /** The shard's entries are the last of its log, newest first. */
  ghost predicate Recent(c: Lru<OutputId, Output>, log: seq<OutputId>) {
    |c.entries| <= |log| && forall j :: 0 <= j < |c.entries| ==> c.entries[j].0 == log[|log| - 1 - j]
  }

  ghost predicate AllRecent(shards: seq<Lru<OutputId, Output>>, logs: Logs) {
    |shards| == SHARD_COUNT && forall n :: 0 <= n < SHARD_COUNT ==> Recent(shards[n], logs[n])
  }

  /** What is resident in each shard is what was added to it last. */
  ghost predicate ResidentLatest(resident: OutputMap, logs: Logs) {
    forall n :: 0 <= n < SHARD_COUNT ==> LatestOn(resident, logs, n)
  }

  ghost predicate LatestOn(resident: OutputMap, logs: Logs, n: nat)
    requires n < SHARD_COUNT
  {
    |OnShard(resident, n)| <= |logs[n]| && OnShard(resident, n).Keys == Elems(LatestOf(logs, resident, n))
  }

  /** The outpoints added last to shard `n`, as many as are resident there. */
  ghost function LatestOf(logs: Logs, resident: OutputMap, n: nat): seq<OutputId>
    requires n < SHARD_COUNT
  {
    Latest(logs[n], |OnShard(resident, n)|)
  }

  lemma {:induction false} MinusMembers(log: seq<OutputId>, gone: set<OutputId>)
    ensures forall x :: x in Minus(log, gone) <==> x in log && x !in gone
  {
    if log != [] {
      var n := |log| - 1;
      MinusMembers(log[..n], gone);
      assert log == log[..n] + [log[n]];
    }
  }

  lemma {:induction false} OnlyPlace(log: seq<OutputId>, i: nat)
    requires DistinctBy(log, Self) && i < |log|
    ensures forall j :: 0 <= j < |log| && j != i ==> log[j] != log[i]
  {
    forall j | 0 <= j < |log| && j != i ensures log[j] != log[i] {
      assert Self(log[Min(i, j)]) != Self(log[Max(i, j)]);
    }
  }

  lemma {:induction false} SnocDistinct(log: seq<OutputId>, x: OutputId)
    requires DistinctBy(log, Self) && x !in log
    ensures DistinctBy(log + [x], Self)
  {}

  lemma {:induction false} MinusDistinct(log: seq<OutputId>, gone: set<OutputId>)
    requires DistinctBy(log, Self)
    ensures DistinctBy(Minus(log, gone), Self)
  {
    hide DistinctBy;
    if log != [] {
      var n := |log| - 1;
      DistinctPrefix(log[..n], log, Self);
      MinusDistinct(log[..n], gone);
      MinusMembers(log[..n], gone);
      OnlyPlace(log, n);
      assert Minus(log[..n], gone) + [] == Minus(log[..n], gone);
      SnocDistinct(Minus(log[..n], gone), log[n]);
    } else {
      assert Minus(log, gone) == log;
    }
  }

  lemma {:induction false} MinusConcat(a: seq<OutputId>, b: seq<OutputId>, gone: set<OutputId>)
    ensures Minus(a + b, gone) == Minus(a, gone) + Minus(b, gone)
  {
    if b == [] {
      assert a + b == a;
    } else {
      var n := |b| - 1;
      assert (a + b)[..|a + b| - 1] == a + b[..n];
      MinusConcat(a, b[..n], gone);
    }
  }

  lemma {:induction false} MinusNothing(log: seq<OutputId>, gone: set<OutputId>)
    requires forall x :: x in log ==> x !in gone
    ensures Minus(log, gone) == log
  {
    if log != [] {
      MinusNothing(log[..|log| - 1], gone);
      assert log[|log| - 1] in log;
    }
  }

  lemma {:induction false} MinusTwice(log: seq<OutputId>, a: set<OutputId>, b: set<OutputId>)
    ensures Minus(Minus(log, a), b) == Minus(log, a + b)
  {
    if log != [] {
      var n := |log| - 1;
      MinusTwice(log[..n], a, b);
      MinusConcat(Minus(log[..n], a), if log[n] in a then [] else [log[n]], b);
      assert [log[n]][..0] == [];
    }
  }

  lemma {:induction false} MinusSame(log: seq<OutputId>, a: set<OutputId>, b: set<OutputId>)
    requires forall x :: x in log ==> (x in a <==> x in b)
    ensures Minus(log, a) == Minus(log, b)
  {
    if log != [] {
      MinusSame(log[..|log| - 1], a, b);
      assert log[|log| - 1] in log;
    }
  }

  lemma {:induction false} MinusOne(a: seq<OutputId>, op: OutputId, b: seq<OutputId>)
    requires op !in a && op !in b
    ensures Minus(a + [op] + b, {op}) == a + b
  {
    hide Minus;
    MinusConcat(a + [op], b, {op});
    MinusConcat(a, [op], {op});
    MinusNothing(a, {op});
    MinusNothing(b, {op});
    MinusSingle(op);
  }

  lemma {:induction false} MinusSingle(op: OutputId)
    ensures Minus([op], {op}) == []
  {
    assert [op][..0] == [];
  }

  /** Taking one place out of a log of distinct outpoints. */
  lemma {:induction false} MinusAt(log: seq<OutputId>, i: nat)
    requires DistinctBy(log, Self) && i < |log|
    ensures Minus(log, {log[i]}) == log[..i] + log[i + 1..]
  {
    hide DistinctBy;
    var a, op, b := log[..i], log[i], log[i + 1..];
    OnlyPlace(log, i);
    assert forall j :: 0 <= j < |b| ==> b[j] == log[i + 1 + j];
    assert log == a + [op] + b;
    MinusOne(a, op, b);
  }

  lemma {:induction false} WithoutAt(es: seq<(OutputId, Output)>, j: nat)
    requires DistinctKeys(es) && j < |es|
    ensures Without(es, es[j].0) == es[..j] + es[j + 1..]
  {
    if j > 0 {
      WithoutAt(es[1..], j - 1);
      assert es[1..][..j - 1] == es[..j][1..];
      assert es[1..][j..] == es[j + 1..];
    }
  }

  lemma {:induction false} WithoutAbsent(es: seq<(OutputId, Output)>, k: OutputId)
    requires Find(es, k) == None
    ensures Without(es, k) == es
  {
    if es != [] { WithoutAbsent(es[1..], k); }
  }

  /** A push keeps the last entries of the longer log; a full shard drops the one added earliest. */
  lemma {:induction false} PushRecent(c: Lru<OutputId, Output>, log: seq<OutputId>, op: OutputId, o: Output)
    requires Recent(c, log) && ValidLru(c) && Peek(c, op) == None
    ensures var (d, ev) := Push(c, op, o);
            && Recent(d, log + [op]) && |d.entries| == Room(c.cap, |c.entries| + 1)
            && (ev.Some? ==> ev.value.0 == log[|log| - |c.entries|])
  {}

  lemma {:induction false} DropEntry(es: seq<(OutputId, Output)>, log: seq<OutputId>, j: nat)
    requires j < |es| <= |log| && forall i :: 0 <= i < |es| ==> es[i].0 == log[|log| - 1 - i]
    ensures var (fs, rest) := (es[..j] + es[j + 1..], log[..|log| - 1 - j] + log[|log| - j..]);
            |fs| <= |rest| && forall i :: 0 <= i < |fs| ==> fs[i].0 == rest[|rest| - 1 - i]
  {}

  lemma {:induction false} LatestFound(c: Lru<OutputId, Output>, log: seq<OutputId>, i: nat)
    requires Recent(c, log) && |log| - |c.entries| <= i < |log|
    ensures Peek(c, log[i]).Some?
  {
    assert c.entries[|log| - 1 - i].0 == log[i];
    FindIff(c.entries, log[i]);
  }

  lemma {:induction false} DropOlder(c: Lru<OutputId, Output>, log: seq<OutputId>, op: OutputId)
    requires Recent(c, log) && DistinctBy(log, Self) && Peek(c, op) == None
    ensures Recent(c, Minus(log, {op}))
  {
    if op in log {
      var i :| 0 <= i < |log| && log[i] == op;
      MinusAt(log, i);
      if i >= |log| - |c.entries| { LatestFound(c, log, i); }
    } else {
      MinusNothing(log, {op});
    }
  }

  lemma {:induction false} DropNewer(c: Lru<OutputId, Output>, log: seq<OutputId>, j: nat)
    requires Recent(c, log) && DistinctKeys(c.entries) && DistinctBy(log, Self) && j < |c.entries|
    ensures Recent(c.(entries := Without(c.entries, c.entries[j].0)), Minus(log, {c.entries[j].0}))
  {
    hide DistinctBy, DistinctKeys, Without, Minus;
    WithoutAt(c.entries, j);
    MinusAt(log, |log| - 1 - j);
    DropEntry(c.entries, log, j);
  }

  /** Popping an outpoint drops it from the shard and from the log alike. */
  lemma {:induction false} PopRecent(c: Lru<OutputId, Output>, log: seq<OutputId>, op: OutputId)
    requires Recent(c, log) && ValidLru(c) && DistinctBy(log, Self)
    ensures Recent(Pop(c, op).0, Minus(log, {op}))
    ensures Peek(c, op) == None ==> Pop(c, op).0 == c
  {
    hide DistinctBy, Find, Without, Minus, DistinctKeys;
    var es := c.entries;
    FindIff(es, op);
    if Peek(c, op) == None {
      WithoutAbsent(es, op);
      DropOlder(c, log, op);
    } else {
      var j :| 0 <= j < |es| && es[j].0 == op;
      DropNewer(c, log, j);
    }
  }

  // ----- all shards -----

  lemma {:induction false} AddKeepsLogged(logs: Logs, live: OutputMap, op: OutputId, o: Output)
    requires Logged(logs, live) && op !in live
    ensures Logged(LogAdd(logs, op), live[op := o])
  {
    hide ShardIndex;
    var i := ShardIndex(op);
    forall x | x in logs[i] ensures x != op {}
    assert DistinctBy(logs[i] + [op], Self);
  }

  lemma {:induction false} DropKeepsLogged(logs: Logs, live: OutputMap, op: OutputId)
    requires Logged(logs, live)
    ensures Logged(LogDrop(logs, op), live - {op})
  {
    hide ShardIndex, DistinctBy;
    MinusMembers(logs[ShardIndex(op)], {op});
    MinusDistinct(logs[ShardIndex(op)], {op});
  }

  lemma {:induction false} PushAllRecent(shards: seq<Lru<OutputId, Output>>, cap: nat, r: OutputMap, logs: Logs, op: OutputId, o: Output)
    requires Tracks(shards, cap, r) && AllRecent(shards, logs) && op !in r
    ensures var i := ShardIndex(op);
            var (c, ev) := Push(shards[i], op, o);
            && AllRecent(shards[i := c], LogAdd(logs, op))
            && |c.entries| == Room(cap, |OnShard(r, i)| + 1)
            && |OnShard(r, i)| <= |logs[i]|
            && (ev.Some? ==> Some(ev.value.0) == EarliestHeld(logs[i], |OnShard(r, i)|))
  {
    hide ShardIndex, Find;
    var i := ShardIndex(op);
    ShardSize(shards, cap, r, i);
    assert Peek(shards[i], op) == None;
    PushRecent(shards[i], logs[i], op, o);
  }

  lemma {:induction false} PopAllRecent(shards: seq<Lru<OutputId, Output>>, cap: nat, r: OutputMap, logs: Logs, live: OutputMap, op: OutputId)
    requires Tracks(shards, cap, r) && AllRecent(shards, logs) && Logged(logs, live)
    ensures AllRecent(shards[ShardIndex(op) := Pop(shards[ShardIndex(op)], op).0], LogDrop(logs, op))
    ensures op !in r ==> AllRecent(shards, LogDrop(logs, op)) && Pop(shards[ShardIndex(op)], op).0 == shards[ShardIndex(op)]
  {
    hide ShardIndex, Find, DistinctBy, Minus, Recent, ValidLru;
    var i := ShardIndex(op);
    assert Peek(shards[i], op) == Lookup(r, op);
    PopRecent(shards[i], logs[i], op);
    if op !in r { assert shards[i := shards[i]] == shards; }
  }

  lemma {:induction false} EntriesLatest(c: Lru<OutputId, Output>, log: seq<OutputId>, op: OutputId)
    requires Recent(c, log)
    ensures Peek(c, op).Some? <==> op in Latest(log, |c.entries|)
  {
    var k := |c.entries|;
    FindIff(c.entries, op);
    if j :| 0 <= j < k && c.entries[j].0 == op { assert Latest(log, k)[k - 1 - j] == op; }
    if i :| 0 <= i < k && Latest(log, k)[i] == op { assert c.entries[k - 1 - i].0 == op; }
  }

  /** The outputs a shard keeps are those added to it last. */
  lemma {:induction false} LatestResident(shards: seq<Lru<OutputId, Output>>, cap: nat, r: OutputMap, logs: Logs)
    requires Tracks(shards, cap, r) && AllRecent(shards, logs)
    ensures ResidentLatest(r, logs)
  {
    hide ShardIndex, Find, Latest;
    forall n | 0 <= n < SHARD_COUNT ensures LatestOn(r, logs, n) {
      ShardSize(shards, cap, r, n);
      forall op ensures op in OnShard(r, n) <==> op in Latest(logs[n], |OnShard(r, n)|) {
        EntriesLatest(shards[n], logs[n], op);
        assert Peek(shards[n], op) == if n == ShardIndex(op) then Lookup(r, op) else None;
      }
      assert OnShard(r, n).Keys == Elems(Latest(logs[n], |OnShard(r, n)|));
    }
  }

  // ----- batches -----

  function IdsOf(cs: seq<(OutputId, Output)>): seq<OutputId> {
    seq(|cs|, i requires 0 <= i < |cs| => cs[i].0)
  }

  /** The logs without the outpoints `gone`. */
  ghost predicate LogsMinus(logs: Logs, gone: set<OutputId>, logs': Logs) {
    forall n :: 0 <= n < SHARD_COUNT ==> logs'[n] == Minus(logs[n], gone)
  }

  lemma {:induction false} NothingGone(logs: Logs)
    ensures LogsMinus(logs, {}, logs)
  {
    forall n | 0 <= n < SHARD_COUNT ensures logs[n] == Minus(logs[n], {}) { MinusNothing(logs[n], {}); }
  }

  lemma {:induction false} OneMoreGone(logs: Logs, live: OutputMap, gone: set<OutputId>, logs': Logs, op: OutputId)
    requires Logged(logs, live) && LogsMinus(logs, gone, logs')
    ensures LogsMinus(logs, gone + {op}, LogDrop(logs', op))
  {
    hide ShardIndex, DistinctBy;
    forall n | 0 <= n < SHARD_COUNT ensures LogDrop(logs', op)[n] == Minus(logs[n], gone + {op}) {
      if n == ShardIndex(op) {
        MinusTwice(logs[n], gone, {op});
      } else {
        MinusSame(logs[n], gone, gone + {op});
      }
    }
  }

  lemma {:induction false} DropAbsent(logs: Logs, live: OutputMap, op: OutputId)
    requires Logged(logs, live) && op !in live
    ensures LogDrop(logs, op) == logs
  {
    hide ShardIndex;
    MinusNothing(logs[ShardIndex(op)], {op});
  }

  lemma {:induction false} IdsSnoc(cs: seq<(OutputId, Output)>, k: nat)
    requires k < |cs|
    ensures IdsOf(cs[..k + 1]) == IdsOf(cs[..k]) + [cs[k].0]
  {}

  lemma {:induction false} AddOneMore(logs: Logs, n: nat, cs: seq<(OutputId, Output)>, k: nat, logs': Logs)
    requires n < SHARD_COUNT && k < |cs| && ShardIndex(cs[k].0) == n
    requires logs' == logs[n := logs[n] + IdsOf(cs[..k])]
    ensures LogAdd(logs', cs[k].0) == logs[n := logs[n] + IdsOf(cs[..k + 1])]
  {
    IdsSnoc(cs, k);
    assert logs[n] + IdsOf(cs[..k]) + [cs[k].0] == logs[n] + IdsOf(cs[..k + 1]);
  }

  /** The logs of a diff with the shards below `n` processed: resident spends gone, creates at the end. */
  ghost predicate DiffLogs(n: nat, logs: Logs, before: OutputMap, spends: set<OutputId>,
                           creates: seq<(OutputId, Output)>, logs': Logs)
  {
    forall m :: 0 <= m < SHARD_COUNT ==>
         logs'[m] == if m < n then Minus(logs[m], spends * before.Keys) + IdsOf(InShard(creates, Key, m)) else logs[m]
  }

  /** How many outputs shard `m` keeps of a diff. */
  ghost function KeptBy(m: nat, before: OutputMap, spends: set<OutputId>, creates: seq<(OutputId, Output)>, cap: nat): nat {
    Room(cap, |OnShard(before - spends, m)| + |InShard(creates, Key, m)|)
  }

  ghost predicate DiffSizes(n: nat, before: OutputMap, spends: set<OutputId>, creates: seq<(OutputId, Output)>,
                            cap: nat, r: OutputMap)
  {
    && (forall m :: 0 <= m < n ==> |OnShard(r, m)| == KeptBy(m, before, spends, creates, cap))
    && (forall op :: ShardIndex(op) >= n ==> Lookup(r, op) == Lookup(before, op))
  }

  lemma {:induction false} DiffStarts(logs: Logs, before: OutputMap, all: OutputMap, spends: set<OutputId>,
                                      creates: seq<(OutputId, Output)>, cap: nat)
    ensures DiffState(0, before, all, spends, ToMap(creates), [], [], [], before, all)
    ensures DiffLogs(0, logs, before, spends, creates, logs) && DiffSizes(0, before, spends, creates, cap, before)
  {}

  /** What processing shard `n` does to the logs and the sizes. */
  ghost predicate ShardDone(n: nat, spends: seq<OutputId>, creates: seq<(OutputId, Output)>, cap: nat,
                            logs: Logs, r: OutputMap, logs': Logs, r': OutputMap)
  {
    && n < SHARD_COUNT
    && (forall m :: 0 <= m < SHARD_COUNT ==>
          logs'[m] == Minus(logs[m], Elems(spends) * r.Keys) + if m == n then IdsOf(creates) else [])
    && |OnShard(r', n)| == Room(cap, |OnShard(r - Elems(spends), n)| + |creates|)
  }

  lemma {:induction false} DiffLogsStep(n: nat, logs0: Logs, live: OutputMap, before: OutputMap, spends: seq<OutputId>,
                                        creates: seq<(OutputId, Output)>, cap: nat,
                                        logs: Logs, r: OutputMap, logs': Logs, r': OutputMap)
    requires Logged(logs0, live) && DiffLogs(n, logs0, before, Elems(spends), creates, logs) && DistinctBy(spends, Self)
    requires ShardDone(n, InShard(spends, Self, n), InShard(creates, Key, n), cap, logs, r, logs', r')
    requires forall op :: ShardIndex(op) >= n ==> Lookup(r, op) == Lookup(before, op)
    ensures DiffLogs(n + 1, logs0, before, Elems(spends), creates, logs')
  {
    hide ShardIndex, InShard, DistinctBy;
    InShardElems(spends, n);
    var gone := IdsOnShard(Elems(spends), n) * r.Keys;
    forall m | 0 <= m < SHARD_COUNT
      ensures logs'[m] == if m < n + 1 then Minus(logs0[m], Elems(spends) * before.Keys) + IdsOf(InShard(creates, Key, m)) else logs0[m]
    {
      if m == n {
        forall x | x in logs0[n] ensures x in gone <==> x in Elems(spends) * before.Keys {
          assert Lookup(r, x) == Lookup(before, x);
        }
        MinusSame(logs0[n], gone, Elems(spends) * before.Keys);
      } else {
        DiffLogsPlaced(n, logs0, live, before, Elems(spends), creates, logs, m);
        MinusNothing(logs[m], gone);
      }
    }
  }

  lemma {:induction false} DiffLogsPlaced(n: nat, logs0: Logs, live: OutputMap, before: OutputMap, spends: set<OutputId>,
                                          creates: seq<(OutputId, Output)>, logs: Logs, m: nat)
    requires Logged(logs0, live) && DiffLogs(n, logs0, before, spends, creates, logs) && m < SHARD_COUNT
    ensures forall x :: x in logs[m] ==> ShardIndex(x) == m
  {
    hide ShardIndex, InShard;
    MinusMembers(logs0[m], spends * before.Keys);
    InShardSpec(creates, Key, m);
    forall x | x in IdsOf(InShard(creates, Key, m)) ensures ShardIndex(x) == m {
      var i :| 0 <= i < |InShard(creates, Key, m)| && InShard(creates, Key, m)[i].0 == x;
      assert InShard(creates, Key, m)[i] in InShard(creates, Key, m);
    }
  }

  lemma {:induction false} OnShardAgree(a: OutputMap, b: OutputMap, n: nat)
    requires forall op :: ShardIndex(op) == n ==> Lookup(a, op) == Lookup(b, op)
    ensures OnShard(a, n) == OnShard(b, n)
  {
    hide ShardIndex;
    forall op ensures Lookup(OnShard(a, n), op) == Lookup(OnShard(b, n), op) {
      assert ShardIndex(op) == n ==> Lookup(a, op) == Lookup(b, op);
    }
    EqualLookups(OnShard(a, n), OnShard(b, n));
  }

  lemma {:induction false} DiffSizesStep(n: nat, before: OutputMap, spends: seq<OutputId>, creates: seq<(OutputId, Output)>, cap: nat,
                                         logs: Logs, r: OutputMap, logs': Logs, r': OutputMap)
    requires DiffSizes(n, before, Elems(spends), creates, cap, r) && DistinctBy(spends, Self)
    requires ShardDone(n, InShard(spends, Self, n), InShard(creates, Key, n), cap, logs, r, logs', r')
    requires forall op :: ShardIndex(op) != n ==> Lookup(r', op) == Lookup(r, op)
    ensures DiffSizes(n + 1, before, Elems(spends), creates, cap, r')
  {
    hide ShardIndex, InShard, DistinctBy, OnShard;
    InShardElems(spends, n);
    forall op | ShardIndex(op) >= n + 1 ensures Lookup(r', op) == Lookup(before, op) {
      assert Lookup(r', op) == Lookup(r, op);
    }
    forall m | 0 <= m < n + 1 ensures |OnShard(r', m)| == KeptBy(m, before, Elems(spends), creates, cap) {
      if m < n {
        OnShardAgree(r', r, m);
      } else {
        forall op | ShardIndex(op) == n
          ensures Lookup(r - Elems(InShard(spends, Self, n)), op) == Lookup(before - Elems(spends), op)
        {
          assert Lookup(r, op) == Lookup(before, op);
        }
        OnShardAgree(r - Elems(InShard(spends, Self, n)), before - Elems(spends), n);
      }
    }
  }

  /** A shard that the diff does not touch. */
  lemma {:induction false} NothingDone(n: nat, cap: nat, logs: Logs, shards: seq<Lru<OutputId, Output>>, r: OutputMap)
    requires n < SHARD_COUNT && Tracks(shards, cap, r)
    ensures ShardDone(n, [], [], cap, logs, r, logs, r)
  {
    ShardSize(shards, cap, r, n);
    forall m | 0 <= m < SHARD_COUNT ensures logs[m] == Minus(logs[m], Elems([]) * r.Keys) { MinusNothing(logs[m], Elems([]) * r.Keys); }
    assert r - Elems([]) == r;
  }

  lemma {:induction false} OthersKept(n: nat, spends: set<OutputId>, creates: OutputMap, ops: seq<IndexOp>,
                                      evicted: seq<(OutputId, Output)>, r: OutputMap, r': OutputMap)
    requires CreateState(r - IdsOnShard(spends, n), OnShard(creates, n), ops, evicted, n, r')
    ensures forall op :: ShardIndex(op) != n ==> Lookup(r', op) == Lookup(r, op)
  {
    hide ShardIndex;
    forall op | ShardIndex(op) != n ensures Lookup(r', op) == Lookup(r, op) {
      assert op !in Ids(evicted);
      assert Lookup(r', op) == CreatedAt(r - IdsOnShard(spends, n), OnShard(creates, n), op);
    }
  }

  /** The log of each shard after a whole diff: without the spends, and the creates at its end. */
  ghost predicate LogsAfterDiff(logs: Logs, spends: seq<OutputId>, creates: seq<(OutputId, Output)>, logs': Logs) {
    forall m :: 0 <= m < SHARD_COUNT ==> logs'[m] == Minus(logs[m], Elems(spends)) + IdsOf(InShard(creates, Key, m))
  }

  /** A spend in a log is resident, or missed and found in the store. */
  lemma {:induction false} SpendsSplit(logs: Logs, all: OutputMap, before: OutputMap, store: OutputMap, spends: seq<OutputId>,
                                       missed: seq<OutputId>, m: nat)
    requires Logged(logs, all) && m < SHARD_COUNT && forall op :: op !in before ==> Lookup(store, op) == Lookup(all, op)
    requires forall op :: op in missed <==> op in Elems(spends) && op !in before
    ensures forall x :: x in logs[m] ==>
              (x in Elems(spends) * before.Keys + Elems(missed) * store.Keys <==> x in Elems(spends))
  {
    hide DistinctBy;
    forall x | x in logs[m] ensures x in Elems(spends) * before.Keys + Elems(missed) * store.Keys <==> x in Elems(spends) {
      assert x in all;
      assert x in before || Lookup(store, x) == Lookup(all, x);
    }
  }

  lemma {:induction false} LogsSettle(logs: Logs, all: OutputMap, before: OutputMap, store: OutputMap, spends: seq<OutputId>,
                                      creates: seq<(OutputId, Output)>, missed: seq<OutputId>, half: Logs, logs': Logs)
    requires Logged(logs, all) && forall op :: op !in before ==> Lookup(store, op) == Lookup(all, op)
    requires NewCreates(creates, all)
    requires forall op :: op in missed <==> op in Elems(spends) && op !in before
    requires DiffLogs(SHARD_COUNT, logs, before, Elems(spends), creates, half)
    requires LogsMinus(half, Elems(missed) * store.Keys, logs')
    ensures LogsAfterDiff(logs, spends, creates, logs')
  {
    hide ShardIndex, InShard, DistinctBy, Logged, Minus, IdsOf;
    var hit, late := Elems(spends) * before.Keys, Elems(missed) * store.Keys;
    forall m | 0 <= m < SHARD_COUNT ensures logs'[m] == Minus(logs[m], Elems(spends)) + IdsOf(InShard(creates, Key, m)) {
      InShardSpec(creates, Key, m);
      SpendsSplit(logs, all, before, store, spends, missed, m);
      forall c | c in InShard(creates, Key, m) ensures c.0 !in late { assert c in creates; }
      LogSettles(logs[m], hit, late, InShard(creates, Key, m), Elems(spends));
    }
  }

  lemma {:induction false} LogSettles(log: seq<OutputId>, hit: set<OutputId>, late: set<OutputId>,
                                      made: seq<(OutputId, Output)>, spends: set<OutputId>)
    requires forall c :: c in made ==> c.0 !in late
    requires forall x :: x in log ==> (x in hit + late <==> x in spends)
    ensures Minus(Minus(log, hit) + IdsOf(made), late) == Minus(log, spends) + IdsOf(made)
  {
    hide Minus;
    MinusConcat(Minus(log, hit), IdsOf(made), late);
    MinusTwice(log, hit, late);
    forall x | x in IdsOf(made) ensures x !in late {
      var i :| 0 <= i < |made| && made[i].0 == x;
      assert made[i] in made;
    }
    MinusNothing(IdsOf(made), late);
    MinusSame(log, hit + late, spends);
  }
}
