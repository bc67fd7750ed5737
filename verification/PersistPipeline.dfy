/** The background persist task: producers queue jobs, one consumer drains them in batches,
    retries a failing append and shuts down when its retries are used up. Producers, consumer steps,
    failures and crashes interleave freely. */
module PersistPipeline {
  import opened Common
  import opened PersistStore

  const MAX_BATCH_SIZE: nat := 256

  datatype Phase = Idle | Draining | Trying(attempt: nat) | Finishing | Stopped

  /** `accepted` is everything the channel ever took, `taken` how much of it the consumer received,
      `split` whether a retry ever wrote only a part of a batch that was stored already. */
  datatype State = State(accepted: seq<PersistJob>, taken: nat, batch: seq<PersistJob>, phase: Phase, store: Durable, split: bool)

  datatype Event =
    | Send(job: PersistJob)
    | Receive
    | TryReceive
    | Drained
    | Attempt(write: Outcome, hits: set<BlockId>)
    | Finality(lands: bool)
    | Halt

  datatype Limits = Limits(buffer: nat, retries: nat)

  const EMPTY: Durable := Durable(map[], map[], {}, {}, [])

  ghost predicate Initial(s: State) { s == State([], 0, [], Idle, EMPTY, false) }

  /** The write repeats some blocks of a stored batch and leaves others out. */
  ghost predicate Splits(d: Durable, hits: set<BlockId>, batch: seq<PersistJob>, write: Outcome) {
    !write.Lost? && New(d, batch) == [] && Written(d, hits, batch) != [] && Written(d, hits, batch) != batch
  }

  ghost function FinalsOf(jobs: seq<PersistJob>): set<BlockId> {
    set i, x | 0 <= i < |jobs| && x in jobs[i].newlyFinalized :: x
  }

  /** One step. A closed channel takes nothing; a crash or the end of the channel is `Halt`. */
  ghost predicate Step(l: Limits, s: State, e: Event, s': State) {
    match e
    case Send(job) =>
      !s.phase.Stopped? && |s.accepted| < s.taken + l.buffer && s' == s.(accepted := s.accepted + [job])
    case Receive =>
      s.phase.Idle? && s.taken < |s.accepted|
      && s' == s.(taken := s.taken + 1, batch := [s.accepted[s.taken]], phase := Draining)
    case TryReceive =>
      s.phase.Draining? && |s.batch| < MAX_BATCH_SIZE && s.taken < |s.accepted|
      && s' == s.(taken := s.taken + 1, batch := s.batch + [s.accepted[s.taken]])
    case Drained =>
      s.phase.Draining? && (|s.batch| >= MAX_BATCH_SIZE || s.taken >= |s.accepted|) && s' == s.(phase := Trying(0))
    case Attempt(write, hits) =>
      s.phase.Trying? && Appended(s.store, s.batch, hits, write, s'.store)
      && s' == s.(store := s'.store, phase := AfterAttempt(l, s.phase.attempt, write),
                  split := s.split || Splits(s.store, hits, s.batch, write))
    case Finality(lands) =>
      s.phase.Finishing?
      && s' == s.(store := s.store.(finals := s.store.finals + if lands then FinalsOf(s.batch) else {}),
                  batch := [], phase := Idle)
    case Halt => s' == s.(phase := Stopped)
  }

  function AfterAttempt(l: Limits, attempt: nat, write: Outcome): Phase {
    if write.Acknowledged? then Finishing
    else if attempt < l.retries then Trying(attempt + 1)
    else Stopped
  }

  function JobId(job: PersistJob): BlockId { job.block.id }

  /** Counts for one parent never decrease in channel order, and belong to parents. */
  ghost predicate CountsOrdered(jobs: seq<PersistJob>) {
    && (forall i :: 0 <= i < |jobs| ==> CountsOwnParents(jobs[i]))
    && forall i, j, p :: 0 <= i < j < |jobs| && UpdatesMax(jobs[i].countUpdates, p).Some?
                         && UpdatesMax(jobs[j].countUpdates, p).Some? ==>
                           UpdatesMax(jobs[i].countUpdates, p).value <= UpdatesMax(jobs[j].countUpdates, p).value
  }

  /** The batch is the last stretch of the received jobs. */
  ghost predicate Shape(s: State) {
    && s.taken <= |s.accepted| && |s.batch| <= s.taken && |s.batch| <= MAX_BATCH_SIZE
    && s.batch == s.accepted[s.taken - |s.batch|..s.taken]
    && (s.phase.Idle? ==> s.batch == [])
    && (s.phase.Draining? || s.phase.Trying? || s.phase.Finishing? ==> s.batch != [])
  }

  /** How many jobs may be durable in each phase. */
  ghost predicate DurableUpTo(s: State, n: nat) {
    match s.phase
    case Idle => n == s.taken
    case Draining => n == s.taken - |s.batch|
    case Trying(a) => n == s.taken - |s.batch| || (a > 0 && n == s.taken)
    case Finishing => n == s.taken
    case Stopped => n == s.taken - |s.batch| || n == s.taken
  }

  ghost predicate Safe(s: State) {
    && |s.store.order| <= |s.accepted| && s.store.order == s.accepted[..|s.store.order|]
    && DurableUpTo(s, |s.store.order|)
    && s.store.blocks.Keys == Ids(s.store.order) && Holds(s.store.blocks, s.store.order)
    && s.store.finals <= FinalsOf(s.store.order)
    && (CountsOrdered(s.accepted) && !s.split ==> CountsExact(s.store))
  }

  lemma {:induction false} FreshAll(seen: set<BlockId>, batch: seq<PersistJob>)
    requires forall i :: 0 <= i < |batch| ==> batch[i].block.id !in seen
    ensures Fresh(seen, batch) == batch
  {
    if batch != [] {
      var n := |batch| - 1;
      assert batch == batch[..n] + [batch[n]];
      assert forall i :: 0 <= i < n ==> batch[..n][i] == batch[i];
      FreshAll(seen, batch[..n]);
    }
  }

  lemma {:induction false} FreshNone(seen: set<BlockId>, batch: seq<PersistJob>)
    requires forall i :: 0 <= i < |batch| ==> batch[i].block.id in seen
    ensures Fresh(seen, batch) == []
  {
    if batch != [] { FreshNone(seen, batch[..|batch| - 1]); }
  }

  lemma {:induction false} FreshFrom(seen: set<BlockId>, batch: seq<PersistJob>)
    ensures forall i :: 0 <= i < |Fresh(seen, batch)| ==> Fresh(seen, batch)[i] in batch
  {
    if batch != [] { FreshFrom(seen, batch[..|batch| - 1]); }
  }

  lemma {:induction false} BlocksOfKeys(blocks: map<BlockId, StoredBlock>, jobs: seq<PersistJob>)
    ensures BlocksOf(blocks, jobs).Keys == blocks.Keys + Ids(jobs)
  {
    if jobs != [] {
      var n := |jobs| - 1;
      BlocksOfKeys(blocks, jobs[..n]);
      forall x ensures x in Ids(jobs) <==> x in Ids(jobs[..n]) || x == jobs[n].block.id {
        if x in Ids(jobs) {
          var i :| 0 <= i < |jobs| && jobs[i].block.id == x;
          if i < n { assert jobs[..n][i] == jobs[i]; }
        }
        if x in Ids(jobs[..n]) {
          var i :| 0 <= i < n && jobs[..n][i].block.id == x;
          assert jobs[i].block.id == x;
        }
      }
    }
  }

  /** An attempt finds its batch wholly new or, after a write that landed without an acknowledgement,
      wholly stored. What it writes is the batch, or some part of it that changes no block. */
  lemma {:induction false} AppendFindsAllOrNone(s: State, hits: set<BlockId>)
    requires Shape(s) && Safe(s) && s.phase.Trying? && DistinctBy(s.accepted, JobId)
    ensures |s.store.order| == s.taken - |s.batch| ==> New(s.store, s.batch) == Written(s.store, hits, s.batch) == s.batch
    ensures |s.store.order| != s.taken - |s.batch| ==> |s.store.order| == s.taken && New(s.store, s.batch) == []
    ensures |s.store.order| != s.taken - |s.batch| ==> Holds(s.store.blocks, Written(s.store, hits, s.batch))
  {
    var n := s.taken - |s.batch|;
    var order := s.store.order;
    forall i | 0 <= i < |s.batch|
      ensures s.batch[i].block.id in s.store.blocks <==> |order| == s.taken
      ensures |order| == s.taken ==> Lookup(s.store.blocks, s.batch[i].block.id) == Some(s.batch[i].block)
    {
      assert s.batch[i] == s.accepted[n + i];
      if |order| == s.taken {
        assert order[n + i] == s.batch[i];
      } else {
        forall j | 0 <= j < |order| ensures order[j].block.id != s.batch[i].block.id {
          assert order[j] == s.accepted[j];
          assert JobId(s.accepted[j]) != JobId(s.accepted[n + i]);
        }
      }
    }
    if |order| == n {
      FreshAll(s.store.blocks.Keys, s.batch);
      FreshAll(Recognised(s.store, hits), s.batch);
    } else {
      FreshNone(s.store.blocks.Keys, s.batch);
      FreshFrom(Recognised(s.store, hits), s.batch);
    }
  }

  lemma {:induction false} JobsMaxFrom(jobs: seq<PersistJob>, p: BlockId) returns (i: nat)
    requires JobsMax(jobs, p).Some?
    ensures i < |jobs| && UpdatesMax(jobs[i].countUpdates, p) == JobsMax(jobs, p)
  {
    var n := |jobs| - 1;
    if UpdatesMax(jobs[n].countUpdates, p) == JobsMax(jobs, p) {
      i := n;
    } else {
      i := JobsMaxFrom(jobs[..n], p);
    }
  }

  /** In channel order a later stretch never carries a smaller count than the durable ones. */
  lemma {:induction false} LaterCountsLarger(all: seq<PersistJob>, n: nat, m: nat, p: BlockId)
    requires CountsOrdered(all) && n <= m <= |all|
    requires JobsMax(all[..n], p).Some? && JobsMax(all[n..m], p).Some?
    ensures JobsMax(all[..n], p).value <= JobsMax(all[n..m], p).value
  {
    var i := JobsMaxFrom(all[..n], p);
    var j := JobsMaxFrom(all[n..m], p);
    assert all[..n][i] == all[i] && all[n..m][j] == all[n + j];
  }

  lemma {:induction false} NextCountsLarger(all: seq<PersistJob>, n: nat, jobs: seq<PersistJob>, counts: map<BlockId, nat>)
    requires CountsOrdered(all) && n + |jobs| <= |all| && jobs == all[n..n + |jobs|]
    requires forall p :: Lookup(counts, p) == JobsMax(all[..n], p)
    ensures forall i :: 0 <= i < |jobs| ==> CountsOwnParents(jobs[i])
    ensures forall p :: p in counts && JobsMax(jobs, p).Some? ==> counts[p] <= JobsMax(jobs, p).value
  {
    hide CountsOwnParents, JobsMax;
    forall i | 0 <= i < |jobs| ensures CountsOwnParents(jobs[i]) { assert jobs[i] == all[n + i]; }
    forall p | p in counts && JobsMax(jobs, p).Some? ensures counts[p] <= JobsMax(jobs, p).value {
      assert Lookup(counts, p) == JobsMax(all[..n], p);
      LaterCountsLarger(all, n, n + |jobs|, p);
    }
  }

  lemma {:induction false} FirstWriteKeepsCounts(s: State, hits: set<BlockId>, write: Outcome, store': Durable)
    requires Shape(s) && Safe(s) && s.phase.Trying? && DistinctBy(s.accepted, JobId) && CountsOrdered(s.accepted) && !s.split
    requires Appended(s.store, s.batch, hits, write, store') && !write.Lost? && |s.store.order| == s.taken - |s.batch|
    ensures CountsExact(store')
  {
    hide DistinctBy, Ids, FinalsOf, CountsAfter, BlocksOf, CountsOrdered, CountsOwnParents, JobsMax, Fresh, Holds;
    AppendFindsAllOrNone(s, hits);
    NextCountsLarger(s.accepted, |s.store.order|, s.batch, s.store.counts);
    AppendCountsExactIff(s.store, s.batch, hits, write, store');
  }

  /** The stored counts of the parents of a batch that is stored last are the batch's own. */
  lemma {:induction false} LastBatchCounts(all: seq<PersistJob>, n: nat, batch: seq<PersistJob>, counts: map<BlockId, nat>)
    requires CountsOrdered(all) && n + |batch| <= |all| && batch == all[n..n + |batch|]
    requires forall p :: Lookup(counts, p) == JobsMax(all[..n + |batch|], p)
    ensures forall p :: JobsMax(batch, p).Some? ==> Lookup(counts, p) == JobsMax(batch, p)
  {
    hide CountsOwnParents, JobsMax;
    forall p | JobsMax(batch, p).Some? ensures Lookup(counts, p) == JobsMax(batch, p) {
      assert all[..n] + batch == all[..n + |batch|];
      JobsMaxConcat(all[..n], batch, p);
      if JobsMax(all[..n], p).Some? { LaterCountsLarger(all, n, n + |batch|, p); }
    }
  }

  lemma {:induction false} PartOwnsParents(all: seq<PersistJob>, n: nat, batch: seq<PersistJob>, jobs: seq<PersistJob>)
    requires CountsOrdered(all) && n + |batch| <= |all| && batch == all[n..n + |batch|]
    requires forall i :: 0 <= i < |jobs| ==> jobs[i] in batch
    ensures forall i :: 0 <= i < |jobs| ==> CountsOwnParents(jobs[i])
  {
    forall i | 0 <= i < |jobs| ensures CountsOwnParents(jobs[i]) {
      var k :| 0 <= k < |batch| && batch[k] == jobs[i];
      assert batch[k] == all[n + k];
    }
  }

  lemma {:induction false} PartMax(batch: seq<PersistJob>, seen: set<BlockId>, p: BlockId)
    ensures JobsMax(Fresh(seen, batch), p).Some? ==> JobsMax(batch, p).Some?
  {
    if batch != [] {
      var n := |batch| - 1;
      PartMax(batch[..n], seen, p);
      var front := Fresh(seen, batch[..n]);
      assert (front + [batch[n]])[..|front|] == front && front + [] == front;
    }
  }

  /** Repeating a write that landed leaves blocks and order as they are, and the counts if and only
      if the jobs written again carry the batch's count of every parent they touch. */
  lemma {:induction false} RetryUnchangedIff(s: State, hits: set<BlockId>, write: Outcome, store': Durable)
    requires Shape(s) && Safe(s) && s.phase.Trying? && DistinctBy(s.accepted, JobId) && CountsOrdered(s.accepted) && !s.split
    requires Appended(s.store, s.batch, hits, write, store') && !write.Lost? && |s.store.order| != s.taken - |s.batch|
    ensures store'.blocks == s.store.blocks && store'.order == s.store.order
    ensures CountsExact(store') <==> forall p :: JobsMax(Written(s.store, hits, s.batch), p).Some? ==>
                                        JobsMax(Written(s.store, hits, s.batch), p) == JobsMax(s.batch, p)
  {
    hide DistinctBy, Ids, FinalsOf, CountsAfter, BlocksOf, CountsOrdered, CountsOwnParents, JobsMax, Fresh, Holds;
    AppendFindsAllOrNone(s, hits);
    var jobs := Written(s.store, hits, s.batch);
    RewriteKeepsBlocks(s.store.blocks, jobs);
    FreshFrom(Recognised(s.store, hits), s.batch);
    PartOwnsParents(s.accepted, s.taken - |s.batch|, s.batch, jobs);
    RewriteCountsExactIff(s.store, s.batch, hits, write, store');
    LastBatchCounts(s.accepted, s.taken - |s.batch|, s.batch, s.store.counts);
    forall p | JobsMax(jobs, p).Some? ensures JobsMax(s.batch, p).Some? { PartMax(s.batch, Recognised(s.store, hits), p); }
  }

  lemma {:induction false} AttemptKeepsCounts(s: State, hits: set<BlockId>, write: Outcome, store': Durable)
    requires Shape(s) && Safe(s) && s.phase.Trying? && DistinctBy(s.accepted, JobId) && CountsOrdered(s.accepted) && !s.split
    requires Appended(s.store, s.batch, hits, write, store') && !Splits(s.store, hits, s.batch, write)
    ensures CountsExact(store')
  {
    hide DistinctBy, Ids, FinalsOf, CountsAfter, BlocksOf, CountsOrdered, Fresh, Holds, Appended;
    if write.Lost? {
      AppendLost(s.store, s.batch, hits, write, store');
    } else {
      AppendFindsAllOrNone(s, hits);
      if |s.store.order| == s.taken - |s.batch| {
        FirstWriteKeepsCounts(s, hits, write, store');
      } else {
        RetryUnchangedIff(s, hits, write, store');
        assert JobsMax([], "") == None;
      }
    }
  }

  lemma {:induction false} AppendLost(d: Durable, batch: seq<PersistJob>, hits: set<BlockId>, write: Outcome, d': Durable)
    requires Appended(d, batch, hits, write, d') && write.Lost?
    ensures d' == d
  {}

  /** Storing further distinct jobs keeps what was stored and stores them. */
  lemma {:induction false} HoldsMore(blocks: map<BlockId, StoredBlock>, a: seq<PersistJob>, b: seq<PersistJob>)
    requires Holds(blocks, a) && DistinctBy(a + b, JobId)
    ensures Holds(BlocksOf(blocks, b), a + b)
  {
    if b == [] {
      assert a + b == a;
    } else {
      var n := |b| - 1;
      var c := a + b[..n];
      assert a + b == c + [b[n]];
      assert DistinctBy(c, JobId) by {
        forall i, j | 0 <= i < j < |c| ensures JobId(c[i]) != JobId(c[j]) {
          assert (a + b)[i] == c[i] && (a + b)[j] == c[j];
        }
      }
      HoldsMore(blocks, a, b[..n]);
      forall i | 0 <= i < |c| ensures c[i].block.id != b[n].block.id {
        assert (a + b)[i] == c[i] && (a + b)[|c|] == b[n];
        assert JobId((a + b)[i]) != JobId((a + b)[|c|]);
      }
    }
  }

  lemma {:induction false} AttemptKeepsSafe(l: Limits, s: State, write: Outcome, hits: set<BlockId>, s': State)
    requires Shape(s) && Safe(s) && DistinctBy(s.accepted, JobId) && Step(l, s, Attempt(write, hits), s')
    ensures Safe(s')
  {
    hide Fresh, BlocksOf, CountsAfter, CountsExact, CountsOrdered, Ids, FinalsOf, Holds, Splits;
    if CountsOrdered(s.accepted) && !s'.split { AttemptKeepsCounts(s, hits, write, s'.store); }
    if !write.Lost? {
      AppendFindsAllOrNone(s, hits);
      var n := s.taken - |s.batch|;
      if |s.store.order| == n {
        assert s.accepted[..n] + s.batch == s.accepted[..s.taken];
        BlocksOfKeys(s.store.blocks, s.batch);
        IdsConcat(s.store.order, s.batch);
        FinalsGrow(s.store.order, s.batch);
        HoldsMore(s.store.blocks, s.store.order, s.batch);
      } else {
        assert s.store.order + [] == s.store.order;
        RewriteKeepsBlocks(s.store.blocks, Written(s.store, hits, s.batch));
      }
    }
  }

  lemma {:induction false} IdsConcat(a: seq<PersistJob>, b: seq<PersistJob>)
    ensures Ids(a + b) == Ids(a) + Ids(b)
  {
    forall x | x in Ids(a) + Ids(b) ensures x in Ids(a + b) {
      if x in Ids(a) {
        var i :| 0 <= i < |a| && a[i].block.id == x;
        assert (a + b)[i].block.id == x;
      } else {
        var i :| 0 <= i < |b| && b[i].block.id == x;
        assert (a + b)[|a| + i].block.id == x;
      }
    }
  }

  lemma {:induction false} FinalsGrow(a: seq<PersistJob>, b: seq<PersistJob>)
    ensures FinalsOf(a) <= FinalsOf(a + b) && FinalsOf(b) <= FinalsOf(a + b)
  {
    forall x | x in FinalsOf(a) ensures x in FinalsOf(a + b) {
      var i :| 0 <= i < |a| && x in a[i].newlyFinalized;
      assert (a + b)[i] == a[i];
    }
    forall x | x in FinalsOf(b) ensures x in FinalsOf(a + b) {
      var i :| 0 <= i < |b| && x in b[i].newlyFinalized;
      assert (a + b)[|a| + i] == b[i];
    }
  }

  lemma {:induction false} ReceiveKeepsShape(l: Limits, s: State, e: Event, s': State)
    requires Shape(s) && Step(l, s, e, s') && (e.Receive? || e.TryReceive?)
    ensures Shape(s') && s.accepted == s'.accepted
  {}

  lemma {:induction false} StepKeepsShape(l: Limits, s: State, e: Event, s': State)
    requires Shape(s) && Step(l, s, e, s')
    ensures Shape(s') && s.accepted <= s'.accepted
  {
    hide Appended;
    match e
    case Send(job) => assert s'.accepted[s.taken - |s.batch|..s.taken] == s.batch;
    case Receive => ReceiveKeepsShape(l, s, e, s');
    case TryReceive => ReceiveKeepsShape(l, s, e, s');
    case _ =>
  }

  lemma {:induction false} OrderedPrefix(jobs: seq<PersistJob>, job: PersistJob)
    ensures CountsOrdered(jobs + [job]) ==> CountsOrdered(jobs)
  {
    if CountsOrdered(jobs + [job]) {
      var more := jobs + [job];
      forall i | 0 <= i < |jobs| ensures CountsOwnParents(jobs[i]) { assert more[i] == jobs[i]; }
      forall i, j, p | 0 <= i < j < |jobs| && UpdatesMax(jobs[i].countUpdates, p).Some? && UpdatesMax(jobs[j].countUpdates, p).Some?
        ensures UpdatesMax(jobs[i].countUpdates, p).value <= UpdatesMax(jobs[j].countUpdates, p).value
      {
        assert more[i] == jobs[i] && more[j] == jobs[j];
      }
    }
  }

  lemma {:induction false} FinalityKeepsSafe(l: Limits, s: State, lands: bool, s': State)
    requires Shape(s) && Safe(s) && Step(l, s, Finality(lands), s')
    ensures Safe(s')
  {}

  /** Every step of producers, consumer or failure keeps the pipeline safe. */
  lemma {:induction false} StepKeepsSafe(l: Limits, s: State, e: Event, s': State)
    requires Shape(s) && Safe(s) && DistinctBy(s.accepted, JobId) && Step(l, s, e, s')
    ensures Shape(s') && Safe(s')
  {
    StepKeepsShape(l, s, e, s');
    match e
    case Send(job) =>
      OrderedPrefix(s.accepted, job);
      assert s'.accepted[..|s.store.order|] == s.accepted[..|s.store.order|];
    case Attempt(write, hits) => AttemptKeepsSafe(l, s, write, hits, s');
    case Finality(lands) => FinalityKeepsSafe(l, s, lands, s');
    case _ =>
  }

  /** A run: states, and the event between each state and the next. */
  ghost predicate Run(l: Limits, states: seq<State>, events: seq<Event>) {
    && |states| == |events| + 1 && Initial(states[0])
    && forall i :: 0 <= i < |events| ==> Step(l, states[i], events[i], states[i + 1])
  }

  lemma {:induction false} RunShape(l: Limits, states: seq<State>, events: seq<Event>, n: nat)
    requires Run(l, states, events) && n <= |events|
    ensures Shape(states[n])
  {
    if n > 0 {
      RunShape(l, states, events, n - 1);
      StepKeepsShape(l, states[n - 1], events[n - 1], states[n]);
    }
  }

  /** With distinct block ids, every state of every run is safe. */
  lemma {:induction false} RunStaysSafe(l: Limits, states: seq<State>, events: seq<Event>, n: nat)
    requires Run(l, states, events) && n <= |events| && DistinctBy(states[n].accepted, JobId)
    ensures Shape(states[n]) && Safe(states[n])
  {
    if n > 0 {
      RunShape(l, states, events, n - 1);
      StepKeepsShape(l, states[n - 1], events[n - 1], states[n]);
      DistinctPrefix(states[n - 1].accepted, states[n].accepted, JobId);
      RunStaysSafe(l, states, events, n - 1);
      StepKeepsSafe(l, states[n - 1], events[n - 1], states[n]);
    } else {
      assert states[0].accepted[..0] == [];
      assert Ids([]) == {};
      assert FinalsOf([]) == {};
    }
  }

  /** What a caller of the store sees: an unrepeated prefix of the accepted jobs, final ids only
      from it, children counts that are its maxima. */
  lemma {:induction false} SafeMeans(s: State)
    requires Shape(s) && Safe(s) && DistinctBy(s.accepted, JobId)
    ensures s.store.order <= s.accepted && DistinctBy(s.store.order, JobId)
    ensures forall id :: id in s.store.blocks <==> exists i :: 0 <= i < |s.store.order| && s.accepted[i].block.id == id
    ensures forall x :: x in s.store.finals ==> exists i :: 0 <= i < |s.store.order| && x in s.accepted[i].newlyFinalized
    ensures CountsOrdered(s.accepted) && !s.split ==> forall p :: Lookup(s.store.counts, p) == JobsMax(s.store.order, p)
    ensures s.taken - |s.batch| <= |s.store.order| <= s.taken
    ensures s.phase.Idle? || s.phase.Finishing? ==> |s.store.order| == s.taken
  {}

  /** Once the consumer has stopped nothing is accepted or written any more. */
  lemma {:induction false} StoppedForever(l: Limits, states: seq<State>, events: seq<Event>, i: nat, j: nat)
    requires Run(l, states, events) && i <= j <= |events| && states[i].phase.Stopped?
    ensures states[j] == states[i]
    decreases j - i
  {
    if i < j {
      assert Step(l, states[i], events[i], states[i + 1]);
      StoppedForever(l, states, events, i + 1, j);
    }
  }

  lemma {:induction false} TriesSomething(s: State)
    requires Shape(s) && s.phase.Trying?
    ensures s.batch != []
  {}

  lemma {:induction false} StopsWhenExhausted(l: Limits, attempt: nat, write: Outcome)
    requires attempt <= l.retries
    ensures AfterAttempt(l, attempt, write).Stopped? <==> !write.Acknowledged? && attempt == l.retries
  {}

  lemma {:induction false} AttemptSteps(l: Limits, s: State, write: Outcome, hits: set<BlockId>, store': Durable)
    requires s.phase.Trying? && Appended(s.store, s.batch, hits, write, store')
    ensures Step(l, s, Attempt(write, hits),
                 s.(store := store', phase := AfterAttempt(l, s.phase.attempt, write),
                    split := s.split || Splits(s.store, hits, s.batch, write)))
  {}

  lemma {:induction false} FinalitySteps(l: Limits, s: State, lands: bool)
    requires s.phase.Finishing?
    ensures Step(l, s, Finality(lands),
                 s.(store := s.store.(finals := s.store.finals + if lands then FinalsOf(s.batch) else {}), batch := [], phase := Idle))
  {}

  /** The task itself. Each atomic action is one `Step` of the machine above. */
  class PersistTask {
    const bufferSize: nat
    const retryDelaysMs: seq<nat>
    const store: RocksStore
    var channel: seq<PersistJob>
    var open: bool
    var batch: seq<PersistJob>
    ghost var accepted: seq<PersistJob>
    ghost var phase: Phase
    ghost var split: bool

    ghost function Bounds(): Limits { Limits(bufferSize, |retryDelaysMs|) }

    ghost function Value(): State
      reads this, store
      requires |channel| <= |accepted|
    {
      State(accepted, |accepted| - |channel|, batch, phase, store.Value(), split)
    }

    ghost predicate Valid()
      reads this, store
    {
      && |channel| <= |accepted| && channel == accepted[|accepted| - |channel|..] && (open <==> !phase.Stopped?)
      && Shape(Value()) && (DistinctBy(accepted, JobId) ==> Safe(Value()))
    }

    constructor (bufferSize: nat, retryDelaysMs: seq<nat>)
      ensures Valid() && Initial(Value()) && open && fresh(store)
      ensures this.bufferSize == bufferSize && this.retryDelaysMs == retryDelaysMs
    {
      this.bufferSize, this.retryDelaysMs := bufferSize, retryDelaysMs;
      channel, open, batch, accepted, phase, split := [], true, [], [], Idle, false;
      store := new RocksStore();
      new;
      assert accepted[..0] == [];
      assert Ids([]) == {} && FinalsOf([]) == {};
    }

    /** A full channel makes the producer wait, a closed one turns it away. */
    method Send(job: PersistJob) returns (ok: bool)
      requires Valid()
      modifies this`channel, this`accepted
      ensures Valid() && ok == (open && |old(channel)| < bufferSize)
      ensures if ok then Step(Bounds(), old(Value()), Event.Send(job), Value()) else Value() == old(Value())
    {
      if !open || |channel| >= bufferSize { return false; }
      ghost var s := Value();
      channel, accepted := channel + [job], accepted + [job];
      Stepped(s, Event.Send(job));
      return true;
    }

    /** Validity after a step of the machine. */
    ghost method Stepped(s: State, e: Event)
      requires |channel| <= |accepted| && channel == accepted[|accepted| - |channel|..] && (open <==> !phase.Stopped?)
      requires Shape(s) && (DistinctBy(s.accepted, JobId) ==> Safe(s)) && Step(Bounds(), s, e, Value())
      ensures Valid()
    {
      hide Step, Safe, Shape, DistinctBy;
      StepKeepsShape(Bounds(), s, e, Value());
      if DistinctBy(accepted, JobId) {
        DistinctPrefix(s.accepted, accepted, JobId);
        StepKeepsSafe(Bounds(), s, e, Value());
      }
    }

    method Receive()
      requires Valid() && phase.Idle? && channel != []
      modifies this`channel, this`batch, this`phase
      ensures Valid() && open == old(open) && Step(Bounds(), old(Value()), Event.Receive, Value())
    {
      ghost var s := Value();
      batch, channel, phase := [channel[0]], channel[1..], Draining;
      Stepped(s, Event.Receive);
    }

    method TryReceive() returns (got: bool)
      requires Valid() && phase.Draining? && |batch| < MAX_BATCH_SIZE
      modifies this`channel, this`batch
      ensures Valid() && got == (old(channel) != [])
      ensures if got then Step(Bounds(), old(Value()), Event.TryReceive, Value()) else Value() == old(Value())
    {
      if channel == [] { return false; }
      ghost var s := Value();
      batch, channel := batch + [channel[0]], channel[1..];
      Stepped(s, Event.TryReceive);
      return true;
    }

    /** One append of the batch; after the last allowed failure the consumer gives up and closes the channel. */
    method Attempt(attempt: nat, write: Outcome, hits: set<BlockId>) returns (ok: bool)
      requires Valid() && phase == Trying(attempt) && attempt <= |retryDelaysMs|
      modifies this`phase, this`open, this`split, store
      ensures Valid() && ok == write.Acknowledged?
      ensures Step(Bounds(), old(Value()), Event.Attempt(write, hits), Value())
    {
      hide Shape, Safe, DistinctBy, Appended, Splits, Step, AfterAttempt;
      ghost var s := Value();
      TriesSomething(s);
      ok := store.AppendBlocksBatch(batch, hits, write);
      if !ok && attempt == |retryDelaysMs| { open := false; }
      phase := AfterAttempt(Bounds(), attempt, write);
      StopsWhenExhausted(Bounds(), attempt, write);
      split := split || Splits(s.store, hits, batch, write);
      AttemptSteps(Bounds(), s, write, hits, store.Value());
      assert Value() == s.(store := store.Value(), phase := AfterAttempt(Bounds(), attempt, write),
                           split := s.split || Splits(s.store, hits, s.batch, write));
      Stepped(s, Event.Attempt(write, hits));
    }

    static method CollectFinalized(jobs: seq<PersistJob>) returns (ids: seq<BlockId>)
      ensures (set x | x in ids) == FinalsOf(jobs)
    {
      ids := [];
      for i := 0 to |jobs|
        invariant (set x | x in ids) == FinalsOf(jobs[..i])
      {
        FinalsSnoc(jobs, i, ids);
        ids := ids + jobs[i].newlyFinalized;
      }
      assert jobs[..|jobs|] == jobs;
    }

    method PersistFinality(lands: bool)
      requires Valid() && phase.Finishing?
      modifies this`batch, this`phase, store
      ensures Valid() && open == old(open) && Step(Bounds(), old(Value()), Event.Finality(lands), Value())
    {
      ghost var s := Value();
      hide Shape, Safe, DistinctBy, FinalsOf, Step;
      FinalitySteps(Bounds(), s, lands);
      var ids := CollectFinalized(batch);
      if ids != [] { store.PersistFinal(ids, lands); }
      assert store.finals == s.store.finals + if lands then FinalsOf(s.batch) else {};
      assert store.Value() == s.store.(finals := store.finals);
      batch, phase := [], Idle;
      assert Value() == s.(store := store.Value(), batch := [], phase := Idle);
      Stepped(s, Event.Finality(lands));
    }

    /** Fills the batch without waiting while producers keep queueing: before its `i`-th look at the
        channel the jobs `arrivals[i]` may have been sent. */
    method DrainBatch(arrivals: seq<seq<PersistJob>>)
      requires Valid() && phase.Draining? && |batch| == 1 && open
      modifies this`channel, this`accepted, this`batch, this`phase
      ensures Valid() && phase == Trying(0) && open
      ensures old(accepted) <= accepted && store.Value() == old(store.Value())
      ensures |batch| == MAX_BATCH_SIZE || channel == []
      ensures old(batch) <= batch && old(Value()).taken <= Value().taken
    {
      hide Shape, Safe, DistinctBy;
      var more := true;
      while |batch| < MAX_BATCH_SIZE && more
        invariant Valid() && phase.Draining? && open && 1 <= |batch| <= MAX_BATCH_SIZE
        invariant old(accepted) <= accepted && old(batch) <= batch && old(Value()).taken <= Value().taken
        invariant more || channel == []
        modifies this`channel, this`accepted, this`batch
        decreases MAX_BATCH_SIZE - |batch|, more
      {
        if |batch| - 1 < |arrivals| {
          var sent := arrivals[|batch| - 1];
          for i := 0 to |sent|
            invariant Valid() && old(accepted) <= accepted && phase.Draining? && open
            invariant old(Value()).taken <= Value().taken
            modifies this`channel, this`accepted
          {
            var _ := Send(sent[i]);
          }
        }
        more := TryReceive();
      }
      ghost var s := Value();
      phase := Trying(0);
      Stepped(s, Drained);
    }

    /** Appends the batch, once and then after each delay, until an append is acknowledged. */
    method PersistBatch(writes: seq<Outcome>, hits: seq<set<BlockId>>) returns (persisted: bool)
      requires Valid() && phase == Trying(0) && |writes| == |hits| == |retryDelaysMs| + 1
      modifies this`phase, this`open, this`split, store
      ensures Valid() && (persisted <==> Acknowledged in writes)
      ensures phase == if persisted then Finishing else Stopped
      ensures store.finals == old(store.finals)
    {
      var attempt: nat := 0;
      while true
        invariant Valid() && attempt <= |retryDelaysMs| && phase == Trying(attempt)
        invariant Acknowledged !in writes[..attempt] && store.finals == old(store.finals)
        decreases |retryDelaysMs| - attempt
      {
        persisted := Attempt(attempt, writes[attempt], hits[attempt]);
        assert writes[..attempt + 1] == writes[..attempt] + [writes[attempt]];
        if persisted { return true; }
        if attempt == |retryDelaysMs| {
          assert writes[..attempt + 1] == writes;
          return false;
        }
        attempt := attempt + 1;
      }
    }

    /** One turn of the consumer: it goes on exactly if some append of the batch was acknowledged,
        and then all it has received is durable; otherwise the channel is closed for good. */
    method ConsumeBatch(arrivals: seq<seq<PersistJob>>, writes: seq<Outcome>, hits: seq<set<BlockId>>, finalityLands: bool)
      returns (goOn: bool)
      requires Valid() && phase.Idle? && open && channel != [] && |writes| == |hits| == |retryDelaysMs| + 1
      modifies this, store
      ensures Valid() && (goOn <==> Acknowledged in writes) && open == goOn
      ensures old(accepted) <= accepted
      ensures goOn ==> phase.Idle? && Value().taken > old(Value()).taken
      ensures goOn && DistinctBy(accepted, JobId) ==> store.order == accepted[..Value().taken]
      ensures !goOn ==> phase.Stopped? && store.finals == old(store.finals)
    {
      hide DistinctBy, FinalsOf, CountsOrdered, CountsExact, Ids, Appended, Shape;
      Receive();
      DrainBatch(arrivals);
      goOn := PersistBatch(writes, hits);
      if goOn { PersistFinality(finalityLands); }
    }
  }

  lemma {:induction false} FinalsSnoc(jobs: seq<PersistJob>, i: nat, ids: seq<BlockId>)
    requires i < |jobs| && (set x | x in ids) == FinalsOf(jobs[..i])
    ensures (set x | x in ids + jobs[i].newlyFinalized) == FinalsOf(jobs[..i + 1])
  {
    assert jobs[..i + 1] == jobs[..i] + [jobs[i]];
    FinalsGrow(jobs[..i], [jobs[i]]);
    assert [jobs[i]][0] == jobs[i];
    forall x | x in FinalsOf(jobs[..i + 1]) ensures x in FinalsOf(jobs[..i]) || x in jobs[i].newlyFinalized {
      var k :| 0 <= k < i + 1 && x in jobs[..i + 1][k].newlyFinalized;
      if k < i { assert jobs[..i][k] == jobs[k]; }
    }
  }
}
