/** The durable side of block persistence: one atomic batch append with duplicate detection and
    producer-supplied children counts, and the set of persisted final ids. */
module PersistStore {
  import opened Common

  datatype StoredBlock = StoredBlock(id: BlockId, parents: seq<BlockId>)

  /** `countUpdates` are the children counts of the block's parents just after its insertion. */
  datatype PersistJob = PersistJob(block: StoredBlock, newlyFinalized: seq<BlockId>, countUpdates: seq<(BlockId, nat)>)

  /** What became of one append: acknowledged, failed without effect, or failed after the write, in
      particular while trimming the tips and before the filter of recent blocks is filled. */
  datatype Outcome = Acknowledged | Lost | LandedUnacknowledged

  /** `filtered` are the ids put into the filter of recent blocks, `order` lists the jobs in the order
      their blocks became durable. */
  datatype Durable = Durable(blocks: map<BlockId, StoredBlock>, counts: map<BlockId, nat>, finals: set<BlockId>,
                             filtered: set<BlockId>, order: seq<PersistJob>)

  /** The jobs of the batch whose block is not among `seen`. */
  function Fresh(seen: set<BlockId>, batch: seq<PersistJob>): seq<PersistJob> {
    if batch == [] then []
    else
      var n := |batch| - 1;
      Fresh(seen, batch[..n]) + if batch[n].block.id in seen then [] else [batch[n]]
  }

  ghost function Ids(jobs: seq<PersistJob>): set<BlockId> {
    set i | 0 <= i < |jobs| :: jobs[i].block.id
  }

  /** Stored blocks are looked up only where the filter answers "maybe". `hits` are the ids on which
      it does so without holding them; before it is warmed, all ids. */
  function Recognised(d: Durable, hits: set<BlockId>): set<BlockId> { d.blocks.Keys * (d.filtered + hits) }

  /** What an append writes, and what of it was not stored before. */
  function Written(d: Durable, hits: set<BlockId>, batch: seq<PersistJob>): seq<PersistJob> { Fresh(Recognised(d, hits), batch) }

  function New(d: Durable, batch: seq<PersistJob>): seq<PersistJob> { Fresh(d.blocks.Keys, batch) }

  function MaxOption(a: Option<nat>, b: Option<nat>): Option<nat> {
    match (a, b)
    case (Some(x), Some(y)) => Some(Max(x, y))
    case (None, _) => b
    case (_, None) => a
  }

  /** Largest count that `updates` carries for `p`. */
  function UpdatesMax(updates: seq<(BlockId, nat)>, p: BlockId): Option<nat> {
    if updates == [] then None
    else
      var n := |updates| - 1;
      MaxOption(UpdatesMax(updates[..n], p), if updates[n].0 == p then Some(updates[n].1) else None)
  }

  /** Largest count that the jobs carry for `p`. */
  function JobsMax(jobs: seq<PersistJob>, p: BlockId): Option<nat> {
    if jobs == [] then None
    else MaxOption(JobsMax(jobs[..|jobs| - 1], p), UpdatesMax(jobs[|jobs| - 1].countUpdates, p))
  }

  function BlocksOf(blocks: map<BlockId, StoredBlock>, jobs: seq<PersistJob>): map<BlockId, StoredBlock> {
    if jobs == [] then blocks
    else
      var b := jobs[|jobs| - 1].block;
      BlocksOf(blocks, jobs[..|jobs| - 1])[b.id := b]
  }

  ghost predicate IsParentOf(jobs: seq<PersistJob>, p: BlockId) {
    exists i :: 0 <= i < |jobs| && p in jobs[i].block.parents
  }

  /** The stored counts after the jobs: overwritten for their parents with the batch maximum. */
  ghost predicate CountsAfter(counts: map<BlockId, nat>, jobs: seq<PersistJob>, counts': map<BlockId, nat>) {
    forall p :: Lookup(counts', p) ==
                if IsParentOf(jobs, p) && JobsMax(jobs, p).Some? then JobsMax(jobs, p) else Lookup(counts, p)
  }

  /** One append: all of it or none of it. Only an acknowledged one fills the filter. */
  ghost predicate Appended(d: Durable, batch: seq<PersistJob>, hits: set<BlockId>, outcome: Outcome, d': Durable) {
    if outcome.Lost? then d' == d
    else
      var jobs := Written(d, hits, batch);
      && d'.blocks == BlocksOf(d.blocks, jobs)
      && CountsAfter(d.counts, jobs, d'.counts)
      && d'.finals == d.finals
      && d'.filtered == d.filtered + (if outcome.Acknowledged? then Ids(jobs) else {})
      && d'.order == d.order + New(d, batch)
  }

  /** A producer only sends counts for the block's own parents. */
  predicate CountsOwnParents(job: PersistJob) {
    forall i :: 0 <= i < |job.countUpdates| ==> job.countUpdates[i].0 in job.block.parents
  }

  lemma {:induction false} UpdatesMaxSome(updates: seq<(BlockId, nat)>, p: BlockId)
    ensures UpdatesMax(updates, p).Some? <==> exists i :: 0 <= i < |updates| && updates[i].0 == p
    ensures UpdatesMax(updates, p).Some? ==> exists i :: 0 <= i < |updates| && updates[i] == (p, UpdatesMax(updates, p).value)
    ensures forall i :: 0 <= i < |updates| && updates[i].0 == p ==> updates[i].1 <= UpdatesMax(updates, p).GetOr(0)
  {
    if updates != [] {
      var n := |updates| - 1;
      UpdatesMaxSome(updates[..n], p);
      forall i | 0 <= i < n ensures updates[i] == updates[..n][i] {}
      if UpdatesMax(updates[..n], p).Some? {
        var i :| 0 <= i < n && updates[..n][i] == (p, UpdatesMax(updates[..n], p).value);
        assert updates[i] == (p, UpdatesMax(updates[..n], p).value);
      }
      if updates[n].0 == p { assert updates[n] == (p, updates[n].1); }
    }
  }

  /** A count for `p` comes from a job under `p`. */
  lemma {:induction false} JobsMaxOfParents(jobs: seq<PersistJob>, p: BlockId)
    requires forall i :: 0 <= i < |jobs| ==> CountsOwnParents(jobs[i])
    ensures JobsMax(jobs, p).Some? ==> IsParentOf(jobs, p)
  {
    if jobs != [] {
      var n := |jobs| - 1;
      assert forall i :: 0 <= i < n ==> jobs[..n][i] == jobs[i];
      JobsMaxOfParents(jobs[..n], p);
      if JobsMax(jobs[..n], p).Some? {
        var i :| 0 <= i < n && p in jobs[..n][i].block.parents;
        assert p in jobs[i].block.parents;
      }
      UpdatesMaxSome(jobs[n].countUpdates, p);
      if UpdatesMax(jobs[n].countUpdates, p).Some? { assert p in jobs[n].block.parents; }
    }
  }

  lemma {:induction false} JobsMaxConcat(a: seq<PersistJob>, b: seq<PersistJob>, p: BlockId)
    ensures JobsMax(a + b, p) == MaxOption(JobsMax(a, p), JobsMax(b, p))
  {
    if b == [] {
      assert a + b == a;
    } else {
      var n := |b| - 1;
      assert (a + b)[..|a + b| - 1] == a + b[..n];
      JobsMaxConcat(a, b[..n], p);
    }
  }

  /** Stored counts are the maxima of the durable jobs. */
  ghost predicate CountsExact(d: Durable) {
    forall p :: Lookup(d.counts, p) == JobsMax(d.order, p)
  }

  lemma {:induction false} CountsAt(d: Durable, batch: seq<PersistJob>, hits: set<BlockId>, outcome: Outcome, d': Durable, p: BlockId)
    requires CountsExact(d) && Appended(d, batch, hits, outcome, d') && !outcome.Lost?
    requires forall i :: 0 <= i < |Written(d, hits, batch)| ==> CountsOwnParents(Written(d, hits, batch)[i])
    ensures var max := JobsMax(Written(d, hits, batch), p);
            Lookup(d'.counts, p) == if max.Some? then max else Lookup(d.counts, p)
    ensures JobsMax(d'.order, p) == MaxOption(Lookup(d.counts, p), JobsMax(New(d, batch), p))
  {
    JobsMaxOfParents(Written(d, hits, batch), p);
    JobsMaxConcat(d.order, New(d, batch), p);
  }

  /** An append of blocks that are all new keeps the stored counts exact if and only if no parent's
      count goes backwards. */
  lemma {:induction false} AppendCountsExactIff(d: Durable, batch: seq<PersistJob>, hits: set<BlockId>, outcome: Outcome, d': Durable)
    requires CountsExact(d) && Appended(d, batch, hits, outcome, d') && !outcome.Lost?
    requires Written(d, hits, batch) == New(d, batch)
    requires forall i :: 0 <= i < |New(d, batch)| ==> CountsOwnParents(New(d, batch)[i])
    ensures CountsExact(d') <==> forall p :: p in d.counts && JobsMax(New(d, batch), p).Some? ==>
                                               d.counts[p] <= JobsMax(New(d, batch), p).value
  {
    hide Fresh, JobsMax, CountsAfter;
    forall p ensures Lookup(d'.counts, p) == JobsMax(d'.order, p)
                     <==> (p in d.counts && JobsMax(New(d, batch), p).Some? ==> d.counts[p] <= JobsMax(New(d, batch), p).value)
    {
      CountsAt(d, batch, hits, outcome, d', p);
    }
  }

  /** Writing stored blocks again keeps the stored counts if and only if the jobs written carry the
      stored count of every parent they touch. */
  lemma {:induction false} RewriteCountsExactIff(d: Durable, batch: seq<PersistJob>, hits: set<BlockId>, outcome: Outcome, d': Durable)
    requires CountsExact(d) && Appended(d, batch, hits, outcome, d') && !outcome.Lost? && New(d, batch) == []
    requires forall i :: 0 <= i < |Written(d, hits, batch)| ==> CountsOwnParents(Written(d, hits, batch)[i])
    ensures CountsExact(d') <==> forall p :: JobsMax(Written(d, hits, batch), p).Some? ==>
                                               JobsMax(Written(d, hits, batch), p) == Lookup(d.counts, p)
  {
    hide Fresh, CountsAfter;
    forall p ensures Lookup(d'.counts, p) == JobsMax(d'.order, p)
                     <==> (JobsMax(Written(d, hits, batch), p).Some? ==> JobsMax(Written(d, hits, batch), p) == Lookup(d.counts, p))
    {
      CountsAt(d, batch, hits, outcome, d', p);
    }
  }

  ghost predicate Holds(blocks: map<BlockId, StoredBlock>, jobs: seq<PersistJob>) {
    forall i :: 0 <= i < |jobs| ==> Lookup(blocks, jobs[i].block.id) == Some(jobs[i].block)
  }

  /** Writing stored blocks again leaves the blocks as they are. */
  lemma {:induction false} RewriteKeepsBlocks(blocks: map<BlockId, StoredBlock>, jobs: seq<PersistJob>)
    requires Holds(blocks, jobs)
    ensures BlocksOf(blocks, jobs) == blocks
  {
    if jobs != [] {
      var n := |jobs| - 1;
      assert forall i :: 0 <= i < n ==> jobs[..n][i] == jobs[i];
      RewriteKeepsBlocks(blocks, jobs[..n]);
      assert Lookup(blocks, jobs[n].block.id) == Some(jobs[n].block);
    }
  }

  /** Jobs `b` after `a`, with one parent "p" and increasing counts. */
  const JOB_A: PersistJob := PersistJob(StoredBlock("a", ["p"]), [], [("p", 1)])
  const JOB_B: PersistJob := PersistJob(StoredBlock("b", ["p"]), [], [("p", 2)])

  /** Two batches whose producers were queued in the opposite order of their insertions. */
  lemma {:induction false} CountGoesBackwards() returns (d: Durable, d1: Durable, d2: Durable)
    ensures CountsExact(d) && CountsOwnParents(JOB_A) && CountsOwnParents(JOB_B)
    ensures Appended(d, [JOB_B], {}, Acknowledged, d1) && Appended(d1, [JOB_A], {}, Acknowledged, d2)
    ensures Lookup(d1.counts, "p") == Some(2) && Lookup(d2.counts, "p") == Some(1)
  {
    d := Durable(map[], map[], {}, {}, []);
    d1 := Durable(map["b" := JOB_B.block], map["p" := 2], {}, {"b"}, [JOB_B]);
    d2 := Durable(map["b" := JOB_B.block, "a" := JOB_A.block], map["p" := 1], {}, {"b", "a"}, [JOB_B, JOB_A]);
    SingleAppend(d, JOB_B, d1, 2);
    SingleAppend(d1, JOB_A, d2, 1);
  }

  lemma {:induction false} SingleMax(job: PersistJob, n: nat, p: BlockId)
    requires job.block.parents == ["p"] && job.countUpdates == [("p", n)]
    ensures JobsMax([job], p) == if p == "p" then Some(n) else None
    ensures IsParentOf([job], p) <==> p == "p"
  {
    if p == "p" { assert p in [job][0].block.parents; }
    assert job.countUpdates[..0] == [];
    assert UpdatesMax([], p) == None && JobsMax([], p) == None;
  }

  lemma {:induction false} SingleAppend(d: Durable, job: PersistJob, d': Durable, n: nat)
    requires job.block.id !in d.blocks && job.block.parents == ["p"] && job.countUpdates == [("p", n)]
    requires d' == Durable(d.blocks[job.block.id := job.block], d.counts["p" := n], d.finals,
                           d.filtered + {job.block.id}, d.order + [job])
    ensures Appended(d, [job], {}, Acknowledged, d')
  {
    assert [job][..0] == [];
    assert Fresh(d.blocks.Keys, []) == [] && Fresh(Recognised(d, {}), []) == [];
    assert New(d, [job]) == [job] && Written(d, {}, [job]) == [job];
    assert BlocksOf(d.blocks, [job]) == d.blocks[job.block.id := job.block];
    assert Ids([job]) == {job.block.id} by { assert [job][0].block.id in Ids([job]); }
    forall p ensures IsParentOf([job], p) <==> p == "p" { SingleMax(job, n, p); }
    forall p ensures JobsMax([job], p) == if p == "p" then Some(n) else None { SingleMax(job, n, p); }
  }

  lemma {:induction false} SplitParts(d: Durable)
    requires d.blocks.Keys == {"a", "b"} && d.filtered == {}
    ensures New(d, [JOB_A, JOB_B]) == [] && Written(d, {"b"}, [JOB_A, JOB_B]) == [JOB_A] && Ids([JOB_A]) == {"a"}
  {
    var batch := [JOB_A, JOB_B];
    assert "a" != "b" by { assert "a"[0] != "b"[0]; }
    assert batch[..1] == [JOB_A] && [JOB_A][..0] == [];
    assert Fresh(d.blocks.Keys, [JOB_A]) == [];
    assert Fresh(Recognised(d, {"b"}), []) == [];
    assert Fresh(Recognised(d, {"b"}), [JOB_A]) == [JOB_A];
    assert [JOB_A][0].block.id in Ids([JOB_A]);
  }

  /** A batch lands, trimming fails, and on the retry the filter answers "maybe" by chance for the
      later of its two blocks: writing the earlier one alone lowers the count. */
  lemma {:induction false} SplitRetryLowersCount() returns (d1: Durable, d2: Durable)
    ensures CountsExact(d1) && d1.order == [JOB_A, JOB_B] && Holds(d1.blocks, d1.order)
    ensures Appended(d1, [JOB_A, JOB_B], {"b"}, Acknowledged, d2) && New(d1, [JOB_A, JOB_B]) == []
    ensures Lookup(d1.counts, "p") == Some(2) && Lookup(d2.counts, "p") == Some(1)
  {
    var batch := [JOB_A, JOB_B];
    assert JOB_A.block.id != JOB_B.block.id by { assert "a"[0] != "b"[0]; }
    d1 := Durable(map["a" := JOB_A.block, "b" := JOB_B.block], map["p" := 2], {}, {}, batch);
    d2 := d1.(counts := map["p" := 1], filtered := {"a"});
    forall p ensures JobsMax(batch, p) == if p == "p" then Some(2) else None {
      SingleMax(JOB_A, 1, p);
      SingleMax(JOB_B, 2, p);
      JobsMaxConcat([JOB_A], [JOB_B], p);
      assert [JOB_A] + [JOB_B] == batch;
    }
    SplitParts(d1);
    assert BlocksOf(d1.blocks, [JOB_A]) == d1.blocks by { RewriteKeepsBlocks(d1.blocks, [JOB_A]); }
    forall p ensures IsParentOf([JOB_A], p) <==> p == "p" { SingleMax(JOB_A, 1, p); }
    forall p ensures JobsMax([JOB_A], p) == if p == "p" then Some(1) else None { SingleMax(JOB_A, 1, p); }
  }

  class RocksStore {
    var blocks: map<BlockId, StoredBlock>
    var counts: map<BlockId, nat>
    var finals: set<BlockId>
    var bloom: set<BlockId>
    ghost var order: seq<PersistJob>

    ghost function Value(): Durable
      reads this
    {
      Durable(blocks, counts, finals, bloom, order)
    }

    constructor ()
      ensures Value() == Durable(map[], map[], {}, {}, [])
    {
      blocks, counts, finals, bloom, order := map[], map[], {}, {}, [];
    }

    /** Duplicate check through the filter, then one running maximum per parent over the batch. */
    static method BuildWriteBatch(blocks: map<BlockId, StoredBlock>, bloom: set<BlockId>, counts: map<BlockId, nat>,
                                  batch: seq<PersistJob>, hits: set<BlockId>)
      returns (jobs: seq<PersistJob>, blocks': map<BlockId, StoredBlock>, counts': map<BlockId, nat>)
      ensures jobs == Fresh(blocks.Keys * (bloom + hits), batch)
      ensures blocks' == BlocksOf(blocks, jobs) && CountsAfter(counts, jobs, counts')
    {
      hide CountsWritten, CountsAfter, Maxima, IsParentOf, JobsMax, ParentsWritten;
      jobs := [];
      for i := 0 to |batch|
        invariant jobs == Fresh(blocks.Keys * (bloom + hits), batch[..i])
      {
        assert batch[..i + 1][..i] == batch[..i];
        var id := batch[i].block.id;
        var maybe := id in bloom || id in hits;
        if !maybe || id !in blocks { jobs := jobs + [batch[i]]; }
      }
      assert batch[..|batch|] == batch;
      var parentCounts := RunningMaxima(jobs);
      blocks', counts' := blocks, counts;
      NothingWritten(counts, jobs, parentCounts);
      for i := 0 to |jobs|
        invariant blocks' == BlocksOf(blocks, jobs[..i])
        invariant CountsWritten(counts, jobs[..i], parentCounts, counts')
      {
        var b := jobs[i].block;
        assert jobs[..i + 1][..i] == jobs[..i];
        blocks' := blocks'[b.id := b];
        ghost var counts0 := counts';
        NoParentWritten(counts0, b.parents, parentCounts);
        for k := 0 to |b.parents|
          invariant ParentsWritten(counts0, b.parents[..k], parentCounts, counts')
        {
          ParentWritten(counts0, b.parents, k, parentCounts, counts');
          var p := b.parents[k];
          if p in parentCounts { counts' := counts'[p := parentCounts[p]]; }
        }
        assert b.parents[..|b.parents|] == b.parents;
        CountsWrittenStep(counts, jobs, i, parentCounts, counts0, counts');
      }
      assert jobs[..|jobs|] == jobs;
      MaximaWritten(counts, jobs, parentCounts, counts');
    }

    /** A single write for the whole batch; `write` is what the storage engine does with it. The
        filter takes the written ids only when everything has succeeded. */
    method AppendBlocksBatch(batch: seq<PersistJob>, hits: set<BlockId>, write: Outcome) returns (ok: bool)
      modifies this
      ensures batch != [] ==> Appended(old(Value()), batch, hits, write, Value()) && ok == write.Acknowledged?
      ensures batch == [] ==> Value() == old(Value()) && ok
    {
      hide CountsAfter, BlocksOf, Fresh;
      if batch == [] { return true; }
      var jobs, blocks', counts' := BuildWriteBatch(blocks, bloom, counts, batch, hits);
      if !write.Lost? { blocks, counts, order := blocks', counts', order + New(Value(), batch); }
      if write.Acknowledged? { bloom := bloom + set i | 0 <= i < |jobs| :: jobs[i].block.id; }
      return write.Acknowledged?;
    }

    static method RunningMaxima(jobs: seq<PersistJob>) returns (m: map<BlockId, nat>)
      ensures Maxima(jobs, m)
    {
      m := map[];
      for i := 0 to |jobs|
        invariant forall p :: Lookup(m, p) == JobsMax(jobs[..i], p)
      {
        assert jobs[..i + 1][..i] == jobs[..i];
        var updates := jobs[i].countUpdates;
        for k := 0 to |updates|
          invariant forall p :: Lookup(m, p) == MaxOption(JobsMax(jobs[..i], p), UpdatesMax(updates[..k], p))
        {
          assert updates[..k + 1][..k] == updates[..k];
          var (p, count) := updates[k];
          var entry: nat := Lookup(m, p).GetOr(0);
          m := m[p := if count > entry then count else entry];
        }
        assert updates[..|updates|] == updates;
      }
      assert jobs[..|jobs|] == jobs;
    }

    method PersistFinal(ids: seq<BlockId>, lands: bool)
      modifies this`finals
      ensures finals == old(finals) + if lands then set x | x in ids else {}
    {
      if lands { finals := finals + set x | x in ids; }
    }
  }

  ghost predicate ParentsWritten(counts: map<BlockId, nat>, parents: seq<BlockId>, m: map<BlockId, nat>, counts': map<BlockId, nat>) {
    forall p :: Lookup(counts', p) == if p in parents && p in m then Some(m[p]) else Lookup(counts, p)
  }

  ghost predicate CountsWritten(counts: map<BlockId, nat>, jobs: seq<PersistJob>, m: map<BlockId, nat>, counts': map<BlockId, nat>) {
    forall p :: Lookup(counts', p) == if IsParentOf(jobs, p) && p in m then Some(m[p]) else Lookup(counts, p)
  }

  ghost predicate Maxima(jobs: seq<PersistJob>, m: map<BlockId, nat>) {
    forall p :: Lookup(m, p) == JobsMax(jobs, p)
  }

  lemma {:induction false} NoParentWritten(counts: map<BlockId, nat>, parents: seq<BlockId>, m: map<BlockId, nat>)
    ensures ParentsWritten(counts, parents[..0], m, counts)
  {}

  lemma {:induction false} ParentWritten(counts: map<BlockId, nat>, parents: seq<BlockId>, k: nat, m: map<BlockId, nat>,
                                         counts': map<BlockId, nat>)
    requires k < |parents| && ParentsWritten(counts, parents[..k], m, counts')
    ensures ParentsWritten(counts, parents[..k + 1], m,
                           if parents[k] in m then counts'[parents[k] := m[parents[k]]] else counts')
  {}

  lemma {:induction false} NothingWritten(counts: map<BlockId, nat>, jobs: seq<PersistJob>, m: map<BlockId, nat>)
    ensures CountsWritten(counts, jobs[..0], m, counts)
  {}

  lemma {:induction false} MaximaWritten(counts: map<BlockId, nat>, jobs: seq<PersistJob>, m: map<BlockId, nat>,
                                         counts': map<BlockId, nat>)
    requires Maxima(jobs, m) && CountsWritten(counts, jobs, m, counts')
    ensures CountsAfter(counts, jobs, counts')
  {}

  lemma {:induction false} CountsWrittenStep(counts: map<BlockId, nat>, jobs: seq<PersistJob>, i: nat, m: map<BlockId, nat>,
                                             counts0: map<BlockId, nat>, counts': map<BlockId, nat>)
    requires i < |jobs| && CountsWritten(counts, jobs[..i], m, counts0)
    requires ParentsWritten(counts0, jobs[i].block.parents, m, counts')
    ensures CountsWritten(counts, jobs[..i + 1], m, counts')
  {}
}
