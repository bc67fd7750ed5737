/** The block graph kept in memory: insertion, the child index, cumulative weights, finality by
    confirmation depth and finality by milestone. */
module Dag {
  import opened Common
  import opened DagFinality
  import opened DagPaths
  import opened DagReach
  import opened DagWeights

  datatype AddError = AlreadyPresent | MissingParent(parent: BlockId) | Rejected

  class FinalityState {
    var finalized: set<BlockId>
    var lastMilestone: Option<BlockId>
    var depthK: nat

    constructor (k: nat)
      ensures finalized == {} && lastMilestone == None && depthK == k
    {
      finalized, lastMilestone, depthK := {}, None, k;
    }

    predicate IsFinal(id: BlockId)
      reads this
    {
      id in finalized
    }

    method MarkFinal(id: BlockId)
      modifies this`finalized
      ensures finalized == old(finalized) + {id}
    {
      finalized := finalized + {id};
    }

    method SetMilestone(id: BlockId)
      modifies this`finalized, this`lastMilestone
      ensures finalized == old(finalized) + {id} && lastMilestone == Some(id)
    {
      lastMilestone := Some(id);
      MarkFinal(id);
    }
  }

  class Dag {
    var blocks: Blocks
    var children: map<BlockId, nat>
    var childrenIdx: Links
    const finality: FinalityState

    /** The index and the child counters describe the blocks. */
    ghost predicate Indexed()
      reads this
    {
      IdsMatch(blocks) && IndexMatches(blocks, childrenIdx) && CountsMatch(children, childrenIdx)
    }

    /** The final set is what the present graph alone determines. */
    ghost predicate Settled()
      reads this, finality
    {
      finality.finalized == Milestones(blocks) + FinalByDepth(blocks, childrenIdx, finality.depthK)
    }

    /** Invariant of a graph grown by `AddBlock`. */
    ghost predicate Valid()
      reads this, finality
    {
      Indexed() && Acyclic(blocks) && ParentsPresent(blocks) && Settled()
    }

    constructor WithGenesis(genesis: Block, k: nat)
      requires genesis.parents == [] && !genesis.payload.Milestone?
      ensures Valid() && fresh(finality) && finality.depthK == k
      ensures blocks == map[genesis.id := genesis] && finality.finalized == {}
    {
      blocks := map[genesis.id := genesis];
      children := map[genesis.id := 0];
      childrenIdx := map[];
      finality := new FinalityState(k);
      new;
      assert Ranked(blocks, map[genesis.id := 0]);
      forall b ensures Reach(childrenIdx, b) == {} { ReachLeast(childrenIdx, b, {}); }
    }

    /** Reload from the store: blocks, child counters, recorded finality and a rebuilt index. */
    constructor FromStore(store: Blocks, finals: set<BlockId>, milestone: Option<BlockId>)
      requires IdsMatch(store)
      ensures Indexed() && blocks == store && IndexCounts(blocks, childrenIdx, blocks.Keys)
      ensures fresh(finality) && finality.finalized == finals && finality.lastMilestone == milestone && finality.depthK == 0
    {
      blocks, children, childrenIdx := map[], map[], map[];
      finality := new FinalityState(0);
      new;
      LoadBlocks(store);
      finality.finalized, finality.lastMilestone := finals, milestone;
      RebuildChildrenIdx();
      IndexCountsMatch(blocks, childrenIdx);
    }

    method LoadBlocks(store: Blocks)
      requires blocks == map[] && children == map[]
      modifies this`blocks, this`children
      ensures blocks == store && forall p :: Lookup(children, p).GetOr(0) == Edges(store, store.Keys, p)
    {
      var rest, loaded: set<BlockId> := store.Keys, {};
      while rest != {}
        invariant loaded !! rest && loaded + rest == store.Keys
        invariant blocks.Keys == loaded && forall b :: b in loaded ==> blocks[b] == store[b]
        invariant forall p :: Lookup(children, p).GetOr(0) == Edges(store, loaded, p)
      {
        var id :| id in rest;
        var parents := store[id].parents;
        for i := 0 to |parents|
          invariant forall p :: Lookup(children, p).GetOr(0) == Edges(store, loaded, p) + Count(parents[..i], p)
          modifies this`children
        {
          CountsStep(parents, i);
          children := children[parents[i] := Lookup(children, parents[i]).GetOr(0) + 1];
        }
        assert parents[..|parents|] == parents;
        EdgesSplit(store, loaded, id);
        blocks := blocks[id := store[id]];
        rest, loaded := rest - {id}, loaded + {id};
      }
    }

    /** The index is rebuilt by one push per parent entry of every block. */
    method RebuildChildrenIdx()
      requires IdsMatch(blocks)
      modifies this`childrenIdx
      ensures IndexCounts(blocks, childrenIdx, blocks.Keys)
    {
      hide IndexCounts, IndexCountsUpTo;
      childrenIdx := map[];
      NothingIndexed(blocks);
      var rest, scanned: set<BlockId> := blocks.Keys, {};
      while rest != {}
        invariant scanned !! rest && scanned + rest == blocks.Keys
        invariant IndexCounts(blocks, childrenIdx, scanned)
      {
        var c :| c in rest;
        var parents := blocks[c].parents;
        StartScan(blocks, childrenIdx, scanned, c);
        for i := 0 to |parents|
          invariant IndexCountsUpTo(blocks, childrenIdx, scanned, c, i)
        {
          ScanParent(blocks, childrenIdx, scanned, c, i);
          childrenIdx := childrenIdx[parents[i] := Next(childrenIdx, parents[i]) + [blocks[c].id]];
        }
        FinishScan(blocks, childrenIdx, scanned, c, |parents|);
        rest, scanned := rest - {c}, scanned + {c};
      }
      assert scanned == blocks.Keys;
    }

    /** Descendants are counted breadth first, stopping as soon as there are `k`. */
    method HasKConfirmations(b: BlockId, k: nat) returns (r: bool)
      ensures r <==> |Reach(childrenIdx, b)| >= k
    {
      hide Reach, NextIn;
      if k == 0 { return true; }
      ghost var goal := Reach(childrenIdx, b);
      var seen, q := PushUnseen(Next(childrenIdx, b), {}, []);
      StartExploring(childrenIdx, b, seen, q);
      while q != []
        invariant Exploring(childrenIdx, b, goal, seen, q)
        decreases goal - seen, |q|
      {
        if |seen| >= k {
          SubsetSize(seen, goal);
          return true;
        }
        ghost var seen0, q0 := seen, q;
        seen, q := PushUnseen(Next(childrenIdx, q[0]), seen, q[1..]);
        ExploreNext(childrenIdx, b, goal, seen0, q0, seen, q);
      }
      ExploreDone(childrenIdx, b, seen);
      return |seen| >= k;
    }

    static method PushUnseen(ids: seq<BlockId>, seen: set<BlockId>, q: seq<BlockId>)
      returns (seen': set<BlockId>, q': seq<BlockId>)
      ensures Pushed(ids, seen, q, seen', q')
    {
      seen', q' := seen, q;
      for i := 0 to |ids|
        invariant Pushed(ids[..i], seen, q, seen', q')
      {
        if ids[i] !in seen' {
          seen', q' := seen' + {ids[i]}, q' + [ids[i]];
        }
      }
      assert ids[..|ids|] == ids;
    }

    method UpdateFinalityAfterInsert(id: BlockId)
      modifies finality`finalized, finality`lastMilestone
      ensures finality.finalized == old(finality.finalized)
                + (if id in blocks && blocks[id].payload.Milestone? then {id} else {})
                + FinalByDepth(blocks, childrenIdx, finality.depthK)
      ensures finality.lastMilestone ==
              if id in blocks && blocks[id].payload.Milestone? then Some(id) else old(finality.lastMilestone)
    {
      var k := finality.depthK;
      if id in blocks && blocks[id].payload.Milestone? { finality.SetMilestone(id); }
      if k == 0 { return; }
      ghost var start, deep := finality.finalized, DepthFinal(blocks, childrenIdx, k);
      var rest := blocks.Keys;
      while rest != {}
        invariant rest <= blocks.Keys
        invariant finality.finalized == start + (deep - rest)
        modifies finality`finalized
      {
        var b :| b in rest;
        ghost var before := finality.finalized;
        if !finality.IsFinal(b) {
          var confirmed := HasKConfirmations(b, k);
          if confirmed { finality.MarkFinal(b); }
        }
        ScanNext(start, deep, rest, b, before, finality.finalized);
        rest := rest - {b};
      }
    }

    /** A valid milestone finalises the ids it approves and their ancestors, cutting off at blocks
        that are already final. */
    method MaybeUpdateFinalityWith(block: Block)
      modifies finality`finalized, finality`lastMilestone
      ensures !block.payload.Milestone? ==>
                finality.finalized == old(finality.finalized) && finality.lastMilestone == old(finality.lastMilestone)
      ensures block.payload.Milestone? ==> finality.lastMilestone == Some(block.id)
      ensures block.payload.Milestone? ==>
                && old(finality.finalized) + {block.id} <= finality.finalized
                && finality.finalized <= old(finality.finalized) + {block.id} + Cone(ParentLinks(blocks), block.payload.approved)
                && forall id :: id in block.payload.approved ==> id in finality.finalized
      ensures block.payload.Milestone? && Closed(ParentLinks(blocks), old(finality.finalized)) ==>
                finality.finalized
                == old(finality.finalized) + {block.id} + Cone(ParentLinks(blocks), block.payload.approved)
      ensures block.payload.Milestone? && Closed(ParentLinks(blocks), old(finality.finalized)) ==>
                (Closed(ParentLinks(blocks), finality.finalized)
                 <==> NextIn(ParentLinks(blocks), block.id, finality.finalized))
    {
      hide Spreading, Cone, Closed, NextIn;
      match block.payload
      case Milestone(approved) =>
        finality.lastMilestone := Some(block.id);
        ghost var links := ParentLinks(blocks);
        ghost var start := finality.finalized;
        ghost var cone := Cone(links, approved);
        StartSpreading(links, approved, start);
        var q := approved;
        while q != []
          invariant Spreading(links, approved, start, finality.finalized, q)
          modifies finality`finalized
          decreases cone - finality.finalized, |q|
        {
          SpreadNext(links, approved, start, finality.finalized, q);
          var p := q[0];
          q := q[1..];
          ghost var waiting := q;
          if p !in finality.finalized {
            finality.finalized := finality.finalized + {p};
            if p in blocks { q := q + blocks[p].parents; }
            assert q == waiting + Next(links, p);
          }
        }
        SpreadDone(links, approved, start, finality.finalized);
        ClosedInsert(links, finality.finalized, block.id);
        finality.finalized := finality.finalized + {block.id};
      case OtherPayload =>
    }

    /** Child edges of every block, counted with multiplicity. */
    method OutDegrees() returns (degree: map<BlockId, nat>)
      ensures degree.Keys == blocks.Keys
      ensures forall p :: p in blocks ==> degree[p] == Edges(blocks, blocks.Keys, p)
    {
      degree := map id | id in blocks :: 0;
      var rest, done: set<BlockId> := blocks.Keys, {};
      while rest != {}
        invariant done !! rest && done + rest == blocks.Keys && degree.Keys == blocks.Keys
        invariant forall p :: p in blocks ==> degree[p] == Edges(blocks, done, p)
      {
        var c :| c in rest;
        var parents := blocks[c].parents;
        for i := 0 to |parents|
          invariant degree.Keys == blocks.Keys
          invariant forall p :: p in blocks ==> degree[p] == Edges(blocks, done, p) + Count(parents[..i], p)
        {
          CountsStep(parents, i);
          if parents[i] in degree {
            degree := degree[parents[i] := degree[parents[i]] + 1];
          }
        }
        assert parents[..|parents|] == parents;
        EdgesSplit(blocks, done, c);
        rest, done := rest - {c}, done + {c};
      }
      assert done == blocks.Keys;
    }

    static method Unreferenced(degree: map<BlockId, nat>) returns (q: seq<BlockId>)
      ensures Distinct(q) && forall x :: x in q <==> x in degree && degree[x] == 0
    {
      q := [];
      var rest := degree.Keys;
      while rest != {}
        invariant rest <= degree.Keys && Distinct(q)
        invariant forall x :: x in q <==> x in degree && x !in rest && degree[x] == 0
      {
        var id :| id in rest;
        if degree[id] == 0 {
          Enqueue(q, id);
          q := q + [id];
        }
        rest := rest - {id};
      }
    }

    /** Weights flow from the tips to the parents; a block is dequeued once its last child edge has
        delivered. `drained` lists the dequeued blocks in order. */
    method CumulativeWeights() returns (weight: map<BlockId, nat>, ghost drained: seq<BlockId>)
      ensures weight.Keys == blocks.Keys
      ensures Distinct(drained) && Elems(drained) <= blocks.Keys
      ensures Acyclic(blocks) ==> Elems(drained) == blocks.Keys
      ensures Acyclic(blocks) ==> forall b :: b in blocks ==> weight[b] == Min(PathCount(blocks, b), U64_MAX)
    {
      hide Waiting, Delivering;
      var blocks := this.blocks;
      weight := map id | id in blocks :: 1;
      var degree := OutDegrees();
      var q := Unreferenced(degree);
      ghost var exact := Ones(blocks);
      drained := [];
      StartWaiting(blocks, q, degree, weight);
      while q != []
        invariant Waiting(blocks, Elems(drained), q, exact, degree, weight)
        invariant Distinct(drained)
        decreases blocks.Keys - Elems(drained)
      {
        StartDelivering(blocks, Elems(drained), q, exact, degree, weight);
        var b := q[0];
        q := q[1..];
        var w := weight[b];
        ghost var start, done := exact, Elems(drained);
        var parents := blocks[b].parents;
        for n := 0 to |parents|
          invariant Delivering(blocks, done, b, n, q, start, exact, degree, weight, w)
        {
          var p := parents[n];
          if p in blocks {
            DeliverPresent(blocks, done, b, n, q, start, exact, degree, weight, w, p);
            exact := exact[p := exact[p] + start[b]];
            weight := weight[p := SaturatingAdd(weight[p], w)];
            degree := degree[p := degree[p] - 1];
            if degree[p] == 0 { q := q + [p]; }
          } else {
            DeliverAbsent(blocks, done, b, n, q, start, exact, degree, weight, w);
          }
        }
        FinishDelivering(blocks, done, b, |parents|, q, start, exact, degree, weight, w);
        Enqueue(drained, b);
        drained := drained + [b];
        assert Elems(drained) == done + {b};
      }
      AllDelivered(blocks, Elems(drained), exact, degree, weight);
    }

    /** Counts and indexes `b` under each parent it names, once per parent. */
    method LinkToParents(b: Block)
      modifies this`children, this`childrenIdx
      ensures forall p, c :: c in Next(childrenIdx, p) <==> c in Next(old(childrenIdx), p) || (c == b.id && p in b.parents)
      ensures CountsMatch(old(children), old(childrenIdx)) ==> CountsMatch(children, childrenIdx)
    {
      hide Next, CountsMatch;
      ghost var children0, idx0 := children, childrenIdx;
      LinkedNone(children, childrenIdx, b.id);
      var linked: set<BlockId> := {};
      for i := 0 to |b.parents|
        invariant linked == set x | x in b.parents[..i]
        invariant Linked(children0, idx0, b.id, linked, children, childrenIdx)
      {
        var p := b.parents[i];
        if p !in linked {
          LinkedOne(children0, idx0, b.id, linked, children, childrenIdx, p);
          children := children[p := Lookup(children, p).GetOr(0) + 1];
          childrenIdx := childrenIdx[p := Next(childrenIdx, p) + [b.id]];
          linked := linked + {p};
        }
      }
      LinkedAll(children0, idx0, b, linked, children, childrenIdx);
    }

    /** Effect of an accepted block on the graph in memory. */
    method ApplyBlockMem(b: Block)
      requires Indexed() && b.id !in blocks
      modifies this`blocks, this`children, this`childrenIdx, finality`finalized, finality`lastMilestone
      ensures Indexed() && blocks == old(blocks)[b.id := b]
      ensures Grows(old(childrenIdx), childrenIdx)
      ensures old(Settled()) ==> Settled()
      ensures finality.lastMilestone == if b.payload.Milestone? then Some(b.id) else old(finality.lastMilestone)
    {
      LinkToParents(b);
      LeafKeepsIndex(blocks, old(childrenIdx), b, childrenIdx);
      FinalSetForgetsHistory(blocks, old(childrenIdx), b, childrenIdx, finality.depthK);
      blocks := blocks[b.id := b];
      UpdateFinalityAfterInsert(b.id);
    }

    /** Public insertion: `accepted` is the verdict of full block validation. */
    method AddBlock(b: Block, accepted: bool) returns (r: Result<(), AddError>)
      requires Valid()
      modifies this`blocks, this`children, this`childrenIdx, finality`finalized, finality`lastMilestone
      ensures Valid()
      ensures r.Ok? <==> b.id !in old(blocks) && (forall p :: p in b.parents ==> p in old(blocks)) && accepted
      ensures r.Ok? ==> blocks == old(blocks)[b.id := b] && old(finality.finalized) <= finality.finalized
      ensures r.Err? ==> unchanged(this) && unchanged(finality)
      ensures r.Err? && r.error.AlreadyPresent? ==> b.id in blocks
      ensures r.Err? && r.error.MissingParent? ==> r.error.parent in b.parents && r.error.parent !in blocks
    {
      hide Acyclic, IndexMatches, CountsMatch, IdsMatch, Grows, FinalByDepth, Milestones, ParentsPresent;
      if b.id in blocks { return Err(AlreadyPresent); }
      for i := 0 to |b.parents|
        invariant forall p :: p in b.parents[..i] ==> p in blocks
      {
        if b.parents[i] !in blocks { return Err(MissingParent(b.parents[i])); }
      }
      if !accepted { return Err(Rejected); }
      LeafKeepsAcyclic(blocks, b);
      ghost var k := finality.depthK;
      ghost var before, idx := blocks, childrenIdx;
      ApplyBlockMem(b);
      FinalSetGrows(before, idx, b, childrenIdx, k);
      return Ok(());
    }

    /** Mirrors a block that is already stored. The child index is left as it was. */
    method CommitBlock(b: Block)
      modifies this`blocks, this`children, finality`finalized, finality`lastMilestone
      ensures blocks == old(blocks)[b.id := b]
      ensures forall p :: Lookup(children, p).GetOr(0) == Lookup(old(children), p).GetOr(0) + Count(b.parents, p)
      ensures old(Indexed()) && b.id !in old(blocks) ==> (Indexed() <==> b.parents == [])
      ensures finality.finalized == old(finality.finalized) + (if b.payload.Milestone? then {b.id} else {})
                                    + FinalByDepth(blocks, childrenIdx, finality.depthK)
    {
      for i := 0 to |b.parents|
        invariant forall p :: Lookup(children, p).GetOr(0) == Lookup(old(children), p).GetOr(0) + Count(b.parents[..i], p)
        modifies this`children
      {
        CountsStep(b.parents, i);
        children := children[b.parents[i] := Lookup(children, b.parents[i]).GetOr(0) + 1];
      }
      assert b.parents[..|b.parents|] == b.parents;
      if old(Indexed()) && b.id !in blocks { CommitKeepsIndexIff(blocks, childrenIdx, b); }
      blocks := blocks[b.id := b];
      UpdateFinalityAfterInsert(b.id);
    }
  }
}
