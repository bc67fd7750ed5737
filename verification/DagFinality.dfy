/** What the operations on the block graph keep, step by step, as facts about values: the child
    index, the final set, and the searches that compute finality. */
module DagFinality {
  import opened Common
  import opened DagPaths
  import opened DagReach
  import opened DagWeights

  ghost predicate IdsMatch(blocks: Blocks) { forall b :: b in blocks ==> blocks[b].id == b }

  ghost predicate ParentsPresent(blocks: Blocks) {
    forall b, p :: b in blocks && p in blocks[b].parents ==> p in blocks
  }

  ghost predicate CountsMatch(children: map<BlockId, nat>, idx: Links) {
    forall p :: Lookup(children, p).GetOr(0) == |Next(idx, p)|
  }

  ghost function Milestones(blocks: Blocks): set<BlockId> {
    set b | b in blocks && blocks[b].payload.Milestone?
  }

  /** Depth finality is switched off by `k == 0`. */
  ghost function FinalByDepth(blocks: Blocks, idx: Links, k: nat): set<BlockId> {
    if k == 0 then {} else DepthFinal(blocks, idx, k)
  }

  /** Adding a leaf with an index entry under each of its parents keeps the index exact. */
  lemma {:induction false} LeafKeepsIndex(blocks: Blocks, idx: Links, b: Block, more: Links)
    requires IndexMatches(blocks, idx) && b.id !in blocks
    requires forall p, c :: c in Next(more, p) <==> c in Next(idx, p) || (c == b.id && p in b.parents)
    ensures IndexMatches(blocks[b.id := b], more) && Grows(idx, more)
  {}

  /** Inserting a leaf under present parents keeps the graph acyclic. */
  lemma {:induction false} LeafKeepsAcyclic(blocks: Blocks, b: Block)
    requires Acyclic(blocks) && ParentsPresent(blocks) && b.id !in blocks
    requires forall p :: p in b.parents ==> p in blocks
    ensures Acyclic(blocks[b.id := b]) && ParentsPresent(blocks[b.id := b])
  {
    var rank :| Ranked(blocks, rank);
    var blocks' := blocks[b.id := b];
    var rank' := map x | x in blocks' :: if x == b.id then 0 else rank[x] + 1;
    assert Ranked(blocks', rank');
  }

  /** Without new index entries a new block is found from its parents exactly when it has none. */
  lemma {:induction false} CommitKeepsIndexIff(blocks: Blocks, idx: Links, b: Block)
    requires IndexMatches(blocks, idx) && b.id !in blocks
    ensures IndexMatches(blocks[b.id := b], idx) <==> b.parents == []
  {
    var blocks' := blocks[b.id := b];
    if b.parents != [] {
      assert IsChild(blocks', b.parents[0], b.id) && !IsChild(blocks, b.parents[0], b.id);
    } else {
      forall p, c ensures c in Next(idx, p) <==> IsChild(blocks', p, c) {
        assert c in Next(idx, p) <==> IsChild(blocks, p, c);
      }
    }
  }

  /** The final set of a graph grown leaf by leaf is the one computed from the last graph alone. */
  lemma {:induction false} FinalSetForgetsHistory(blocks: Blocks, idx: Links, b: Block, more: Links, k: nat)
    requires b.id !in blocks && Grows(idx, more)
    ensures var blocks' := blocks[b.id := b];
            Milestones(blocks) + FinalByDepth(blocks, idx, k)
            + (if b.payload.Milestone? then {b.id} else {}) + FinalByDepth(blocks', more, k)
            == Milestones(blocks') + FinalByDepth(blocks', more, k)
  {
    DepthFinalGrows(blocks, idx, blocks[b.id := b], more, k);
  }

  lemma {:induction false} FinalSetGrows(blocks: Blocks, idx: Links, b: Block, more: Links, k: nat)
    requires b.id !in blocks && Grows(idx, more)
    ensures Milestones(blocks) + FinalByDepth(blocks, idx, k)
            <= Milestones(blocks[b.id := b]) + FinalByDepth(blocks[b.id := b], more, k)
  {
    DepthFinalGrows(blocks, idx, blocks[b.id := b], more, k);
  }

  /** `ids` were scanned: the new ones are seen now and wait at the end of the queue. */
  ghost predicate Pushed(ids: seq<BlockId>, seen: set<BlockId>, q: seq<BlockId>, seen': set<BlockId>, q': seq<BlockId>) {
    && seen <= seen'
    && (forall x :: x in seen' <==> x in seen || x in ids)
    && (forall x :: x in q' <==> x in q || (x in ids && x !in seen))
    && (seen' == seen ==> q' == q)
  }

  /** Descendants of `b` found so far; those off the queue have their children among them. */
  ghost predicate Exploring(links: Links, b: BlockId, goal: set<BlockId>, seen: set<BlockId>, q: seq<BlockId>) {
    && seen <= goal && NextIn(links, b, seen)
    && (forall x :: x in q ==> x in seen)
    && (forall x :: x in seen ==> x in q || NextIn(links, x, seen))
  }

  lemma {:induction false} StartExploring(links: Links, b: BlockId, seen: set<BlockId>, q: seq<BlockId>)
    requires Pushed(Next(links, b), {}, [], seen, q)
    ensures Exploring(links, b, Reach(links, b), seen, q) && Closed(links, Reach(links, b))
  {
    ReachClosed(links, b);
  }

  lemma {:induction false} ExploreNext(links: Links, b: BlockId, goal: set<BlockId>, seen: set<BlockId>, q: seq<BlockId>,
                                       seen': set<BlockId>, q': seq<BlockId>)
    requires Exploring(links, b, goal, seen, q) && Closed(links, goal)
    requires q != [] && Pushed(Next(links, q[0]), seen, q[1..], seen', q')
    ensures Exploring(links, b, goal, seen', q')
    ensures seen' == seen ==> |q'| < |q|
  {
    assert q == [q[0]] + q[1..];
    assert NextIn(links, q[0], goal);
    forall x | x in seen' ensures x in goal && (x in q' || NextIn(links, x, seen')) {
      if x == q[0] {
        assert NextIn(links, x, seen');
      } else if x !in seen {
        assert x in Next(links, q[0]);
      }
    }
  }

  lemma {:induction false} ExploreDone(links: Links, b: BlockId, seen: set<BlockId>)
    requires Exploring(links, b, Reach(links, b), seen, [])
    ensures seen == Reach(links, b)
  {
    ReachLeast(links, b, seen);
  }

  /** The final set while a milestone spreads: everything between `start` and `start` with the cone
      of the approved ids; the parents of an added block are final or waiting. */
  ghost predicate Spreading(links: Links, approved: seq<BlockId>, start: set<BlockId>, final: set<BlockId>, q: seq<BlockId>) {
    && start <= final <= start + Cone(links, approved)
    && (forall x :: x in q ==> x in Cone(links, approved))
    && (forall x :: x in approved ==> x in final || x in q)
    && (forall x :: x in final && x !in start ==> SettledOrWaiting(links, x, final, q))
  }

  ghost predicate SettledOrWaiting(links: Links, x: BlockId, final: set<BlockId>, q: seq<BlockId>) {
    forall y :: y in Next(links, x) ==> y in final || y in q
  }

  lemma {:induction false} StartSpreading(links: Links, approved: seq<BlockId>, start: set<BlockId>)
    ensures Spreading(links, approved, start, start, approved)
  {}

  lemma {:induction false} SpreadNext(links: Links, approved: seq<BlockId>, start: set<BlockId>, final: set<BlockId>, q: seq<BlockId>)
    requires Spreading(links, approved, start, final, q) && q != []
    ensures q[0] in Cone(links, approved)
    ensures q[0] in final ==> Spreading(links, approved, start, final, q[1..])
    ensures q[0] !in final ==> Spreading(links, approved, start, final + {q[0]}, q[1..] + Next(links, q[0]))
  {
    ConeClosed(links, approved);
    assert q == [q[0]] + q[1..];
    var final', q' := final + {q[0]}, q[1..] + Next(links, q[0]);
    forall x | x in final' && x !in start
      ensures SettledOrWaiting(links, x, final', q')
      ensures q[0] in final ==> SettledOrWaiting(links, x, final, q[1..])
    {
      if x != q[0] || q[0] in final { assert SettledOrWaiting(links, x, final, q); }
    }
    assert NextIn(links, q[0], Cone(links, approved));
  }

  lemma {:induction false} SpreadDone(links: Links, approved: seq<BlockId>, start: set<BlockId>, final: set<BlockId>)
    requires Spreading(links, approved, start, final, [])
    ensures start <= final <= start + Cone(links, approved) && forall x :: x in approved ==> x in final
    ensures Closed(links, start) ==> final == start + Cone(links, approved) && Closed(links, final)
  {
    if Closed(links, start) {
      forall x | x in final ensures NextIn(links, x, final) {
        if x in start {
          assert NextIn(links, x, start);
        } else {
          assert SettledOrWaiting(links, x, final, []);
        }
      }
      ConeLeast(links, approved, final);
    }
  }

  lemma {:induction false} ClosedInsert(links: Links, s: set<BlockId>, x: BlockId)
    ensures Closed(links, s) ==> (Closed(links, s + {x}) <==> NextIn(links, x, s + {x}))
  {}

  /** Marking one scanned block if it is deep. */
  lemma {:induction false} ScanNext(start: set<BlockId>, deep: set<BlockId>, rest: set<BlockId>, b: BlockId,
                                    final: set<BlockId>, final': set<BlockId>)
    requires final == start + (deep - rest) && b in rest
    requires final' == if b !in final && b in deep then final + {b} else final
    ensures final' == start + (deep - (rest - {b}))
  {}

  lemma {:induction false} EdgesSplit(blocks: Blocks, kids: set<BlockId>, c: BlockId)
    requires kids <= blocks.Keys && c in blocks && c !in kids
    ensures forall p :: Edges(blocks, kids + {c}, p) == Edges(blocks, kids, p) + Count(blocks[c].parents, p)
  {
    forall p ensures Edges(blocks, kids + {c}, p) == Edges(blocks, kids, p) + Count(blocks[c].parents, p) {
      EdgesRemove(blocks, kids + {c}, p, c);
      assert kids + {c} - {c} == kids;
    }
  }

  /** Child `c` has been counted and indexed under the parents in `linked`. */
  ghost predicate Linked(children: map<BlockId, nat>, idx: Links, c: BlockId, linked: set<BlockId>,
                         children': map<BlockId, nat>, idx': Links)
  {
    && (forall p :: Next(idx', p) == Next(idx, p) + if p in linked then [c] else [])
    && (forall p :: Lookup(children', p).GetOr(0) == Lookup(children, p).GetOr(0) + if p in linked then 1 else 0)
  }

  lemma {:induction false} LinkedNone(children: map<BlockId, nat>, idx: Links, c: BlockId)
    ensures Linked(children, idx, c, {}, children, idx)
  {}

  lemma {:induction false} LinkedOne(children: map<BlockId, nat>, idx: Links, c: BlockId, linked: set<BlockId>,
                                     children': map<BlockId, nat>, idx': Links, p: BlockId)
    requires Linked(children, idx, c, linked, children', idx') && p !in linked
    ensures Linked(children, idx, c, linked + {p},
                   children'[p := Lookup(children', p).GetOr(0) + 1], idx'[p := Next(idx', p) + [c]])
  {
    var more, counts := idx'[p := Next(idx', p) + [c]], children'[p := Lookup(children', p).GetOr(0) + 1];
    forall x ensures Next(more, x) == Next(idx, x) + (if x in linked + {p} then [c] else []) {
      assert Next(more, x) == if x == p then Next(idx', p) + [c] else Next(idx', x);
    }
    forall x ensures Lookup(counts, x).GetOr(0) == Lookup(children, x).GetOr(0) + (if x in linked + {p} then 1 else 0) {
      assert Lookup(counts, x).GetOr(0) == Lookup(children', x).GetOr(0) + (if x == p then 1 else 0);
    }
  }

  lemma {:induction false} LinkedAll(children: map<BlockId, nat>, idx: Links, b: Block, linked: set<BlockId>,
                                     children': map<BlockId, nat>, idx': Links)
    requires Linked(children, idx, b.id, linked, children', idx') && linked == set x | x in b.parents
    ensures forall p, c :: c in Next(idx', p) <==> c in Next(idx, p) || (c == b.id && p in b.parents)
    ensures CountsMatch(children, idx) ==> CountsMatch(children', idx')
  {}

  /** Entries of `c` under `p` from scanning the whole parent list of every block in `scanned`. */
  ghost function ExpectedEntries(blocks: Blocks, scanned: set<BlockId>, p: BlockId, c: BlockId): nat
    requires scanned <= blocks.Keys
  {
    if c in scanned then Count(blocks[c].parents, p) else 0
  }

  /** The index lists each scanned block under each parent as often as the block names it. */
  ghost predicate IndexCounts(blocks: Blocks, idx: Links, scanned: set<BlockId>)
    requires scanned <= blocks.Keys
  {
    && (forall p, c :: Count(Next(idx, p), c) == ExpectedEntries(blocks, scanned, p, c))
    && (forall p :: |Next(idx, p)| == Edges(blocks, scanned, p))
  }

  ghost predicate IndexCountsUpTo(blocks: Blocks, idx: Links, scanned: set<BlockId>, b: BlockId, n: nat) {
    && scanned <= blocks.Keys && b in blocks && b !in scanned && n <= |blocks[b].parents|
    && (forall p, c :: Count(Next(idx, p), c)
                       == ExpectedEntries(blocks, scanned, p, c) + if c == b then Count(blocks[b].parents[..n], p) else 0)
    && (forall p :: |Next(idx, p)| == Edges(blocks, scanned, p) + Count(blocks[b].parents[..n], p))
  }

  lemma {:induction false} NothingIndexed(blocks: Blocks)
    ensures IndexCounts(blocks, map[], {})
  {}

  lemma {:induction false} StartScan(blocks: Blocks, idx: Links, scanned: set<BlockId>, b: BlockId)
    requires scanned <= blocks.Keys && IndexCounts(blocks, idx, scanned) && b in blocks && b !in scanned
    ensures IndexCountsUpTo(blocks, idx, scanned, b, 0)
  {}

  lemma {:induction false} ScanParent(blocks: Blocks, idx: Links, scanned: set<BlockId>, b: BlockId, n: nat)
    requires IndexCountsUpTo(blocks, idx, scanned, b, n) && n < |blocks[b].parents| && blocks[b].id == b
    ensures var p := blocks[b].parents[n];
            IndexCountsUpTo(blocks, idx[p := Next(idx, p) + [blocks[b].id]], scanned, b, n + 1)
  {
    hide ExpectedEntries, Edges;
    var ps, p := blocks[b].parents, blocks[b].parents[n];
    var more := idx[p := Next(idx, p) + [b]];
    CountsStep(ps, n);
    forall q, c ensures Count(Next(more, q), c) == Count(Next(idx, q), c) + if q == p && c == b then 1 else 0 {
      if q == p {
        CountConcat(Next(idx, p), [b], c);
        assert Count([b], c) == if c == b then 1 else 0;
      }
    }
    forall q ensures |Next(more, q)| == |Next(idx, q)| + if q == p then 1 else 0 {}
  }

  lemma {:induction false} FinishScan(blocks: Blocks, idx: Links, scanned: set<BlockId>, b: BlockId, n: nat)
    requires IndexCountsUpTo(blocks, idx, scanned, b, n) && n == |blocks[b].parents|
    ensures IndexCounts(blocks, idx, scanned + {b})
  {
    assert blocks[b].parents[..n] == blocks[b].parents;
    EdgesSplit(blocks, scanned, b);
    forall p, c ensures Count(Next(idx, p), c) == ExpectedEntries(blocks, scanned + {b}, p, c) {}
  }

  /** Exact multiplicities make an exact index. */
  lemma {:induction false} IndexCountsMatch(blocks: Blocks, idx: Links)
    requires IndexCounts(blocks, idx, blocks.Keys)
    ensures IndexMatches(blocks, idx)
  {
    forall p, c ensures c in Next(idx, p) <==> IsChild(blocks, p, c) {
      CountPositive(Next(idx, p), c);
      if c in blocks { CountPositive(blocks[c].parents, p); }
      assert Count(Next(idx, p), c) == ExpectedEntries(blocks, blocks.Keys, p, c);
    }
  }
}
