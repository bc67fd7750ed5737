/** The weight propagation from the tips upwards: what holds between two dequeues, and between
    two parents of one dequeued block. */
module DagWeights {
  import opened Common
  import opened DagPaths

  ghost predicate Distinct(q: seq<BlockId>) {
    forall i, j :: 0 <= i < j < |q| ==> q[i] != q[j]
  }

  /** Addition in 64 bits that sticks at the maximum. */
  function SaturatingAdd(a: nat, b: nat): nat { Min(a + b, U64_MAX) }

  ghost predicate Saturates(weight: map<BlockId, nat>, exact: map<BlockId, nat>) {
    weight.Keys == exact.Keys && forall b :: b in exact ==> weight[b] == Min(exact[b], U64_MAX)
  }

  lemma {:induction false} SaturatesStep(weight: map<BlockId, nat>, exact: map<BlockId, nat>, p: BlockId, w: nat, x: nat)
    requires Saturates(weight, exact) && p in exact && w == Min(x, U64_MAX)
    ensures p in weight
    ensures Saturates(weight[p := SaturatingAdd(weight[p], w)], exact[p := exact[p] + x])
  {}

  /** `done` has been dequeued, `queue` is waiting. A block enters the queue when its last child
      edge from outside `done` is gone; its exact weight then never changes again. */
  ghost predicate Between(blocks: Blocks, done: set<BlockId>, queue: seq<BlockId>,
                          exact: map<BlockId, nat>, degree: map<BlockId, nat>)
  {
    && done <= blocks.Keys && Elems(queue) <= blocks.Keys - done && Distinct(queue)
    && exact.Keys == blocks.Keys && degree.Keys == blocks.Keys
    && (forall p :: p in blocks ==> degree[p] == Edges(blocks, blocks.Keys - done, p))
    && (forall p :: p in blocks ==> exact[p] == 1 + SumKids(blocks, done, exact, p))
    && (forall p :: p in blocks ==> (degree[p] == 0 <==> p in done || p in queue))
  }

  /** Inside the handling of dequeued block `b`, with the first `n` parents processed. `rest` has
      neither `done` nor `b`; `start` holds the exact weights when `b` was dequeued. */
  ghost predicate Within(blocks: Blocks, done: set<BlockId>, b: BlockId, n: nat, queue: seq<BlockId>,
                         start: map<BlockId, nat>, exact: map<BlockId, nat>, degree: map<BlockId, nat>)
  {
    && b in blocks && b !in done && n <= |blocks[b].parents|
    && done <= blocks.Keys && Elems(queue) <= blocks.Keys - done - {b} && Distinct(queue)
    && start.Keys == blocks.Keys && exact.Keys == blocks.Keys && degree.Keys == blocks.Keys
    && (forall p :: p in blocks ==>
          degree[p] == Edges(blocks, blocks.Keys - done - {b}, p)
                       + (Count(blocks[b].parents, p) - Count(blocks[b].parents[..n], p)))
    && (forall p :: p in blocks ==>
          exact[p] == 1 + SumKids(blocks, done, start, p) + Count(blocks[b].parents[..n], p) * start[b])
    && (forall p :: p in blocks ==> (degree[p] == 0 <==> p in done || p == b || p in queue))
  }

  lemma {:induction false} CountPrefixBound(s: seq<BlockId>, n: nat, x: BlockId)
    requires n <= |s|
    ensures Count(s[..n], x) <= Count(s, x)
    ensures n < |s| ==> Count(s[..n], x) + (if s[n] == x then 1 else 0) <= Count(s, x)
    decreases |s| - n
  {
    if n < |s| {
      CountStep(s, n, x);
      CountPrefixBound(s, n + 1, x);
    } else {
      assert s[..n] == s;
    }
  }

  /** Dequeuing a block starts its handling. */
  lemma {:induction false} Dequeue(blocks: Blocks, done: set<BlockId>, queue: seq<BlockId>,
                                   exact: map<BlockId, nat>, degree: map<BlockId, nat>)
    requires Between(blocks, done, queue, exact, degree) && queue != []
    ensures Within(blocks, done, queue[0], 0, queue[1..], exact, exact, degree)
  {
    var b := queue[0];
    assert b in Elems(queue);
    assert queue == [b] + queue[1..];
    forall p | p in blocks ensures degree[p] == Edges(blocks, blocks.Keys - done - {b}, p) + Count(blocks[b].parents, p) {
      EdgesRemove(blocks, blocks.Keys - done, p, b);
    }
    forall x | x in queue[1..] ensures x in Elems(queue) && x != b {
      var i :| 0 <= i < |queue[1..]| && queue[1..][i] == x;
      assert queue[i + 1] == x;
    }
    assert blocks[b].parents[..0] == [];
    forall p | p in blocks ensures Count(blocks[b].parents[..0], p) * exact[b] == 0 {
      OneMore(0, exact[b]);
    }
  }

  lemma {:induction false} CountsStep(ps: seq<BlockId>, n: nat)
    requires n < |ps|
    ensures forall x :: Count(ps[..n + 1], x) == Count(ps[..n], x) + (if x == ps[n] then 1 else 0)
                     && Count(ps[..n + 1], x) <= Count(ps, x)
  {
    forall x ensures Count(ps[..n + 1], x) == Count(ps[..n], x) + (if x == ps[n] then 1 else 0)
                     && Count(ps[..n + 1], x) <= Count(ps, x)
    {
      CountStep(ps, n, x);
      CountPrefixBound(ps, n, x);
    }
  }

  lemma {:induction false} Enqueue(queue: seq<BlockId>, p: BlockId)
    ensures Elems(queue + [p]) == Elems(queue) + {p}
    ensures Distinct(queue) && p !in queue ==> Distinct(queue + [p])
    ensures p in Elems(queue) <==> p in queue
  {}

  /** A parent outside the graph is ignored. */
  lemma {:induction false} AbsentParent(blocks: Blocks, done: set<BlockId>, b: BlockId, n: nat, queue: seq<BlockId>,
                                        start: map<BlockId, nat>, exact: map<BlockId, nat>, degree: map<BlockId, nat>)
    requires Within(blocks, done, b, n, queue, start, exact, degree) && n < |blocks[b].parents|
    requires blocks[b].parents[n] !in blocks
    ensures Within(blocks, done, b, n + 1, queue, start, exact, degree)
  {
    CountsStep(blocks[b].parents, n);
  }

  /** A present parent gains the child's weight and loses one outstanding edge, and joins the
      queue when that was the last. */
  lemma {:induction false} PresentParent(blocks: Blocks, done: set<BlockId>, b: BlockId, n: nat, queue: seq<BlockId>,
                                         start: map<BlockId, nat>, exact: map<BlockId, nat>, degree: map<BlockId, nat>,
                                         p: BlockId)
    requires Within(blocks, done, b, n, queue, start, exact, degree) && n < |blocks[b].parents|
    requires p == blocks[b].parents[n] && p in blocks
    ensures p in exact && b in start && p in degree && degree[p] > 0 && p !in done && p != b
    ensures degree[p] == 1 ==>
              Within(blocks, done, b, n + 1, queue + [p], start, exact[p := exact[p] + start[b]], degree[p := degree[p] - 1])
    ensures degree[p] != 1 ==>
              Within(blocks, done, b, n + 1, queue, start, exact[p := exact[p] + start[b]], degree[p := degree[p] - 1])
  {
    CountsStep(blocks[b].parents, n);
    ParentGains(blocks, done, b, n, queue, start, exact, degree);
    Enqueue(queue, p);
  }

  lemma {:induction false} ParentGains(blocks: Blocks, done: set<BlockId>, b: BlockId, n: nat, queue: seq<BlockId>,
                                       start: map<BlockId, nat>, exact: map<BlockId, nat>, degree: map<BlockId, nat>)
    requires Within(blocks, done, b, n, queue, start, exact, degree) && n < |blocks[b].parents|
    requires blocks[b].parents[n] in blocks
    ensures var ps, p := blocks[b].parents, blocks[b].parents[n];
            && degree[p] > 0
            && exact[p] + start[b] == 1 + SumKids(blocks, done, start, p) + Count(ps[..n + 1], p) * start[b]
  {
    var ps, p := blocks[b].parents, blocks[b].parents[n];
    CountStep(ps, n, p);
    CountPrefixBound(ps, n, p);
    OneMore(Count(ps[..n], p), start[b]);
  }

  /** After the last parent the block counts as done. */
  lemma {:induction false} FinishBlock(blocks: Blocks, done: set<BlockId>, b: BlockId, n: nat, queue: seq<BlockId>,
                                       start: map<BlockId, nat>, exact: map<BlockId, nat>, degree: map<BlockId, nat>)
    requires Within(blocks, done, b, n, queue, start, exact, degree) && n == |blocks[b].parents|
    requires forall c :: (c in done || c == b) && c in exact && c in start ==> exact[c] == start[c]
    ensures Between(blocks, done + {b}, queue, exact, degree)
  {
    var ps := blocks[b].parents;
    assert ps[..|ps|] == ps;
    assert blocks.Keys - done - {b} == blocks.Keys - (done + {b});
    forall p | p in blocks ensures exact[p] == 1 + SumKids(blocks, done + {b}, exact, p) {
      SumKidsRemove(blocks, done + {b}, exact, p, b);
      assert done + {b} - {b} == done;
      SumKidsAgree(blocks, done, start, exact, p);
    }
  }

  /** When the queue is empty an acyclic graph has been drained completely, and the exact weights
      solve the weight equation. */
  lemma {:induction false} Drained(blocks: Blocks, done: set<BlockId>, exact: map<BlockId, nat>, degree: map<BlockId, nat>)
    requires Between(blocks, done, [], exact, degree) && Acyclic(blocks)
    ensures done == blocks.Keys && Solves(blocks, exact)
  {
    var rank :| Ranked(blocks, rank);
    if blocks.Keys - done != {} {
      var b := Unblocked(blocks, blocks.Keys - done, rank);
      assert false;
    }
    assert done == blocks.Keys;
  }

  /** In an acyclic graph every non-empty set of blocks has one without children inside. */
  lemma {:induction false} Unblocked(blocks: Blocks, rest: set<BlockId>, rank: map<BlockId, nat>) returns (b: BlockId)
    requires Ranked(blocks, rank) && rest <= blocks.Keys && rest != {}
    ensures b in rest && Edges(blocks, rest, b) == 0
  {
    b := Lowest(rest, rank);
    EdgesZero(blocks, rest, b);
  }

  lemma {:induction false} Lowest(s: set<BlockId>, rank: map<BlockId, nat>) returns (b: BlockId)
    requires s != {} && s <= rank.Keys
    ensures b in s && forall c :: c in s ==> rank[b] <= rank[c]
    decreases |s|
  {
    b :| b in s;
    if s - {b} != {} {
      var c := Lowest(s - {b}, rank);
      if rank[c] < rank[b] { b := c; }
    }
  }

  /** Between two dequeues, with the stored 64-bit weights. */
  ghost predicate Waiting(blocks: Blocks, done: set<BlockId>, queue: seq<BlockId>,
                          exact: map<BlockId, nat>, degree: map<BlockId, nat>, weight: map<BlockId, nat>)
  {
    Between(blocks, done, queue, exact, degree) && Saturates(weight, exact)
  }

  /** While `b` delivers its weight `w` to its parents. The blocks dequeued so far keep theirs. */
  ghost predicate Delivering(blocks: Blocks, done: set<BlockId>, b: BlockId, n: nat, queue: seq<BlockId>, start: map<BlockId, nat>,
                             exact: map<BlockId, nat>, degree: map<BlockId, nat>, weight: map<BlockId, nat>, w: nat)
  {
    && Within(blocks, done, b, n, queue, start, exact, degree) && Saturates(weight, exact) && w == Min(start[b], U64_MAX)
    && forall c :: (c in done || c == b) && c in exact && c in start ==> exact[c] == start[c]
  }

  lemma {:induction false} StartWaiting(blocks: Blocks, q: seq<BlockId>, degree: map<BlockId, nat>, weight: map<BlockId, nat>)
    requires degree.Keys == blocks.Keys && Distinct(q)
    requires forall p :: p in blocks ==> degree[p] == Edges(blocks, blocks.Keys, p)
    requires forall x :: x in q <==> x in degree && degree[x] == 0
    requires weight == map id | id in blocks :: 1
    ensures Waiting(blocks, Elems<BlockId>([]), q, Ones(blocks), degree, weight)
  {
    assert Elems<BlockId>([]) == {};
    assert blocks.Keys - {} == blocks.Keys;
  }

  lemma {:induction false} StartDelivering(blocks: Blocks, done: set<BlockId>, queue: seq<BlockId>,
                                           exact: map<BlockId, nat>, degree: map<BlockId, nat>, weight: map<BlockId, nat>)
    requires Waiting(blocks, done, queue, exact, degree, weight) && queue != []
    ensures queue[0] in blocks && queue[0] !in done
    ensures queue[0] in weight
         && Delivering(blocks, done, queue[0], 0, queue[1..], exact, exact, degree, weight, weight[queue[0]])
  {
    Dequeue(blocks, done, queue, exact, degree);
  }

  lemma {:induction false} DeliverAbsent(blocks: Blocks, done: set<BlockId>, b: BlockId, n: nat, queue: seq<BlockId>,
                                         start: map<BlockId, nat>, exact: map<BlockId, nat>, degree: map<BlockId, nat>,
                                         weight: map<BlockId, nat>, w: nat)
    requires Delivering(blocks, done, b, n, queue, start, exact, degree, weight, w) && n < |blocks[b].parents|
    requires blocks[b].parents[n] !in blocks
    ensures Delivering(blocks, done, b, n + 1, queue, start, exact, degree, weight, w)
  {
    AbsentParent(blocks, done, b, n, queue, start, exact, degree);
  }

  lemma {:induction false} DeliverPresent(blocks: Blocks, done: set<BlockId>, b: BlockId, n: nat, queue: seq<BlockId>,
                                          start: map<BlockId, nat>, exact: map<BlockId, nat>, degree: map<BlockId, nat>,
                                          weight: map<BlockId, nat>, w: nat, p: BlockId)
    requires Delivering(blocks, done, b, n, queue, start, exact, degree, weight, w) && n < |blocks[b].parents|
    requires p == blocks[b].parents[n] && p in blocks
    ensures p in weight && p in exact && b in start && p in degree && degree[p] > 0
    ensures degree[p] == 1 ==>
              Delivering(blocks, done, b, n + 1, queue + [p], start, exact[p := exact[p] + start[b]],
                         degree[p := degree[p] - 1], weight[p := SaturatingAdd(weight[p], w)], w)
    ensures degree[p] != 1 ==>
              Delivering(blocks, done, b, n + 1, queue, start, exact[p := exact[p] + start[b]],
                         degree[p := degree[p] - 1], weight[p := SaturatingAdd(weight[p], w)], w)
  {
    hide Within, Saturates;
    PresentParent(blocks, done, b, n, queue, start, exact, degree, p);
    SaturatesStep(weight, exact, p, w, start[b]);
    Credited(start, exact, done + {b}, p, exact[p] + start[b]);
  }

  lemma {:induction false} Credited(start: map<BlockId, nat>, exact: map<BlockId, nat>, kept: set<BlockId>, p: BlockId, x: nat)
    requires p !in kept && forall c :: c in kept && c in exact && c in start ==> exact[c] == start[c]
    ensures forall c :: c in kept && c in exact[p := x] && c in start ==> exact[p := x][c] == start[c]
  {}

  lemma {:induction false} FinishDelivering(blocks: Blocks, done: set<BlockId>, b: BlockId, n: nat, queue: seq<BlockId>,
                                            start: map<BlockId, nat>, exact: map<BlockId, nat>, degree: map<BlockId, nat>,
                                            weight: map<BlockId, nat>, w: nat)
    requires Delivering(blocks, done, b, n, queue, start, exact, degree, weight, w) && n == |blocks[b].parents|
    ensures Waiting(blocks, done + {b}, queue, exact, degree, weight)
  {
    FinishBlock(blocks, done, b, n, queue, start, exact, degree);
  }

  lemma {:induction false} AllDelivered(blocks: Blocks, done: set<BlockId>, exact: map<BlockId, nat>, degree: map<BlockId, nat>,
                                        weight: map<BlockId, nat>)
    requires Waiting(blocks, done, [], exact, degree, weight)
    ensures weight.Keys == blocks.Keys && done <= blocks.Keys
    ensures Acyclic(blocks) ==> done == blocks.Keys
    ensures Acyclic(blocks) ==> forall b :: b in blocks ==> weight[b] == Min(PathCount(blocks, b), U64_MAX)
  {
    if Acyclic(blocks) {
      Drained(blocks, done, exact, degree);
      forall b | b in blocks ensures weight[b] == Min(PathCount(blocks, b), U64_MAX) {
        SolutionIsPathCount(blocks, exact, b);
      }
    }
  }
}
