/** Descending paths in a block graph and the weight equation they solve. Edges are counted
    with multiplicity: a block may name the same parent twice. */
module DagPaths {
  import opened Common

  datatype Payload = Milestone(approved: seq<BlockId>) | OtherPayload

  datatype Block = Block(id: BlockId, parents: seq<BlockId>, payload: Payload)

  type Blocks = map<BlockId, Block>

  const U64_MAX: nat := 0xFFFF_FFFF_FFFF_FFFF

  /** Edges from parent `p` to the children in `kids`, each worth the child's entry in `w`. */
  ghost function SumKids(blocks: Blocks, kids: set<BlockId>, w: map<BlockId, nat>, p: BlockId): nat
    requires kids <= blocks.Keys && kids <= w.Keys
    decreases |kids|
  {
    if kids == {} then 0
    else
      var c :| c in kids;
      Count(blocks[c].parents, p) * w[c] + SumKids(blocks, kids - {c}, w, p)
  }

  lemma {:induction false} SumKidsRemove(blocks: Blocks, kids: set<BlockId>, w: map<BlockId, nat>, p: BlockId, c: BlockId)
    requires kids <= blocks.Keys && kids <= w.Keys && c in kids
    ensures SumKids(blocks, kids, w, p) == Count(blocks[c].parents, p) * w[c] + SumKids(blocks, kids - {c}, w, p)
    decreases |kids|
  {
    var d :| d in kids && SumKids(blocks, kids, w, p) == Count(blocks[d].parents, p) * w[d] + SumKids(blocks, kids - {d}, w, p);
    if d != c {
      SumKidsRemove(blocks, kids - {d}, w, p, c);
      SumKidsRemove(blocks, kids - {c}, w, p, d);
      assert kids - {d} - {c} == kids - {c} - {d};
    }
  }

  lemma {:induction false} SumKidsAgree(blocks: Blocks, kids: set<BlockId>, w: map<BlockId, nat>, v: map<BlockId, nat>, p: BlockId)
    requires kids <= blocks.Keys && kids <= w.Keys && kids <= v.Keys
    requires forall c :: c in kids ==> w[c] == v[c]
    ensures SumKids(blocks, kids, w, p) == SumKids(blocks, kids, v, p)
    decreases |kids|
  {
    if kids != {} {
      var c :| c in kids;
      SumKidsRemove(blocks, kids, w, p, c);
      SumKidsRemove(blocks, kids, v, p, c);
      SumKidsAgree(blocks, kids - {c}, w, v, p);
    }
  }

  ghost function Ones(blocks: Blocks): map<BlockId, nat> {
    map c | c in blocks :: 1
  }

  /** Number of child edges of `p` from `kids`. */
  ghost function Edges(blocks: Blocks, kids: set<BlockId>, p: BlockId): nat
    requires kids <= blocks.Keys
  {
    SumKids(blocks, kids, Ones(blocks), p)
  }

  lemma {:induction false} EdgesRemove(blocks: Blocks, kids: set<BlockId>, p: BlockId, c: BlockId)
    requires kids <= blocks.Keys && c in kids
    ensures Edges(blocks, kids, p) == Count(blocks[c].parents, p) + Edges(blocks, kids - {c}, p)
  {
    SumKidsRemove(blocks, kids, Ones(blocks), p, c);
  }

  lemma {:induction false} EdgesZero(blocks: Blocks, kids: set<BlockId>, p: BlockId)
    requires kids <= blocks.Keys
    ensures Edges(blocks, kids, p) == 0 <==> forall c :: c in kids ==> p !in blocks[c].parents
    decreases |kids|
  {
    if kids != {} {
      var c :| c in kids;
      EdgesRemove(blocks, kids, p, c);
      CountPositive(blocks[c].parents, p);
      EdgesZero(blocks, kids - {c}, p);
    }
  }

  /** A strict rank from parents down to children; its existence is acyclicity. */
  ghost predicate Ranked(blocks: Blocks, rank: map<BlockId, nat>) {
    && rank.Keys == blocks.Keys
    && forall c, p :: c in blocks && p in blocks && p in blocks[c].parents ==> rank[c] < rank[p]
  }

  ghost predicate Acyclic(blocks: Blocks) {
    exists rank :: Ranked(blocks, rank)
  }

  /** One step down: a child and the slot of its parent list that is followed. */
  type Path = seq<(BlockId, nat)>

  ghost predicate StepDown(blocks: Blocks, b: BlockId, c: BlockId, slot: nat) {
    c in blocks && slot < |blocks[c].parents| && blocks[c].parents[slot] == b
  }

  /** A descending path from `b`; the empty path counts as well. */
  ghost predicate IsPath(blocks: Blocks, b: BlockId, p: Path)
    decreases |p|
  {
    p == [] || (StepDown(blocks, b, p[0].0, p[0].1) && IsPath(blocks, p[0].0, p[1..]))
  }

  /** The paths of `ps`, each with one step put in front. */
  ghost function Prefixed(x: (BlockId, nat), ps: set<Path>): set<Path> {
    set p | p in ps :: [x] + p
  }

  lemma {:induction false} PrefixedMember(x: (BlockId, nat), ps: set<Path>, q: Path)
    ensures q in Prefixed(x, ps) <==> q != [] && q[0] == x && q[1..] in ps
  {
    if q != [] && q[0] == x {
      assert q == [x] + q[1..];
    }
  }

  /** Prefixing every path of a set by one step keeps its size. */
  lemma {:induction false} PrefixedSize(x: (BlockId, nat), ps: set<Path>)
    ensures |Prefixed(x, ps)| == |ps|
    decreases |ps|
  {
    if ps != {} {
      var p :| p in ps;
      PrefixedSize(x, ps - {p});
      PrefixedMember(x, ps - {p}, [x] + p);
      assert ([x] + p)[1..] == p;
      assert Prefixed(x, ps) == Prefixed(x, ps - {p}) + {[x] + p};
    }
  }

  /** Paths through child `c`: one copy of `ps` for each of its first `n` slots that names `b`. */
  ghost function SlotPaths(blocks: Blocks, b: BlockId, c: BlockId, n: nat, ps: set<Path>): set<Path>
    requires c in blocks && n <= |blocks[c].parents|
  {
    if n == 0 then {}
    else
      SlotPaths(blocks, b, c, n - 1, ps)
      + (if blocks[c].parents[n - 1] == b then Prefixed((c, n - 1), ps) else {})
  }

  lemma {:induction false} SlotMember(blocks: Blocks, b: BlockId, c: BlockId, n: nat, ps: set<Path>, q: Path)
    requires c in blocks && n <= |blocks[c].parents|
    ensures q in SlotPaths(blocks, b, c, n, ps)
            <==> q != [] && q[0].0 == c && q[0].1 < n && blocks[c].parents[q[0].1] == b && q[1..] in ps
  {
    if n > 0 {
      SlotMember(blocks, b, c, n - 1, ps, q);
      PrefixedMember((c, n - 1), ps, q);
    }
  }

  lemma {:induction false} OneMore(k: nat, m: nat)
    ensures (k + 1) * m == k * m + m && 0 * m == 0
  {}

  lemma {:induction false} OneMoreCopy(k: nat, m: nat, size: nat, k': nat, size': nat)
    requires size == k * m
    requires (k' == k && size' == size) || (k' == k + 1 && size' == size + m)
    ensures size' == k' * m
  {}

  lemma {:induction false} SlotsDisjoint(blocks: Blocks, b: BlockId, c: BlockId, n: nat, ps: set<Path>)
    requires c in blocks && n < |blocks[c].parents|
    ensures SlotPaths(blocks, b, c, n, ps) !! Prefixed((c, n), ps)
  {
    forall q | q in SlotPaths(blocks, b, c, n, ps) ensures q !in Prefixed((c, n), ps) {
      SlotMember(blocks, b, c, n, ps, q);
      PrefixedMember((c, n), ps, q);
    }
  }

  lemma {:induction false} CountStep(s: seq<BlockId>, n: nat, x: BlockId)
    requires n < |s|
    ensures Count(s[..n + 1], x) == Count(s[..n], x) + (if s[n] == x then 1 else 0)
  {
    assert s[..n + 1][..n] == s[..n];
  }

  lemma {:induction false} SlotStep(blocks: Blocks, b: BlockId, c: BlockId, n: nat, ps: set<Path>)
    requires c in blocks && n < |blocks[c].parents|
    ensures |SlotPaths(blocks, b, c, n + 1, ps)|
            == |SlotPaths(blocks, b, c, n, ps)| + (if blocks[c].parents[n] == b then |ps| else 0)
  {
    if blocks[c].parents[n] == b {
      PrefixedSize((c, n), ps);
      SlotsDisjoint(blocks, b, c, n, ps);
    } else {
      assert SlotPaths(blocks, b, c, n + 1, ps) == SlotPaths(blocks, b, c, n, ps);
    }
  }

  /** One copy of `ps` for each slot that names `b`. */
  lemma {:induction false} SlotsSize(blocks: Blocks, b: BlockId, c: BlockId, n: nat, ps: set<Path>)
    requires c in blocks && n <= |blocks[c].parents|
    ensures |SlotPaths(blocks, b, c, n, ps)| == Count(blocks[c].parents[..n], b) * |ps|
  {
    if n > 0 {
      SlotStep(blocks, b, c, n - 1, ps);
      SlotsSize(blocks, b, c, n - 1, ps);
      CountStep(blocks[c].parents, n - 1, b);
      OneMoreCopy(Count(blocks[c].parents[..n - 1], b), |ps|, |SlotPaths(blocks, b, c, n - 1, ps)|,
                  Count(blocks[c].parents[..n], b), |SlotPaths(blocks, b, c, n, ps)|);
    } else {
      assert blocks[c].parents[..0] == [];
      OneMore(0, |ps|);
    }
  }

  /** All descending paths of `b`, by recursion towards the tips. */
  ghost function PathSet(blocks: Blocks, rank: map<BlockId, nat>, b: BlockId): set<Path>
    requires Ranked(blocks, rank) && b in blocks
    decreases rank[b], 1
  {
    {[]} + PathsVia(blocks, rank, b, blocks.Keys)
  }

  ghost function PathsVia(blocks: Blocks, rank: map<BlockId, nat>, b: BlockId, kids: set<BlockId>): set<Path>
    requires Ranked(blocks, rank) && b in blocks && kids <= blocks.Keys
    decreases rank[b], 0, |kids|
  {
    if kids == {} then {}
    else
      var c :| c in kids;
      PathsVia(blocks, rank, b, kids - {c})
      + (if b in blocks[c].parents then SlotPaths(blocks, b, c, |blocks[c].parents|, PathSet(blocks, rank, c)) else {})
  }

  lemma {:induction false} ViaMember(blocks: Blocks, rank: map<BlockId, nat>, b: BlockId, kids: set<BlockId>, q: Path)
    requires Ranked(blocks, rank) && b in blocks && kids <= blocks.Keys
    ensures q in PathsVia(blocks, rank, b, kids)
            <==> q != [] && q[0].0 in kids && StepDown(blocks, b, q[0].0, q[0].1) && q[1..] in PathSet(blocks, rank, q[0].0)
    decreases |kids|
  {
    if kids != {} {
      var c :| c in kids && PathsVia(blocks, rank, b, kids) ==
        PathsVia(blocks, rank, b, kids - {c})
        + (if b in blocks[c].parents then SlotPaths(blocks, b, c, |blocks[c].parents|, PathSet(blocks, rank, c)) else {});
      ViaMember(blocks, rank, b, kids - {c}, q);
      if b in blocks[c].parents {
        SlotMember(blocks, b, c, |blocks[c].parents|, PathSet(blocks, rank, c), q);
      }
    }
  }

  /** The set is exactly the descending paths. */
  lemma {:induction false} PathSetSpec(blocks: Blocks, rank: map<BlockId, nat>, b: BlockId, p: Path)
    requires Ranked(blocks, rank) && b in blocks
    ensures p in PathSet(blocks, rank, b) <==> IsPath(blocks, b, p)
    decreases |p|
  {
    ViaMember(blocks, rank, b, blocks.Keys, p);
    if p != [] && p[0].0 in blocks {
      PathSetSpec(blocks, rank, p[0].0, p[1..]);
    }
  }

  /** Sizes of the path sets, as a weight map. */
  ghost function PathCounts(blocks: Blocks, rank: map<BlockId, nat>): map<BlockId, nat>
    requires Ranked(blocks, rank)
  {
    map b | b in blocks :: |PathSet(blocks, rank, b)|
  }

  lemma {:induction false} ViaSize(blocks: Blocks, rank: map<BlockId, nat>, b: BlockId, kids: set<BlockId>)
    requires Ranked(blocks, rank) && b in blocks && kids <= blocks.Keys
    ensures |PathsVia(blocks, rank, b, kids)| == SumKids(blocks, kids, PathCounts(blocks, rank), b)
    decreases |kids|
  {
    if kids != {} {
      var c, here := ViaSplit(blocks, rank, b, kids);
      SumKidsRemove(blocks, kids, PathCounts(blocks, rank), b, c);
      ViaSize(blocks, rank, b, kids - {c});
    }
  }

  lemma {:induction false} ViaSplit(blocks: Blocks, rank: map<BlockId, nat>, b: BlockId, kids: set<BlockId>)
    returns (c: BlockId, here: set<Path>)
    requires Ranked(blocks, rank) && b in blocks && kids <= blocks.Keys && kids != {}
    ensures c in kids && PathsVia(blocks, rank, b, kids) == PathsVia(blocks, rank, b, kids - {c}) + here
    ensures PathsVia(blocks, rank, b, kids - {c}) !! here
    ensures |here| == Count(blocks[c].parents, b) * PathCounts(blocks, rank)[c]
  {
    c :| c in kids && PathsVia(blocks, rank, b, kids) ==
      PathsVia(blocks, rank, b, kids - {c})
      + (if b in blocks[c].parents then SlotPaths(blocks, b, c, |blocks[c].parents|, PathSet(blocks, rank, c)) else {});
    CountPositive(blocks[c].parents, b);
    if b in blocks[c].parents {
      here := SlotPaths(blocks, b, c, |blocks[c].parents|, PathSet(blocks, rank, c));
      ChildPaths(blocks, rank, b, kids - {c}, c);
    } else {
      here := {};
      OneMore(0, PathCounts(blocks, rank)[c]);
    }
  }

  lemma {:induction false} ChildPaths(blocks: Blocks, rank: map<BlockId, nat>, b: BlockId, others: set<BlockId>, c: BlockId)
    requires Ranked(blocks, rank) && b in blocks && others <= blocks.Keys && c in blocks && c !in others
    ensures var here := SlotPaths(blocks, b, c, |blocks[c].parents|, PathSet(blocks, rank, c));
            && PathsVia(blocks, rank, b, others) !! here
            && |here| == Count(blocks[c].parents, b) * PathCounts(blocks, rank)[c]
  {
    var n := |blocks[c].parents|;
    var here := SlotPaths(blocks, b, c, n, PathSet(blocks, rank, c));
    SlotsSize(blocks, b, c, n, PathSet(blocks, rank, c));
    assert blocks[c].parents[..n] == blocks[c].parents;
    forall q | q in PathsVia(blocks, rank, b, others) ensures q !in here {
      ViaMember(blocks, rank, b, others, q);
      SlotMember(blocks, b, c, n, PathSet(blocks, rank, c), q);
    }
  }

  /** Every block's weight is one more than the weighted sum over its children. */
  ghost predicate Solves(blocks: Blocks, w: map<BlockId, nat>) {
    && w.Keys == blocks.Keys
    && forall b :: b in blocks ==> w[b] == 1 + SumKids(blocks, blocks.Keys, w, b)
  }

  /** Path counts solve the weight equation. */
  lemma {:induction false} PathCountsSolve(blocks: Blocks, rank: map<BlockId, nat>)
    requires Ranked(blocks, rank)
    ensures Solves(blocks, PathCounts(blocks, rank))
  {
    forall b | b in blocks
      ensures PathCounts(blocks, rank)[b] == 1 + SumKids(blocks, blocks.Keys, PathCounts(blocks, rank), b)
    {
      ViaSize(blocks, rank, b, blocks.Keys);
      var via := PathsVia(blocks, rank, b, blocks.Keys);
      ViaMember(blocks, rank, b, blocks.Keys, []);
      assert PathSet(blocks, rank, b) == {[]} + via;
    }
  }

  lemma {:induction false} SumKidsSame(blocks: Blocks, kids: set<BlockId>, w: map<BlockId, nat>, v: map<BlockId, nat>, p: BlockId)
    requires kids <= blocks.Keys && kids <= w.Keys && kids <= v.Keys
    requires forall c :: c in kids && p in blocks[c].parents ==> w[c] == v[c]
    ensures SumKids(blocks, kids, w, p) == SumKids(blocks, kids, v, p)
    decreases |kids|
  {
    if kids != {} {
      var c :| c in kids;
      SumKidsRemove(blocks, kids, w, p, c);
      SumKidsRemove(blocks, kids, v, p, c);
      CountPositive(blocks[c].parents, p);
      SumKidsSame(blocks, kids - {c}, w, v, p);
    }
  }

  /** On an acyclic graph the weight equation has one solution. */
  lemma {:induction false} SolutionUnique(blocks: Blocks, rank: map<BlockId, nat>, w: map<BlockId, nat>, v: map<BlockId, nat>, b: BlockId)
    requires Ranked(blocks, rank) && Solves(blocks, w) && Solves(blocks, v) && b in blocks
    ensures w[b] == v[b]
    decreases rank[b]
  {
    forall c | c in blocks && b in blocks[c].parents ensures w[c] == v[c] {
      SolutionUnique(blocks, rank, w, v, c);
    }
    SumKidsSame(blocks, blocks.Keys, w, v, b);
  }

  /** Number of descending paths of a block, the empty one included. */
  ghost function PathCount(blocks: Blocks, b: BlockId): nat
    requires Acyclic(blocks) && b in blocks
  {
    var rank :| Ranked(blocks, rank);
    |PathSet(blocks, rank, b)|
  }

  lemma {:induction false} SolutionIsPathCount(blocks: Blocks, w: map<BlockId, nat>, b: BlockId)
    requires Acyclic(blocks) && Solves(blocks, w) && b in blocks
    ensures w[b] == PathCount(blocks, b)
  {
    var rank :| Ranked(blocks, rank) && PathCount(blocks, b) == |PathSet(blocks, rank, b)|;
    PathCountsSolve(blocks, rank);
    SolutionUnique(blocks, rank, w, PathCounts(blocks, rank), b);
  }
}
