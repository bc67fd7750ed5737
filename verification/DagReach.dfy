/** What can be reached over adjacency lists: children of children, or parents of parents. */
module DagReach {
  import opened Common
  import opened DagPaths

  type Links = map<BlockId, seq<BlockId>>

  function Next(links: Links, x: BlockId): seq<BlockId> { if x in links then links[x] else [] }

  /** The ids of `w`, in order, are the stops of a walk out of `x`. */
  ghost predicate IsWalk(links: Links, x: BlockId, w: seq<BlockId>)
    decreases |w|
  {
    w == [] || (w[0] in Next(links, x) && IsWalk(links, w[0], w[1..]))
  }

  ghost function Targets(links: Links): set<BlockId> {
    set x, y | x in links && y in links[x] :: y
  }

  ghost predicate Reaches(links: Links, x: BlockId, y: BlockId) {
    exists w: seq<BlockId> :: w != [] && IsWalk(links, x, w) && w[|w| - 1] == y
  }

  /** Everything at the end of a walk of one step or more out of `x`. */
  ghost function Reach(links: Links, x: BlockId): set<BlockId> {
    set y | y in Targets(links) && Reaches(links, x, y)
  }

  ghost predicate NextIn(links: Links, x: BlockId, s: set<BlockId>) {
    forall y :: y in Next(links, x) ==> y in s
  }

  /** No step leaves the set. */
  ghost predicate Closed(links: Links, s: set<BlockId>) {
    forall x :: x in s ==> NextIn(links, x, s)
  }

  lemma {:induction false} WalkEnd(links: Links, x: BlockId, w: seq<BlockId>)
    requires w != [] && IsWalk(links, x, w)
    ensures w[|w| - 1] in Reach(links, x)
  {
    WalkTarget(links, x, w);
  }

  lemma {:induction false} WalkTarget(links: Links, x: BlockId, w: seq<BlockId>)
    requires w != [] && IsWalk(links, x, w)
    ensures w[|w| - 1] in Targets(links)
    decreases |w|
  {
    if |w| > 1 { WalkTarget(links, w[0], w[1..]); }
  }

  lemma {:induction false} WalkExtends(links: Links, x: BlockId, w: seq<BlockId>, z: BlockId)
    requires w != [] && IsWalk(links, x, w) && z in Next(links, w[|w| - 1])
    ensures IsWalk(links, x, w + [z])
    decreases |w|
  {
    assert (w + [z])[1..] == w[1..] + [z];
    if |w| > 1 {
      WalkExtends(links, w[0], w[1..], z);
    } else {
      assert w[1..] + [z] == [z];
      assert IsWalk(links, z, []);
      assert [z][1..] == [];
    }
  }

  /** The reach holds the direct neighbours and no step leaves it. */
  lemma {:induction false} ReachClosed(links: Links, x: BlockId)
    ensures NextIn(links, x, Reach(links, x)) && Closed(links, Reach(links, x))
  {
    forall y | y in Next(links, x) ensures y in Reach(links, x) {
      assert [y][1..] == [];
      assert IsWalk(links, x, [y]);
      WalkEnd(links, x, [y]);
    }
    forall y, z | y in Reach(links, x) && z in Next(links, y) ensures z in Reach(links, x) {
      var w :| w != [] && IsWalk(links, x, w) && w[|w| - 1] == y;
      WalkExtends(links, x, w, z);
      WalkEnd(links, x, w + [z]);
    }
  }

  lemma {:induction false} WalkStays(links: Links, x: BlockId, s: set<BlockId>, w: seq<BlockId>)
    requires NextIn(links, x, s) && Closed(links, s) && w != [] && IsWalk(links, x, w)
    ensures w[|w| - 1] in s
    decreases |w|
  {
    if |w| > 1 { WalkStays(links, w[0], s, w[1..]); }
  }

  /** The reach is the least closed set that holds the direct neighbours. */
  lemma {:induction false} ReachLeast(links: Links, x: BlockId, s: set<BlockId>)
    requires NextIn(links, x, s) && Closed(links, s)
    ensures Reach(links, x) <= s
  {
    forall y | y in Reach(links, x) ensures y in s {
      var w :| w != [] && IsWalk(links, x, w) && w[|w| - 1] == y;
      WalkStays(links, x, s, w);
    }
  }

  lemma {:induction false} ReachTransitive(links: Links, x: BlockId, y: BlockId)
    requires y in Reach(links, x)
    ensures Reach(links, y) <= Reach(links, x)
  {
    ReachClosed(links, x);
    ReachLeast(links, y, Reach(links, x));
  }

  /** Every link of the first graph is a link of the second. */
  ghost predicate Grows(links: Links, more: Links) {
    forall x, y :: y in Next(links, x) ==> y in Next(more, x)
  }

  lemma {:induction false} ReachGrows(links: Links, more: Links, x: BlockId)
    requires Grows(links, more)
    ensures Reach(links, x) <= Reach(more, x)
  {
    ReachClosed(more, x);
    ReachLeast(links, x, Reach(more, x));
  }

  /** `roots` and everything reachable from them. */
  ghost function Cone(links: Links, roots: seq<BlockId>): set<BlockId> {
    (set x | x in roots) + (set x, y | x in roots && y in Reach(links, x) :: y)
  }

  lemma {:induction false} ConeClosed(links: Links, roots: seq<BlockId>)
    ensures Closed(links, Cone(links, roots)) && forall x :: x in roots ==> x in Cone(links, roots)
  {
    forall x, y | x in Cone(links, roots) && y in Next(links, x) ensures y in Cone(links, roots) {
      if x in roots {
        ReachClosed(links, x);
      } else {
        var r :| r in roots && x in Reach(links, r);
        ReachClosed(links, r);
      }
    }
  }

  lemma {:induction false} ConeLeast(links: Links, roots: seq<BlockId>, s: set<BlockId>)
    requires Closed(links, s) && forall x :: x in roots ==> x in s
    ensures Cone(links, roots) <= s
  {
    forall x | x in roots ensures Reach(links, x) <= s { ReachLeast(links, x, s); }
  }

  /** Parent lists of the blocks that are present. */
  ghost function ParentLinks(blocks: Blocks): Links { map b | b in blocks :: blocks[b].parents }

  ghost predicate IsChild(blocks: Blocks, p: BlockId, c: BlockId) { c in blocks && p in blocks[c].parents }

  /** The child index lists exactly the child edges, in any order and multiplicity. */
  ghost predicate IndexMatches(blocks: Blocks, idx: Links) {
    forall p, c :: c in Next(idx, p) <==> IsChild(blocks, p, c)
  }

  /** Blocks that name their parents, seen from below and from above. */
  lemma {:induction false} DescendantsAndAncestors(blocks: Blocks, idx: Links, a: BlockId, b: BlockId)
    requires IndexMatches(blocks, idx)
    ensures b in Reach(idx, a) <==> b in blocks && a in Reach(ParentLinks(blocks), b)
  {
    var up := ParentLinks(blocks);
    if b in Reach(idx, a) {
      DescendantHasAncestor(blocks, idx, a);
    }
    if b in blocks && a in Reach(up, b) {
      AncestorHasDescendant(blocks, idx, b);
    }
  }

  lemma {:induction false} DescendantHasAncestor(blocks: Blocks, idx: Links, a: BlockId)
    requires IndexMatches(blocks, idx)
    ensures forall b :: b in Reach(idx, a) ==> b in blocks && a in Reach(ParentLinks(blocks), b)
  {
    var up := ParentLinks(blocks);
    var s := set b | b in blocks && a in Reach(up, b);
    forall c | c in Next(idx, a) ensures c in s { ReachClosed(up, c); }
    forall b, c | b in s && c in Next(idx, b) ensures c in s {
      ReachClosed(up, c);
      ReachTransitive(up, c, b);
    }
    ReachLeast(idx, a, s);
  }

  lemma {:induction false} AncestorHasDescendant(blocks: Blocks, idx: Links, b: BlockId)
    requires IndexMatches(blocks, idx) && b in blocks
    ensures forall a :: a in Reach(ParentLinks(blocks), b) ==> b in Reach(idx, a)
  {
    var up := ParentLinks(blocks);
    var s := set a | a in Reach(up, b) && b in Reach(idx, a);
    ReachClosed(up, b);
    forall p | p in Next(up, b) ensures p in s { ReachClosed(idx, p); }
    forall a, p | a in s && p in Next(up, a) ensures p in s {
      assert a in blocks;
      ReachClosed(idx, p);
      ReachTransitive(idx, p, a);
    }
    ReachLeast(up, b, s);
  }

  /** In an acyclic graph no block descends from itself. */
  lemma {:induction false} NotItsOwnDescendant(blocks: Blocks, idx: Links, b: BlockId)
    requires IndexMatches(blocks, idx) && Acyclic(blocks) && b in blocks
    ensures b !in Reach(idx, b) && Reach(idx, b) <= blocks.Keys
  {
    var rank :| Ranked(blocks, rank);
    var s := set c | c in blocks && rank[c] < rank[b];
    ReachLeast(idx, b, s);
  }

  /** Blocks with at least `k` distinct strict descendants. */
  ghost function DepthFinal(blocks: Blocks, idx: Links, k: nat): set<BlockId> {
    set b | b in blocks && |Reach(idx, b)| >= k
  }

  /** A block final by depth has all its present ancestors final by depth. */
  lemma {:induction false} DepthFinalUpwards(blocks: Blocks, idx: Links, k: nat, b: BlockId, a: BlockId)
    requires IndexMatches(blocks, idx) && b in DepthFinal(blocks, idx, k)
    requires a in blocks && a in Reach(ParentLinks(blocks), b)
    ensures a in DepthFinal(blocks, idx, k)
  {
    DescendantsAndAncestors(blocks, idx, a, b);
    ReachTransitive(idx, a, b);
    SubsetSize(Reach(idx, b), Reach(idx, a));
  }

  /** More blocks and more child edges never take depth finality away. */
  lemma {:induction false} DepthFinalGrows(blocks: Blocks, idx: Links, later: Blocks, more: Links, k: nat)
    requires blocks.Keys <= later.Keys && Grows(idx, more)
    ensures DepthFinal(blocks, idx, k) <= DepthFinal(later, more, k)
  {
    forall b | b in DepthFinal(blocks, idx, k) ensures b in DepthFinal(later, more, k) {
      ReachGrows(idx, more, b);
      SubsetSize(Reach(idx, b), Reach(more, b));
    }
  }
}
