/**
 * The node-numbering scheme of the network and the legal parent/child
 * relations between node slots, as FormulaBuilder's list helpers build them.
 *
 * Slots are integers in [0, NodeCount):
 *   - leaves        [0, n)
 *   - tree nodes    [n, treeNodesCount), the root being treeNodesCount - 1
 *   - reticulations [treeNodesCount, treeNodesCount + k)
 * with treeNodesCount = 2n - 1 + k.
 */
module Topology {
  import opened Wrappers

  /** The encoder's shape parameters: taxa count, reticulation budget and
      whether a reticulation may hang below another reticulation. */
  datatype Config = Config(n: nat, k: nat, linkReticulations: bool)

  datatype TopologyError = NodeOutOfBounds

  function TreeNodesCount(c: Config): (r: int) { 2 * c.n - 1 + c.k }

  function NodeCount(c: Config): (r: int) { TreeNodesCount(c) + c.k }

  function Root(c: Config): (r: int) { TreeNodesCount(c) - 1 }

  predicate IsLeaf(c: Config, v: int) { 0 <= v < c.n }

  predicate IsTreeNode(c: Config, v: int) { c.n <= v < TreeNodesCount(c) }

  predicate IsReticulation(c: Config, v: int) { TreeNodesCount(c) <= v < NodeCount(c) }

  predicate Increasing(s: seq<int>) {
    forall i, j :: 0 <= i < j < |s| ==> s[i] < s[j]
  }

  /** The ascending integers of [lo, hi). */
  function Range(lo: int, hi: int): (r: seq<int>)
    decreases hi - lo
  {
    if hi <= lo then [] else Range(lo, hi - 1) + [hi - 1]
  }

  lemma {:induction false} RangeIndex(lo: int, hi: int)
    ensures |Range(lo, hi)| == if hi <= lo then 0 else hi - lo
    ensures forall i :: 0 <= i < |Range(lo, hi)| ==> Range(lo, hi)[i] == lo + i
    decreases hi - lo
  {
    if lo < hi {
      RangeIndex(lo, hi - 1);
    }
  }

  lemma RangeMembers(lo: int, hi: int)
    ensures Increasing(Range(lo, hi))
    ensures forall w :: w in Range(lo, hi) <==> lo <= w < hi
  {
    RangeIndex(lo, hi);
    var r := Range(lo, hi);
    forall w | lo <= w < hi ensures w in r {
      assert r[w - lo] == w;
    }
  }

  function AllNodes(c: Config): (r: seq<int>) { Range(0, NodeCount(c)) }

  function TreeNodes(c: Config): (r: seq<int>) { Range(c.n, TreeNodesCount(c)) }

  function ReticulationNodes(c: Config): (r: seq<int>) { Range(TreeNodesCount(c), NodeCount(c)) }

  /** The three ranges split every slot into exactly one kind, in ascending order. */
  lemma NodeRanges(c: Config, w: int)
    ensures w in AllNodes(c) <==> 0 <= w < NodeCount(c)
    ensures w in TreeNodes(c) <==> IsTreeNode(c, w)
    ensures w in ReticulationNodes(c) <==> IsReticulation(c, w)
    ensures 0 <= w < NodeCount(c) ==>
              (IsLeaf(c, w) || IsTreeNode(c, w) || IsReticulation(c, w))
    ensures Increasing(AllNodes(c)) && Increasing(TreeNodes(c)) && Increasing(ReticulationNodes(c))
  {
    RangeMembers(0, NodeCount(c));
    RangeMembers(c.n, TreeNodesCount(c));
    RangeMembers(TreeNodesCount(c), NodeCount(c));
  }

  /** The filter a list-building loop applies to a candidate id. */
  datatype Query = ChildOf(v: int) | ParentOf(v: int)

  predicate Admits(c: Config, q: Query, w: int) {
    match q
    case ChildOf(v) =>
      if v < TreeNodesCount(c) then w < v || w >= TreeNodesCount(c)
      else w < TreeNodesCount(c) - 1 || (c.linkReticulations && w < v)
    case ParentOf(v) =>
      if v < c.n then true
      else if v < TreeNodesCount(c) then v < w
      else w < TreeNodesCount(c) || (c.linkReticulations && v < w)
  }

  /** The ids of [lo, hi) that q admits, ascending: the loop
      `for w in lo..hi-1: if admits(w): ans.add(w)`. */
  function Scan(c: Config, q: Query, lo: int, hi: int): (r: seq<int>)
    decreases hi - lo
  {
    if hi <= lo then []
    else Scan(c, q, lo, hi - 1) + (if Admits(c, q, hi - 1) then [hi - 1] else [])
  }

  lemma {:induction false} ScanMembers(c: Config, q: Query, lo: int, hi: int)
    ensures Increasing(Scan(c, q, lo, hi))
    ensures forall w :: w in Scan(c, q, lo, hi) <==> lo <= w < hi && Admits(c, q, w)
    decreases hi - lo
  {
    if lo < hi {
      ScanMembers(c, q, lo, hi - 1);
      var s := Scan(c, q, lo, hi - 1);
      forall i | 0 <= i < |s|
        ensures s[i] < hi - 1
      {
        assert s[i] in s;
      }
    }
  }

  /** possibleChildren without its bounds check. */
  function Children(c: Config, v: int): (r: seq<int>) {
    if v < c.n then [] else Scan(c, ChildOf(v), 0, NodeCount(c))
  }

  /** possibleParents without its bounds check. */
  function Parents(c: Config, v: int): (r: seq<int>) {
    if v == Root(c) then [] else Scan(c, ParentOf(v), c.n, NodeCount(c))
  }

  /** The elements of xs below bound, in their order in xs. */
  function KeepBelow(xs: seq<int>, bound: int): (r: seq<int>) {
    if xs == [] then []
    else KeepBelow(xs[..|xs| - 1], bound) + (if xs[|xs| - 1] < bound then [xs[|xs| - 1]] else [])
  }

  /** possibleUp without its bounds check: the tree-node parents. */
  function Ups(c: Config, v: int): (r: seq<int>) {
    KeepBelow(Parents(c, v), TreeNodesCount(c))
  }

  function PossibleChildren(c: Config, v: int): (r: Result<seq<int>, TopologyError>)
    ensures r.Failure? <==> !(0 <= v < NodeCount(c))
  {
    if v < 0 || v >= NodeCount(c) then Failure(NodeOutOfBounds) else Success(Children(c, v))
  }

  function PossibleParents(c: Config, v: int): (r: Result<seq<int>, TopologyError>)
    ensures r.Failure? <==> !(0 <= v < NodeCount(c))
  {
    if v < 0 || v >= NodeCount(c) then Failure(NodeOutOfBounds) else Success(Parents(c, v))
  }

  /** possibleUp filters the list possibleParents returns, so it fails exactly when that does. */
  function PossibleUp(c: Config, v: int): (r: Result<seq<int>, TopologyError>)
    ensures r.Failure? <==> !(0 <= v < NodeCount(c))
  {
    match PossibleParents(c, v)
    case Failure(e) => Failure(e)
    case Success(ps) => Success(KeepBelow(ps, TreeNodesCount(c)))
  }

  lemma {:induction false} KeepBelowMembers(xs: seq<int>, bound: int)
    ensures forall w :: w in KeepBelow(xs, bound) <==> w in xs && w < bound
    ensures Increasing(xs) ==> Increasing(KeepBelow(xs, bound))
    ensures |KeepBelow(xs, bound)| <= |xs|
  {
    if xs != [] {
      var init := xs[..|xs| - 1];
      KeepBelowMembers(init, bound);
      assert xs == init + [xs[|xs| - 1]];
      if Increasing(xs) {
        var r := KeepBelow(init, bound);
        forall i | 0 <= i < |r| ensures r[i] < xs[|xs| - 1] {
          assert r[i] in r;
          var j :| 0 <= j < |init| && init[j] == r[i];
        }
      }
    }
  }

  /** On an ascending list the kept elements are a prefix of it. */
  lemma {:induction false} KeepBelowPrefix(xs: seq<int>, bound: int)
    requires Increasing(xs)
    ensures |KeepBelow(xs, bound)| <= |xs|
    ensures KeepBelow(xs, bound) == xs[..|KeepBelow(xs, bound)|]
    ensures forall i :: |KeepBelow(xs, bound)| <= i < |xs| ==> xs[i] >= bound
  {
    if xs != [] {
      var init := xs[..|xs| - 1];
      var last := xs[|xs| - 1];
      KeepBelowPrefix(init, bound);
      KeepBelowMembers(init, bound);
      var r := KeepBelow(init, bound);
      if last < bound {
        assert |init| > 0 ==> init[|init| - 1] < last;
        assert |r| == |init|;
        assert KeepBelow(xs, bound) == init + [last] == xs;
      }
    }
  }

  /** possibleChildren, case by case: nothing for leaves; all lower ids and
      every reticulation for a tree node; every id below the root, and with
      linked reticulations every id below itself, for a reticulation. */
  lemma ChildrenMembers(c: Config, v: int, w: int)
    requires 0 <= v < NodeCount(c)
    ensures Increasing(Children(c, v))
    ensures IsLeaf(c, v) ==> Children(c, v) == []
    ensures IsTreeNode(c, v) ==>
              (w in Children(c, v) <==> 0 <= w < v || IsReticulation(c, w))
    ensures IsReticulation(c, v) ==>
              (w in Children(c, v) <==> 0 <= w < Root(c) || (c.linkReticulations && 0 <= w < v))
  {
    ScanMembers(c, ChildOf(v), 0, NodeCount(c));
  }

  /** possibleParents, case by case: nothing for the root; every non-leaf for
      a leaf; the higher ids for a tree node; every tree node, and with linked
      reticulations every higher reticulation, for a reticulation. */
  lemma ParentsMembers(c: Config, v: int, w: int)
    requires 0 <= v < NodeCount(c)
    ensures Increasing(Parents(c, v))
    ensures w in Parents(c, v) ==> c.n <= w < NodeCount(c)
    ensures v == Root(c) ==> Parents(c, v) == []
    ensures v != Root(c) && IsLeaf(c, v) ==>
              (w in Parents(c, v) <==> c.n <= w < NodeCount(c))
    ensures v != Root(c) && IsTreeNode(c, v) ==>
              (w in Parents(c, v) <==> v < w < NodeCount(c))
    ensures IsReticulation(c, v) ==>
              (w in Parents(c, v) <==> IsTreeNode(c, w) || (c.linkReticulations && v < w < NodeCount(c)))
  {
    ScanMembers(c, ParentOf(v), c.n, NodeCount(c));
  }

  /** possibleUp is possibleParents cut at treeNodesCount: a prefix of it. */
  lemma UpsMembers(c: Config, v: int, w: int)
    requires 0 <= v < NodeCount(c)
    ensures Increasing(Ups(c, v))
    ensures |Ups(c, v)| <= |Parents(c, v)|
    ensures Ups(c, v) == Parents(c, v)[..|Ups(c, v)|]
    ensures w in Ups(c, v) <==> w in Parents(c, v) && w < TreeNodesCount(c)
  {
    ParentsMembers(c, v, w);
    KeepBelowMembers(Parents(c, v), TreeNodesCount(c));
    KeepBelowPrefix(Parents(c, v), TreeNodesCount(c));
  }

  /** Children and parents agree on every edge whose lower end is not the root. */
  lemma Duality(c: Config, v: int, w: int)
    requires 0 <= v < NodeCount(c) && 0 <= w < NodeCount(c)
    requires w != Root(c)
    ensures w in Children(c, v) <==> v in Parents(c, w)
  {
    ChildrenMembers(c, v, w);
    ParentsMembers(c, w, v);
  }

  /** The exception: with linked reticulations the root is a child candidate
      of every reticulation, yet the root has no parent candidates. */
  lemma RootDualityGap(c: Config, v: int)
    requires c.n >= 1 && c.linkReticulations && IsReticulation(c, v)
    ensures Root(c) in Children(c, v)
    ensures v !in Parents(c, Root(c))
  {
    ChildrenMembers(c, v, Root(c));
  }

  /** Without linked reticulations the root is no one's child candidate. */
  lemma RootIsNoChild(c: Config, v: int)
    requires c.n >= 1 && !c.linkReticulations && 0 <= v < NodeCount(c)
    ensures Root(c) !in Children(c, v)
  {
    ChildrenMembers(c, v, Root(c));
  }

  /** Every slot other than the root has a parent candidate, and every
      non-leaf has a child candidate. */
  lemma CandidatesNonEmpty(c: Config, v: int)
    requires c.n >= 2 && 0 <= v < NodeCount(c)
    ensures v != Root(c) ==> |Ups(c, v)| > 0 && |Parents(c, v)| > 0
    ensures v >= c.n ==> |Children(c, v)| > 0
  {
    NodeRanges(c, v);
    if v != Root(c) {
      if IsTreeNode(c, v) {
        UpsMembers(c, v, Root(c));
        ParentsMembers(c, v, Root(c));
        assert Root(c) in Ups(c, v);
      } else {
        UpsMembers(c, v, c.n);
        ParentsMembers(c, v, c.n);
        assert c.n in Ups(c, v);
      }
    }
    if v >= c.n {
      ChildrenMembers(c, v, 0);
    }
  }
}
