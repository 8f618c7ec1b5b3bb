/**
 * The input trees, as the queries the encoder makes of them. An input tree
 * over n taxa has 2n - 1 nodes: leaves 0..n-1, internal nodes n..2n-2.
 */
module Trees {

  /** Per node: its parent (-1 for the root), its depth, its subtree size,
      the taxa below it and the nodes of its subtree. */
  datatype Tree = Tree(
    taxaSize: nat,
    parent: seq<int>,
    depth: seq<int>,
    subtreeSize: seq<int>,
    taxa: seq<seq<int>>,
    subtreeNodes: seq<seq<int>>)

  function Size(tr: Tree): (r: int) { |tr.parent| }

  /** What the encoder relies on: a full binary tree over n taxa whose root
      is internal, whose parents are internal nodes, whose depths and
      subtree sizes fit a tree of that size, and whose subtree lists name
      nodes of the tree. */
  predicate WellFormed(tr: Tree, n: int) {
    && |tr.parent| == 2 * n - 1
    && |tr.depth| == |tr.parent|
    && |tr.subtreeSize| == |tr.parent|
    && |tr.taxa| == |tr.parent|
    && |tr.subtreeNodes| == |tr.parent|
    && (forall v :: 0 <= v < |tr.parent| ==>
          if tr.parent[v] == -1 then n <= v else n <= tr.parent[v] < 2 * n - 1)
    && (forall v :: 0 <= v < |tr.depth| ==> tr.depth[v] <= n - 1)
    && (forall v :: 0 <= v < |tr.subtreeSize| ==> tr.subtreeSize[v] <= 2 * n - 1)
    && SubtreesIn(tr, n)
  }

  /** Every tree of the input is well formed over n taxa. */
  predicate AllWellFormed(trees: seq<Tree>, n: int) {
    forall t :: 0 <= t < |trees| ==> WellFormed(trees[t], n)
  }

  /** Every subtree list names nodes of a tree over n taxa. */
  predicate SubtreesIn(tr: Tree, n: int) {
    forall v :: 0 <= v < |tr.subtreeNodes| ==> NodesIn(tr.subtreeNodes[v], 2 * n - 1)
  }

  predicate NodesIn(s: seq<int>, b: int) {
    forall i :: 0 <= i < |s| ==> 0 <= s[i] < b
  }

  /** A well-formed tree has at least two taxa: one taxon would leave no
      internal node for the root. */
  lemma WellFormedTaxa(tr: Tree, n: int)
    requires WellFormed(tr, n)
    ensures n >= 2
  {
    assert 0 < |tr.parent| ==> (if tr.parent[0] == -1 then n <= 0 else n <= tr.parent[0] < 2 * n - 1);
  }

  /** Java: a.containsAll(b). */
  predicate ContainsAll(a: seq<int>, b: seq<int>) {
    forall x :: x in b ==> x in a
  }

  /** isEquals of addConstraintsForPairOfTrees: same size and a contains b. */
  predicate SameTaxa(a: seq<int>, b: seq<int>) {
    |a| == |b| && ContainsAll(a, b)
  }

  /** Java: Collections.disjoint(a, b). */
  predicate Disjoint(a: seq<int>, b: seq<int>) {
    forall x :: x in a ==> x !in b
  }

  predicate NoDuplicates(a: seq<int>) {
    forall i, j :: 0 <= i < j < |a| ==> a[i] != a[j]
  }

  function Elems(a: seq<int>): (r: set<int>) {
    set x | x in a
  }

  lemma {:induction false} DistinctCard(a: seq<int>)
    requires NoDuplicates(a)
    ensures |Elems(a)| == |a|
  {
    if a != [] {
      var init, last := a[..|a| - 1], a[|a| - 1];
      assert NoDuplicates(init);
      DistinctCard(init);
      assert a == init + [last];
      assert last !in init by {
        forall i | 0 <= i < |init| ensures init[i] != last {
          assert init[i] == a[i];
        }
      }
      assert Elems(a) == Elems(init) + {last};
    }
  }

  lemma SubsetSameCard(s: set<int>, t: set<int>)
    requires s <= t && |s| == |t|
    ensures s == t
  {
    assert t == s + (t - s);
    assert s * (t - s) == {};
    assert |t - s| == 0;
  }

  /** For taxon lists without repeats, the size-and-containsAll test is
      set equality. */
  lemma SameTaxaIsSetEquality(a: seq<int>, b: seq<int>)
    requires NoDuplicates(a) && NoDuplicates(b)
    ensures SameTaxa(a, b) <==> Elems(a) == Elems(b)
  {
    DistinctCard(a);
    DistinctCard(b);
    if SameTaxa(a, b) {
      assert Elems(b) <= Elems(a);
      SubsetSameCard(Elems(b), Elems(a));
    }
    if Elems(a) == Elems(b) {
      forall x | x in b ensures x in a {
        assert x in Elems(b);
      }
    }
  }

  /** Without the size test, containsAll alone would accept a strict superset. */
  lemma ContainsAllIsNotEquality()
    ensures exists xs: seq<int>, ys: seq<int> :: ContainsAll(xs, ys) && !SameTaxa(xs, ys)
  {
    assert 1 in [1, 2];
    assert ContainsAll([1, 2], [1]) && !SameTaxa([1, 2], [1]);
  }
}
