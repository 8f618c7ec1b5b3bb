/**
 * What the clause loop nests mean.
 *
 * A loop nest's output holds under an assignment of the keys exactly when
 * every block it emits holds: the block of each outer item, of each of its
 * middle items and of each of their inner items. From that, the data, heap,
 * equality and difference nests say what their comments in FormulaBuilder
 * say: the root of each input tree sits at the network root, the heap
 * ranges are excluded, equal-taxa nodes are realised together, and
 * disjoint-taxa nodes are never realised at the same network node.
 */
module Meaning {
  import opened Topology
  import opened Registry
  import opened Formula
  import opened Trees
  import opened Nests
  import opened Phases

  /** Every block of the first k inner items holds. */
  predicate CellsHoldBelow(a: Key -> bool, sh: Shape, v: int, u: int, second: bool, k: nat)
    requires k <= |Inner(sh, v, u, second)|
  {
    forall q :: 0 <= q < k ==> Holds(a, Nest(sh, CellBlock(v, u, second, Inner(sh, v, u, second)[q])))
  }

  predicate CellsHold(a: Key -> bool, sh: Shape, v: int, u: int, second: bool) {
    forall w :: w in Inner(sh, v, u, second) ==> Holds(a, Cell(sh, v, u, second, w))
  }

  /** Middle item u of v: its block and all its inner blocks hold. */
  predicate MidHolds(a: Key -> bool, sh: Shape, v: int, u: int) {
    Holds(a, Pre(sh, v, u)) && CellsHold(a, sh, v, u, false) && CellsHold(a, sh, v, u, true)
  }

  predicate MidsHoldBelow(a: Key -> bool, sh: Shape, v: int, j: nat)
    requires j <= |Mid(sh, v)|
  {
    forall q :: 0 <= q < j ==> MidHolds(a, sh, v, Mid(sh, v)[q])
  }

  /** Outer item v: its block and everything below it hold. */
  predicate ItemHolds(a: Key -> bool, sh: Shape, v: int) {
    Holds(a, Head(sh, v)) && forall u :: u in Mid(sh, v) ==> MidHolds(a, sh, v, u)
  }

  predicate ItemsHoldBelow(a: Key -> bool, sh: Shape, i: nat)
    requires i <= |Outer(sh)|
  {
    forall q :: 0 <= q < i ==> ItemHolds(a, sh, Outer(sh)[q])
  }

  /** Every block of the nest holds. */
  predicate NestHolds(a: Key -> bool, sh: Shape) {
    forall v :: v in Outer(sh) ==> ItemHolds(a, sh, v)
  }

  /** Membership in a range, without its ordering. */
  lemma RangeIn(lo: int, hi: int)
    ensures forall w :: w in Range(lo, hi) <==> lo <= w < hi
  {
    RangeMembers(lo, hi);
  }

  // ---- Level by level ----

  lemma CellsSnoc(a: Key -> bool, sh: Shape, v: int, u: int, second: bool, k: nat)
    requires 0 < k <= |Inner(sh, v, u, second)|
    ensures CellsHoldBelow(a, sh, v, u, second, k) <==>
      CellsHoldBelow(a, sh, v, u, second, k - 1) && Holds(a, Nest(sh, CellBlock(v, u, second, Inner(sh, v, u, second)[k - 1])))
  {
  }

  lemma MidsSnoc(a: Key -> bool, sh: Shape, v: int, j: nat)
    requires 0 < j <= |Mid(sh, v)|
    ensures MidsHoldBelow(a, sh, v, j) <==> MidsHoldBelow(a, sh, v, j - 1) && MidHolds(a, sh, v, Mid(sh, v)[j - 1])
  {
  }

  lemma ItemsSnoc(a: Key -> bool, sh: Shape, i: nat)
    requires 0 < i <= |Outer(sh)|
    ensures ItemsHoldBelow(a, sh, i) <==> ItemsHoldBelow(a, sh, i - 1) && ItemHolds(a, sh, Outer(sh)[i - 1])
  {
  }

  lemma CellsStep(sh: Shape, v: int, u: int, second: bool, k: nat)
    requires 0 < k <= |Inner(sh, v, u, second)|
    ensures Nest(sh, CellsBelow(v, u, second, k)) ==
      Nest(sh, CellsBelow(v, u, second, k - 1)) + Nest(sh, CellBlock(v, u, second, Inner(sh, v, u, second)[k - 1]))
  {
  }

  lemma {:induction false} CellsMeaning(a: Key -> bool, sh: Shape, v: int, u: int, second: bool, k: nat)
    requires k <= |Inner(sh, v, u, second)|
    ensures Holds(a, Nest(sh, CellsBelow(v, u, second, k))) <==> CellsHoldBelow(a, sh, v, u, second, k)
    decreases k
  {
    if k == 0 {
      assert Holds(a, []);
    } else {
      var ws := Inner(sh, v, u, second);
      var x, y := Nest(sh, CellsBelow(v, u, second, k - 1)), Nest(sh, CellBlock(v, u, second, ws[k - 1]));
      assert Nest(sh, CellsBelow(v, u, second, k)) == x + y by {
        CellsStep(sh, v, u, second, k);
      }
      assert Holds(a, x + y) <==> Holds(a, x) && Holds(a, y) by {
        SatAppend(a, x, y);
      }
      assert Holds(a, x) <==> CellsHoldBelow(a, sh, v, u, second, k - 1) by {
        CellsMeaning(a, sh, v, u, second, k - 1);
      }
      CellsSnoc(a, sh, v, u, second, k);
    }
  }

  lemma CellsAll(a: Key -> bool, sh: Shape, v: int, u: int, second: bool)
    ensures Holds(a, Nest(sh, CellsBelow(v, u, second, |Inner(sh, v, u, second)|))) <==> CellsHold(a, sh, v, u, second)
  {
    var ws := Inner(sh, v, u, second);
    CellsMeaning(a, sh, v, u, second, |ws|);
    forall q | 0 <= q < |ws|
      ensures Nest(sh, CellBlock(v, u, second, ws[q])) == Cell(sh, v, u, second, ws[q])
    {
      CellBlockCell(sh, v, u, second, ws[q]);
    }
  }

  lemma MidAtMeaning(a: Key -> bool, sh: Shape, v: int, u: int)
    ensures Holds(a, Nest(sh, MidAt(v, u))) <==> MidHolds(a, sh, v, u)
  {
    var x := Nest(sh, PreBlock(v, u));
    var y := Nest(sh, CellsBelow(v, u, false, |Inner(sh, v, u, false)|));
    var z := Nest(sh, CellsBelow(v, u, true, |Inner(sh, v, u, true)|));
    assert Nest(sh, MidAt(v, u)) == x + y + z;
    assert x == Pre(sh, v, u);
    SatAppend(a, x, y);
    SatAppend(a, x + y, z);
    CellsAll(a, sh, v, u, false);
    CellsAll(a, sh, v, u, true);
  }

  lemma {:induction false} MidsMeaning(a: Key -> bool, sh: Shape, v: int, j: nat)
    requires j <= |Mid(sh, v)|
    ensures Holds(a, Nest(sh, MidsBelow(v, j))) <==> MidsHoldBelow(a, sh, v, j)
    decreases j
  {
    if j == 0 {
      assert Holds(a, []);
    } else {
      var us := Mid(sh, v);
      var x, y := Nest(sh, MidsBelow(v, j - 1)), Nest(sh, MidAt(v, us[j - 1]));
      assert Nest(sh, MidsBelow(v, j)) == x + y;
      assert Holds(a, x + y) <==> Holds(a, x) && Holds(a, y) by {
        SatAppend(a, x, y);
      }
      assert Holds(a, x) <==> MidsHoldBelow(a, sh, v, j - 1) by {
        MidsMeaning(a, sh, v, j - 1);
      }
      assert Holds(a, y) <==> MidHolds(a, sh, v, us[j - 1]) by {
        MidAtMeaning(a, sh, v, us[j - 1]);
      }
      MidsSnoc(a, sh, v, j);
    }
  }

  lemma ItemAtMeaning(a: Key -> bool, sh: Shape, v: int)
    ensures Holds(a, Nest(sh, ItemAt(v))) <==> ItemHolds(a, sh, v)
  {
    var us := Mid(sh, v);
    var x, y := Nest(sh, HeadBlock(v)), Nest(sh, MidsBelow(v, |us|));
    assert Nest(sh, ItemAt(v)) == x + y;
    assert x == Head(sh, v);
    SatAppend(a, x, y);
    MidsMeaning(a, sh, v, |us|);
    assert MidsHoldBelow(a, sh, v, |us|) <==> forall u :: u in us ==> MidHolds(a, sh, v, u);
  }

  lemma {:induction false} ItemsMeaning(a: Key -> bool, sh: Shape, i: nat)
    requires i <= |Outer(sh)|
    ensures Holds(a, Nest(sh, ItemsBelow(i))) <==> ItemsHoldBelow(a, sh, i)
    decreases i
  {
    if i == 0 {
      assert Holds(a, []);
    } else {
      var vs := Outer(sh);
      var x, y := Nest(sh, ItemsBelow(i - 1)), Nest(sh, ItemAt(vs[i - 1]));
      assert Nest(sh, ItemsBelow(i)) == x + y;
      assert Holds(a, x + y) <==> Holds(a, x) && Holds(a, y) by {
        SatAppend(a, x, y);
      }
      assert Holds(a, x) <==> ItemsHoldBelow(a, sh, i - 1) by {
        ItemsMeaning(a, sh, i - 1);
      }
      assert Holds(a, y) <==> ItemHolds(a, sh, vs[i - 1]) by {
        ItemAtMeaning(a, sh, vs[i - 1]);
      }
      ItemsSnoc(a, sh, i);
    }
  }

  /** A nest's clauses hold exactly when every block it emits holds; its
      opening comment changes nothing. */
  lemma SectionMeaning(a: Key -> bool, sh: Shape)
    ensures Holds(a, NestAll(sh)) <==> NestHolds(a, sh)
    ensures Holds(a, Section(sh)) <==> NestHolds(a, sh)
  {
    var vs := Outer(sh);
    ItemsMeaning(a, sh, |vs|);
    assert ItemsHoldBelow(a, sh, |vs|) <==> NestHolds(a, sh);
    SatAppend(a, [Remark], NestAll(sh));
    assert Holds(a, [Remark]);
  }

  // ---- Blocks of one, two or three literals ----

  lemma OneHolds(a: Key -> bool, l: Lit)
    ensures Holds(a, [Or([l])]) <==> LitHolds(a, l)
  {
    assert [Or([l])][0] == Or([l]);
    assert [l][0] == l;
  }

  lemma TwoHold(a: Key -> bool, l1: Lit, l2: Lit)
    ensures EmitHolds(a, Or([l1, l2])) <==> LitHolds(a, l1) || LitHolds(a, l2)
  {
    assert [l1, l2][0] == l1 && [l1, l2][1] == l2;
  }

  lemma ThreeHold(a: Key -> bool, l1: Lit, l2: Lit, l3: Lit)
    ensures EmitHolds(a, Or([l1, l2, l3])) <==> LitHolds(a, l1) || LitHolds(a, l2) || LitHolds(a, l3)
  {
    assert [l1, l2, l3][0] == l1 && [l1, l2, l3][1] == l2 && [l1, l2, l3][2] == l3;
  }

  /** Two lookups and one two-literal clause: the shape of the equality and
      difference blocks. */
  lemma LookedPairHolds(a: Key -> bool, k1: Key, k2: Key, l1: Lit, l2: Lit)
    ensures Holds(a, [Look(k1), Look(k2), Or([l1, l2])]) <==> LitHolds(a, l1) || LitHolds(a, l2)
  {
    TwoHold(a, l1, l2);
    assert [Look(k1), Look(k2), Or([l1, l2])][2] == Or([l1, l2]);
  }

  // ---- Heap structure (addDataConstraints, second part) ----

  lemma HeapExcludedMembers(c: Config, tr: Tree, v: int, u: int)
    ensures u in HeapExcluded(c, tr, v) <==>
      (c.n <= u < c.n + SubtreeNonLeaf(tr, v)) || (TreeNodesCount(c) - Get(tr.depth, v) <= u < TreeNodesCount(c))
  {
    RangeIn(c.n, c.n + SubtreeNonLeaf(tr, v));
    RangeIn(TreeNodesCount(c) - Get(tr.depth, v), TreeNodesCount(c));
  }

  /** Input node v sits neither at one of the lowest SubtreeNonLeaf(v)
      tree-node ids nor at one of the topmost depth(v) ids. */
  ghost predicate HeapRowOk(a: Key -> bool, c: Config, t: int, tr: Tree, v: int) {
    forall u ::
      ((c.n <= u < c.n + SubtreeNonLeaf(tr, v)) || (TreeNodesCount(c) - Get(tr.depth, v) <= u < TreeNodesCount(c)))
      ==> !a(X(t, v, u))
  }

  /** Every inner node of the input tree other than its root keeps to its heap bounds. */
  ghost predicate HeapOk(a: Key -> bool, c: Config, t: int, tr: Tree) {
    forall v :: c.n <= v < Size(tr) - 1 ==> HeapRowOk(a, c, t, tr, v)
  }

  lemma HeapMid(a: Key -> bool, c: Config, t: int, tr: Tree, v: int, u: int)
    ensures MidHolds(a, HeapLoop(c, t, tr), v, u) <==> !a(X(t, v, u))
  {
    var sh := HeapLoop(c, t, tr);
    assert Inner(sh, v, u, false) == [] && Inner(sh, v, u, true) == [];
    assert Pre(sh, v, u) == [Or([Neg(X(t, v, u))])];
    OneHolds(a, Neg(X(t, v, u)));
  }

  lemma HeapItem(a: Key -> bool, c: Config, t: int, tr: Tree, v: int)
    ensures ItemHolds(a, HeapLoop(c, t, tr), v) <==> HeapRowOk(a, c, t, tr, v)
  {
    var sh := HeapLoop(c, t, tr);
    assert Head(sh, v) == [];
    assert Holds(a, []);
    assert Mid(sh, v) == HeapExcluded(c, tr, v);
    forall u ensures MidHolds(a, sh, v, u) <==> !a(X(t, v, u)) {
      HeapMid(a, c, t, tr, v, u);
    }
    forall u ensures u in HeapExcluded(c, tr, v) <==>
      (c.n <= u < c.n + SubtreeNonLeaf(tr, v)) || (TreeNodesCount(c) - Get(tr.depth, v) <= u < TreeNodesCount(c))
    {
      HeapExcludedMembers(c, tr, v, u);
    }
  }

  /** The heap section holds exactly when every bounded node keeps its bounds. */
  lemma HeapPruned(a: Key -> bool, c: Config, t: int, tr: Tree)
    ensures Holds(a, Section(HeapLoop(c, t, tr))) <==> HeapOk(a, c, t, tr)
  {
    var sh := HeapLoop(c, t, tr);
    SectionMeaning(a, sh);
    RangeIn(c.n, Size(tr) - 1);
    forall v ensures ItemHolds(a, sh, v) <==> HeapRowOk(a, c, t, tr, v) {
      HeapItem(a, c, t, tr, v);
    }
  }

  // ---- Data constraints (addDataConstraints, first part) ----

  /** Wherever the parent p of taxon v sits, v goes up to it. */
  ghost predicate DataLeafOk(a: Key -> bool, c: Config, t: int, v: int, p: int) {
    forall u :: IsTreeNode(c, u) ==> a(X(t, p, u)) ==> a(Up(t, v, u))
  }

  /** With inner node v at network node u, its parent p sits at w exactly
      when u goes up to w, for every tree-node parent w of u. */
  ghost predicate DataUpOk(a: Key -> bool, c: Config, t: int, v: int, p: int, u: int) {
    forall w :: w in Ups(c, u) ==>
      (a(X(t, v, u)) && a(X(t, p, w)) ==> a(Up(t, u, w))) && (a(X(t, v, u)) && a(Up(t, u, w)) ==> a(X(t, p, w)))
  }

  /** With inner node v at network node u, its parent p sits at no lower tree node. */
  ghost predicate DataOrderOk(a: Key -> bool, c: Config, t: int, v: int, p: int, u: int) {
    forall w :: IsTreeNode(c, w) && w < u ==> !(a(X(t, v, u)) && a(X(t, p, w)))
  }

  /** What the data section asks of input node v: the root sits at the
      network root; a taxon goes up to wherever its parent sits; an inner
      node's parent is where it goes up to, and above it. */
  ghost predicate DataNodeOk(a: Key -> bool, c: Config, t: int, tr: Tree, v: int) {
    var p := Get(tr.parent, v);
    if p == -1 then a(X(t, v, Root(c)))
    else if v < c.n then DataLeafOk(a, c, t, v, p)
    else forall u :: IsTreeNode(c, u) ==> DataUpOk(a, c, t, v, p, u) && DataOrderOk(a, c, t, v, p, u)
  }

  ghost predicate DataOk(a: Key -> bool, c: Config, t: int, tr: Tree) {
    forall v :: 0 <= v < Size(tr) ==> DataNodeOk(a, c, t, tr, v)
  }

  lemma DataUpCell(a: Key -> bool, c: Config, t: int, tr: Tree, v: int, u: int, w: int)
    ensures var p := Get(tr.parent, v);
      Holds(a, Cell(DataLoop(c, t, tr), v, u, false, w)) <==>
        (a(X(t, v, u)) && a(X(t, p, w)) ==> a(Up(t, u, w))) && (a(X(t, v, u)) && a(Up(t, u, w)) ==> a(X(t, p, w)))
  {
    var p := Get(tr.parent, v);
    var px, up := X(t, p, w), Up(t, u, w);
    var e2, e3 := Or([Neg(X(t, v, u)), Neg(px), Pos(up)]), Or([Neg(X(t, v, u)), Neg(up), Pos(px)]);
    var es := [Look(px), Look(up), e2, e3];
    assert Cell(DataLoop(c, t, tr), v, u, false, w) == es;
    assert es[2] == e2 && es[3] == e3;
    ThreeHold(a, Neg(X(t, v, u)), Neg(px), Pos(up));
    ThreeHold(a, Neg(X(t, v, u)), Neg(up), Pos(px));
  }

  lemma DataOrderCell(a: Key -> bool, c: Config, t: int, tr: Tree, v: int, u: int, w: int)
    ensures var p := Get(tr.parent, v);
      Holds(a, Cell(DataLoop(c, t, tr), v, u, true, w)) <==> (w < u ==> !(a(X(t, v, u)) && a(X(t, p, w))))
  {
    var p := Get(tr.parent, v);
    if w < u {
      var e := Or([Neg(X(t, v, u)), Neg(X(t, p, w))]);
      assert Cell(DataLoop(c, t, tr), v, u, true, w) == [Look(X(t, p, w)), e];
      assert [Look(X(t, p, w)), e][1] == e;
      TwoHold(a, Neg(X(t, v, u)), Neg(X(t, p, w)));
    } else {
      assert Cell(DataLoop(c, t, tr), v, u, true, w) == [Look(X(t, p, w))];
    }
  }

  lemma DataLeafMid(a: Key -> bool, c: Config, t: int, tr: Tree, v: int, u: int)
    requires v < c.n && Get(tr.parent, v) != -1
    ensures var p := Get(tr.parent, v);
      MidHolds(a, DataLoop(c, t, tr), v, u) <==> (a(X(t, p, u)) ==> a(Up(t, v, u)))
  {
    var sh, p := DataLoop(c, t, tr), Get(tr.parent, v);
    assert Inner(sh, v, u, false) == [] && Inner(sh, v, u, true) == [];
    assert Pre(sh, v, u) == [Look(X(t, p, u)), Look(Up(t, v, u)), Or([Neg(X(t, p, u)), Pos(Up(t, v, u))])];
    LookedPairHolds(a, X(t, p, u), Up(t, v, u), Neg(X(t, p, u)), Pos(Up(t, v, u)));
  }

  lemma DataInnerMid(a: Key -> bool, c: Config, t: int, tr: Tree, v: int, u: int)
    requires v >= c.n && Get(tr.parent, v) != -1
    ensures var p := Get(tr.parent, v);
      MidHolds(a, DataLoop(c, t, tr), v, u) <==> DataUpOk(a, c, t, v, p, u) && DataOrderOk(a, c, t, v, p, u)
  {
    var sh, p := DataLoop(c, t, tr), Get(tr.parent, v);
    assert Pre(sh, v, u) == [Look(X(t, v, u))];
    assert Holds(a, [Look(X(t, v, u))]);
    assert Inner(sh, v, u, false) == Ups(c, u);
    assert Inner(sh, v, u, true) == TreeNodes(c);
    RangeIn(c.n, TreeNodesCount(c));
    forall w ensures Holds(a, Cell(sh, v, u, false, w)) <==>
      (a(X(t, v, u)) && a(X(t, p, w)) ==> a(Up(t, u, w))) && (a(X(t, v, u)) && a(Up(t, u, w)) ==> a(X(t, p, w)))
    {
      DataUpCell(a, c, t, tr, v, u, w);
    }
    forall w ensures Holds(a, Cell(sh, v, u, true, w)) <==> (w < u ==> !(a(X(t, v, u)) && a(X(t, p, w)))) {
      DataOrderCell(a, c, t, tr, v, u, w);
    }
  }

  lemma DataItem(a: Key -> bool, c: Config, t: int, tr: Tree, v: int)
    ensures ItemHolds(a, DataLoop(c, t, tr), v) <==> DataNodeOk(a, c, t, tr, v)
  {
    var sh, p := DataLoop(c, t, tr), Get(tr.parent, v);
    if p == -1 {
      assert Mid(sh, v) == [];
      assert Head(sh, v) == [Or([Pos(X(t, v, Root(c)))])];
      OneHolds(a, Pos(X(t, v, Root(c))));
    } else {
      assert Head(sh, v) == [];
      assert Holds(a, []);
      assert Mid(sh, v) == TreeNodes(c);
      RangeIn(c.n, TreeNodesCount(c));
      if v < c.n {
        forall u ensures MidHolds(a, sh, v, u) <==> (a(X(t, p, u)) ==> a(Up(t, v, u))) {
          DataLeafMid(a, c, t, tr, v, u);
        }
      } else {
        forall u ensures MidHolds(a, sh, v, u) <==> DataUpOk(a, c, t, v, p, u) && DataOrderOk(a, c, t, v, p, u) {
          DataInnerMid(a, c, t, tr, v, u);
        }
      }
    }
  }

  /** The data section holds exactly when every input node meets its data constraints. */
  lemma DataMeaning(a: Key -> bool, c: Config, t: int, tr: Tree)
    ensures Holds(a, Section(DataLoop(c, t, tr))) <==> DataOk(a, c, t, tr)
  {
    var sh := DataLoop(c, t, tr);
    SectionMeaning(a, sh);
    RangeIn(0, Size(tr));
    forall v ensures ItemHolds(a, sh, v) <==> DataNodeOk(a, c, t, tr, v) {
      DataItem(a, c, t, tr, v);
    }
  }

  /** addDataConstraints: under its clauses the root of the input tree sits at
      the root of the network. */
  lemma RootPinned(a: Key -> bool, c: Config, t: int, tr: Tree, v: int)
    requires Holds(a, DataPhase(c, t, tr))
    requires 0 <= v < Size(tr) && Get(tr.parent, v) == -1
    ensures a(X(t, v, Root(c)))
  {
    SatAppend(a, Section(DataLoop(c, t, tr)), Section(HeapLoop(c, t, tr)));
    DataMeaning(a, c, t, tr);
    assert DataNodeOk(a, c, t, tr, v);
  }

  /** addDataConstraints as a whole: its data and heap constraints. */
  lemma DataPhaseMeaning(a: Key -> bool, c: Config, t: int, tr: Tree)
    ensures Holds(a, DataPhase(c, t, tr)) <==> DataOk(a, c, t, tr) && HeapOk(a, c, t, tr)
  {
    SatAppend(a, Section(DataLoop(c, t, tr)), Section(HeapLoop(c, t, tr)));
    DataMeaning(a, c, t, tr);
    HeapPruned(a, c, t, tr);
  }

  // ---- addEqualsNodesConstraints and addDifferentTaxaNodesConstraints ----

  /** Wherever node n1 of tree t1 sits, node n2 of tree t2 sits too. */
  ghost predicate EqualsDirectOk(a: Key -> bool, c: Config, t1: int, n1: int, t2: int, n2: int) {
    forall v :: IsTreeNode(c, v) ==> a(X(t1, n1, v)) ==> a(X(t2, n2, v))
  }

  /** Inner node u of tree t2, when outside the subtree of n2, never shares a
      network node with node v of tree t1. */
  ghost predicate ApartOk(a: Key -> bool, c: Config, t1: int, v: int, t2: int, tr2: Tree, n2: int, u: int) {
    u !in At(tr2.subtreeNodes, n2) ==> forall w :: IsTreeNode(c, w) ==> !(a(X(t1, v, w)) && a(X(t2, u, w)))
  }

  /** Node v of tree t1, when inner, is apart from every inner node of tree t2
      outside the subtree of n2. */
  ghost predicate SubtreeNodeOk(a: Key -> bool, c: Config, t1: int, v: int, t2: int, tr2: Tree, n2: int) {
    v >= c.n ==> forall u :: c.n <= u < 2 * c.n - 1 ==> ApartOk(a, c, t1, v, t2, tr2, n2, u)
  }

  /** No inner node under n1 in tree t1 shares a network node with an
      inner node outside the subtree of n2 in tree t2. */
  ghost predicate EqualsSubtreeOk(a: Key -> bool, c: Config, t1: int, tr1: Tree, n1: int, t2: int, tr2: Tree, n2: int) {
    forall v :: v in At(tr1.subtreeNodes, n1) ==> SubtreeNodeOk(a, c, t1, v, t2, tr2, n2)
  }

  /** Node n1 of tree t1 and node n2 of tree t2 never sit at the same network node. */
  ghost predicate DifferentOk(a: Key -> bool, c: Config, t1: int, n1: int, t2: int, n2: int) {
    forall v :: IsTreeNode(c, v) ==> !(a(X(t1, n1, v)) && a(X(t2, n2, v)))
  }

  lemma EqualsDirectItem(a: Key -> bool, c: Config, t1: int, n1: int, t2: int, n2: int, v: int)
    ensures ItemHolds(a, EqualsDirect(c, t1, n1, t2, n2), v) <==> (a(X(t1, n1, v)) ==> a(X(t2, n2, v)))
  {
    var sh := EqualsDirect(c, t1, n1, t2, n2);
    assert Mid(sh, v) == [];
    LookedPairHolds(a, X(t1, n1, v), X(t2, n2, v), Neg(X(t1, n1, v)), Pos(X(t2, n2, v)));
  }

  lemma EqualsDirectMeaning(a: Key -> bool, c: Config, t1: int, n1: int, t2: int, n2: int)
    ensures Holds(a, NestAll(EqualsDirect(c, t1, n1, t2, n2))) <==> EqualsDirectOk(a, c, t1, n1, t2, n2)
  {
    var sh := EqualsDirect(c, t1, n1, t2, n2);
    SectionMeaning(a, sh);
    RangeIn(c.n, TreeNodesCount(c));
    forall v ensures ItemHolds(a, sh, v) <==> (a(X(t1, n1, v)) ==> a(X(t2, n2, v))) {
      EqualsDirectItem(a, c, t1, n1, t2, n2, v);
    }
  }

  lemma EqualsSubtreeCell(a: Key -> bool, c: Config, t1: int, tr1: Tree, n1: int, t2: int, tr2: Tree, n2: int,
                          v: int, u: int, w: int)
    ensures Holds(a, Cell(EqualsSubtree(c, t1, tr1, n1, t2, tr2, n2), v, u, false, w)) <==>
      !(a(X(t1, v, w)) && a(X(t2, u, w)))
  {
    LookedPairHolds(a, X(t1, v, w), X(t2, u, w), Neg(X(t1, v, w)), Neg(X(t2, u, w)));
  }

  lemma EqualsSubtreeMid(a: Key -> bool, c: Config, t1: int, tr1: Tree, n1: int, t2: int, tr2: Tree, n2: int,
                         v: int, u: int)
    ensures MidHolds(a, EqualsSubtree(c, t1, tr1, n1, t2, tr2, n2), v, u) <==> ApartOk(a, c, t1, v, t2, tr2, n2, u)
  {
    var sh := EqualsSubtree(c, t1, tr1, n1, t2, tr2, n2);
    assert Pre(sh, v, u) == [] && Inner(sh, v, u, true) == [];
    assert Holds(a, []);
    RangeIn(c.n, TreeNodesCount(c));
    forall w ensures Holds(a, Cell(sh, v, u, false, w)) <==> !(a(X(t1, v, w)) && a(X(t2, u, w))) {
      EqualsSubtreeCell(a, c, t1, tr1, n1, t2, tr2, n2, v, u, w);
    }
  }

  lemma EqualsSubtreeItem(a: Key -> bool, c: Config, t1: int, tr1: Tree, n1: int, t2: int, tr2: Tree, n2: int, v: int)
    ensures ItemHolds(a, EqualsSubtree(c, t1, tr1, n1, t2, tr2, n2), v) <==> SubtreeNodeOk(a, c, t1, v, t2, tr2, n2)
  {
    var sh := EqualsSubtree(c, t1, tr1, n1, t2, tr2, n2);
    assert Head(sh, v) == [];
    assert Holds(a, []);
    RangeIn(c.n, 2 * c.n - 1);
    forall u ensures MidHolds(a, sh, v, u) <==> ApartOk(a, c, t1, v, t2, tr2, n2, u) {
      EqualsSubtreeMid(a, c, t1, tr1, n1, t2, tr2, n2, v, u);
    }
  }

  lemma EqualsSubtreeMeaning(a: Key -> bool, c: Config, t1: int, tr1: Tree, n1: int, t2: int, tr2: Tree, n2: int)
    ensures Holds(a, NestAll(EqualsSubtree(c, t1, tr1, n1, t2, tr2, n2))) <==>
      EqualsSubtreeOk(a, c, t1, tr1, n1, t2, tr2, n2)
  {
    var sh := EqualsSubtree(c, t1, tr1, n1, t2, tr2, n2);
    SectionMeaning(a, sh);
    forall v ensures ItemHolds(a, sh, v) <==> SubtreeNodeOk(a, c, t1, v, t2, tr2, n2) {
      EqualsSubtreeItem(a, c, t1, tr1, n1, t2, tr2, n2, v);
    }
  }

  /** addEqualsNodesConstraints: its clauses hold exactly when node n2 of
      tree t2 follows node n1 of tree t1 and the subtrees do not mix. */
  lemma EqualsMeaning(a: Key -> bool, c: Config, t1: int, tr1: Tree, n1: int, t2: int, tr2: Tree, n2: int)
    ensures Holds(a, EqualsPhase(c, t1, tr1, n1, t2, tr2, n2)) <==>
      EqualsDirectOk(a, c, t1, n1, t2, n2) && EqualsSubtreeOk(a, c, t1, tr1, n1, t2, tr2, n2)
  {
    var x, y := NestAll(EqualsDirect(c, t1, n1, t2, n2)), NestAll(EqualsSubtree(c, t1, tr1, n1, t2, tr2, n2));
    SatAppend(a, [Remark], x);
    SatAppend(a, [Remark] + x, y);
    assert Holds(a, [Remark]);
    EqualsDirectMeaning(a, c, t1, n1, t2, n2);
    EqualsSubtreeMeaning(a, c, t1, tr1, n1, t2, tr2, n2);
  }

  lemma DifferentItem(a: Key -> bool, c: Config, t1: int, n1: int, t2: int, n2: int, v: int)
    ensures ItemHolds(a, DifferentLoop(c, t1, n1, t2, n2), v) <==> !(a(X(t1, n1, v)) && a(X(t2, n2, v)))
  {
    var sh := DifferentLoop(c, t1, n1, t2, n2);
    assert Mid(sh, v) == [];
    LookedPairHolds(a, X(t1, n1, v), X(t2, n2, v), Neg(X(t1, n1, v)), Neg(X(t2, n2, v)));
  }

  /** addDifferentTaxaNodesConstraints: its clauses hold exactly when the two
      nodes never share a network node. */
  lemma DifferentMeaning(a: Key -> bool, c: Config, t1: int, n1: int, t2: int, n2: int)
    ensures Holds(a, DifferentPhase(c, t1, n1, t2, n2)) <==> DifferentOk(a, c, t1, n1, t2, n2)
  {
    var sh := DifferentLoop(c, t1, n1, t2, n2);
    SectionMeaning(a, sh);
    RangeIn(c.n, TreeNodesCount(c));
    forall v ensures ItemHolds(a, sh, v) <==> !(a(X(t1, n1, v)) && a(X(t2, n2, v))) {
      DifferentItem(a, c, t1, n1, t2, n2, v);
    }
  }
}
