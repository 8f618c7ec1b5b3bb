/**
 * What the linking sections mean.
 *
 * Each section of addChildParentConstraints, addDirUsedConstraints,
 * addUpConstraints and addXConstraints that ties one variable family to
 * another holds under an assignment of the keys exactly when the link it
 * is written for holds: a child choice agrees with the parent choice,
 * a reticulation's parents lie above its tree-node child, the inactive
 * parent edge of a reticulation is unused, up snaps to a used parent and
 * otherwise follows the parent's up, and x is injective and implies used.
 */
module Links {
  import opened Topology
  import opened Registry
  import opened Formula
  import opened Families
  import opened Nests
  import opened Phases
  import opened Meaning
  import opened Choice

  lemma FourHold(a: Key -> bool, l1: Lit, l2: Lit, l3: Lit, l4: Lit)
    ensures EmitHolds(a, Or([l1, l2, l3, l4])) <==>
      LitHolds(a, l1) || LitHolds(a, l2) || LitHolds(a, l3) || LitHolds(a, l4)
  {
    var ls := [l1, l2, l3, l4];
    assert ls[0] == l1 && ls[1] == l2 && ls[2] == l3 && ls[3] == l4;
  }

  lemma FiveHold(a: Key -> bool, l1: Lit, l2: Lit, l3: Lit, l4: Lit, l5: Lit)
    ensures EmitHolds(a, Or([l1, l2, l3, l4, l5])) <==>
      LitHolds(a, l1) || LitHolds(a, l2) || LitHolds(a, l3) || LitHolds(a, l4) || LitHolds(a, l5)
  {
    var ls := [l1, l2, l3, l4, l5];
    assert ls[0] == l1 && ls[1] == l2 && ls[2] == l3 && ls[3] == l4 && ls[4] == l5;
  }

  // ---- addChildParentConstraints, tree-node section ----

  /** Tree node v takes u as its left or right child exactly when u takes v
      as its parent: as parent for a leaf or tree node, as lp or rp for a
      reticulation. */
  ghost predicate TreeEdgeOk(a: Key -> bool, c: Config, v: int, u: int) {
    if u < TreeNodesCount(c) then (a(Left(v, u)) || a(Right(v, u))) <==> a(Parent(u, v))
    else (a(Left(v, u)) || a(Right(v, u))) <==> (a(Lp(u, v)) || a(Rp(u, v)))
  }

  ghost predicate TreeEdgesOk(a: Key -> bool, c: Config, v: int) {
    forall u :: u in Children(c, v) ==> TreeEdgeOk(a, c, v, u)
  }

  ghost predicate ChildParentTreeOk(a: Key -> bool, c: Config) {
    forall v :: IsTreeNode(c, v) ==> TreeEdgesOk(a, c, v)
  }

  lemma TreeEdgePre(a: Key -> bool, c: Config, v: int, u: int)
    ensures Holds(a, ChildParentTreePre(c, v, u)) <==> TreeEdgeOk(a, c, v, u)
  {
    var l, r := Left(v, u), Right(v, u);
    if u < TreeNodesCount(c) {
      var p := Parent(u, v);
      var e1, e2, e3 := Or([Neg(l), Pos(p)]), Or([Neg(r), Pos(p)]), Or([Neg(p), Pos(l), Pos(r)]);
      var es := [Look(l), Look(r), Look(p), e1, e2, e3];
      assert ChildParentTreePre(c, v, u) == es;
      assert es[3] == e1 && es[4] == e2 && es[5] == e3;
      TwoHold(a, Neg(l), Pos(p));
      TwoHold(a, Neg(r), Pos(p));
      ThreeHold(a, Neg(p), Pos(l), Pos(r));
    } else {
      var lp, rp := Lp(u, v), Rp(u, v);
      var e1, e2 := Or([Neg(l), Pos(lp), Pos(rp)]), Or([Neg(r), Pos(lp), Pos(rp)]);
      var e3, e4 := Or([Neg(lp), Pos(l), Pos(r)]), Or([Neg(rp), Pos(l), Pos(r)]);
      var es := [Look(l), Look(r), Look(lp), Look(rp), e1, e2, e3, e4];
      assert ChildParentTreePre(c, v, u) == es;
      assert es[4] == e1 && es[5] == e2 && es[6] == e3 && es[7] == e4;
      ThreeHold(a, Neg(l), Pos(lp), Pos(rp));
      ThreeHold(a, Neg(r), Pos(lp), Pos(rp));
      ThreeHold(a, Neg(lp), Pos(l), Pos(r));
      ThreeHold(a, Neg(rp), Pos(l), Pos(r));
    }
  }

  lemma TreeEdgesItem(a: Key -> bool, c: Config, v: int)
    ensures ItemHolds(a, ChildParentTree(c), v) <==> TreeEdgesOk(a, c, v)
  {
    var sh := ChildParentTree(c);
    assert Head(sh, v) == [];
    assert Holds(a, []);
    assert Mid(sh, v) == Children(c, v);
    forall u ensures MidHolds(a, sh, v, u) <==> TreeEdgeOk(a, c, v, u) {
      assert Inner(sh, v, u, false) == [] && Inner(sh, v, u, true) == [];
      assert Pre(sh, v, u) == ChildParentTreePre(c, v, u);
      TreeEdgePre(a, c, v, u);
    }
  }

  /** The tree-node section holds exactly when every tree node agrees with its children. */
  lemma ChildParentTreeMeaning(a: Key -> bool, c: Config)
    ensures Holds(a, Section(ChildParentTree(c))) <==> ChildParentTreeOk(a, c)
  {
    var sh := ChildParentTree(c);
    SectionMeaning(a, sh);
    RangeIn(c.n, TreeNodesCount(c));
    forall v ensures ItemHolds(a, sh, v) <==> TreeEdgesOk(a, c, v) {
      TreeEdgesItem(a, c, v);
    }
  }

  // ---- addChildParentConstraints, reticulation section ----

  /** Reticulation v takes u as its child exactly when u takes v as its
      parent: as parent for a leaf or tree node, as lp or rp for a reticulation. */
  ghost predicate NetEdgeOk(a: Key -> bool, c: Config, v: int, u: int) {
    if u < TreeNodesCount(c) then a(Ch(v, u)) <==> a(Parent(u, v))
    else a(Ch(v, u)) <==> (a(Lp(u, v)) || a(Rp(u, v)))
  }

  ghost predicate NetEdgesOk(a: Key -> bool, c: Config, v: int) {
    forall u :: u in Children(c, v) ==> NetEdgeOk(a, c, v, u)
  }

  ghost predicate ChildParentNetOk(a: Key -> bool, c: Config) {
    forall v :: IsReticulation(c, v) ==> NetEdgesOk(a, c, v)
  }

  lemma NetEdgePre(a: Key -> bool, c: Config, v: int, u: int)
    ensures Holds(a, ChildParentNetPre(c, v, u)) <==> NetEdgeOk(a, c, v, u)
  {
    var ch := Ch(v, u);
    if u < TreeNodesCount(c) {
      var p := Parent(u, v);
      var e1, e2 := Or([Neg(ch), Pos(p)]), Or([Neg(p), Pos(ch)]);
      var es := [Look(ch), Look(p), e1, e2];
      assert ChildParentNetPre(c, v, u) == es;
      assert es[2] == e1 && es[3] == e2;
      TwoHold(a, Neg(ch), Pos(p));
      TwoHold(a, Neg(p), Pos(ch));
    } else {
      var lp, rp := Lp(u, v), Rp(u, v);
      var e1, e2, e3 := Or([Neg(lp), Pos(ch)]), Or([Neg(rp), Pos(ch)]), Or([Neg(ch), Pos(lp), Pos(rp)]);
      var es := [Look(ch), Look(lp), Look(rp), e1, e2, e3];
      assert ChildParentNetPre(c, v, u) == es;
      assert es[3] == e1 && es[4] == e2 && es[5] == e3;
      TwoHold(a, Neg(lp), Pos(ch));
      TwoHold(a, Neg(rp), Pos(ch));
      ThreeHold(a, Neg(ch), Pos(lp), Pos(rp));
    }
  }

  lemma NetEdgesItem(a: Key -> bool, c: Config, v: int)
    ensures ItemHolds(a, ChildParentNet(c), v) <==> NetEdgesOk(a, c, v)
  {
    var sh := ChildParentNet(c);
    assert Head(sh, v) == [];
    assert Holds(a, []);
    assert Mid(sh, v) == Children(c, v);
    forall u ensures MidHolds(a, sh, v, u) <==> NetEdgeOk(a, c, v, u) {
      assert Inner(sh, v, u, false) == [] && Inner(sh, v, u, true) == [];
      assert Pre(sh, v, u) == ChildParentNetPre(c, v, u);
      NetEdgePre(a, c, v, u);
    }
  }

  /** The reticulation section holds exactly when every reticulation agrees with its children. */
  lemma ChildParentNetMeaning(a: Key -> bool, c: Config)
    ensures Holds(a, Section(ChildParentNet(c))) <==> ChildParentNetOk(a, c)
  {
    var sh := ChildParentNet(c);
    SectionMeaning(a, sh);
    RangeIn(TreeNodesCount(c), NodeCount(c));
    forall v ensures ItemHolds(a, sh, v) <==> NetEdgesOk(a, c, v) {
      NetEdgesItem(a, c, v);
    }
  }

  // ---- addChildParentConstraints, ordering section ----

  /** When reticulation v takes leaf or tree node u as its child, no tree
      node numbered n..u is its left or right parent. */
  ghost predicate OrderEdgeOk(a: Key -> bool, c: Config, v: int, u: int) {
    u < TreeNodesCount(c) ==>
      forall w :: c.n <= w <= u ==> a(Ch(v, u)) ==> !a(Lp(v, w)) && !a(Rp(v, w))
  }

  ghost predicate OrderEdgesOk(a: Key -> bool, c: Config, v: int) {
    forall u :: u in Children(c, v) ==> OrderEdgeOk(a, c, v, u)
  }

  ghost predicate ChildParentOrderOk(a: Key -> bool, c: Config) {
    forall v :: IsReticulation(c, v) ==> OrderEdgesOk(a, c, v)
  }

  lemma OrderCell(a: Key -> bool, v: int, u: int, w: int)
    ensures Holds(a, ChildParentOrderCell(v, u, w)) <==> (a(Ch(v, u)) ==> !a(Lp(v, w)) && !a(Rp(v, w)))
  {
    var ch, lp, rp := Ch(v, u), Lp(v, w), Rp(v, w);
    var e1, e2 := Or([Neg(ch), Neg(lp)]), Or([Neg(ch), Neg(rp)]);
    var es := [Look(lp), Look(rp), e1, e2];
    assert ChildParentOrderCell(v, u, w) == es;
    assert es[2] == e1 && es[3] == e2;
    TwoHold(a, Neg(ch), Neg(lp));
    TwoHold(a, Neg(ch), Neg(rp));
  }

  lemma OrderMid(a: Key -> bool, c: Config, v: int, u: int)
    ensures MidHolds(a, ChildParentOrder(c), v, u) <==> OrderEdgeOk(a, c, v, u)
  {
    var sh := ChildParentOrder(c);
    assert Inner(sh, v, u, true) == [];
    if u < TreeNodesCount(c) {
      assert Pre(sh, v, u) == [Look(Ch(v, u))];
      assert Holds(a, [Look(Ch(v, u))]);
      assert Inner(sh, v, u, false) == Range(c.n, u + 1);
      RangeIn(c.n, u + 1);
      forall w ensures Holds(a, Cell(sh, v, u, false, w)) <==> (a(Ch(v, u)) ==> !a(Lp(v, w)) && !a(Rp(v, w))) {
        assert Cell(sh, v, u, false, w) == ChildParentOrderCell(v, u, w);
        OrderCell(a, v, u, w);
      }
    } else {
      assert Pre(sh, v, u) == [];
      assert Holds(a, []);
      assert Inner(sh, v, u, false) == [];
    }
  }

  lemma OrderEdgesItem(a: Key -> bool, c: Config, v: int)
    ensures ItemHolds(a, ChildParentOrder(c), v) <==> OrderEdgesOk(a, c, v)
  {
    var sh := ChildParentOrder(c);
    assert Head(sh, v) == [];
    assert Holds(a, []);
    assert Mid(sh, v) == Children(c, v);
    forall u ensures MidHolds(a, sh, v, u) <==> OrderEdgeOk(a, c, v, u) {
      OrderMid(a, c, v, u);
    }
  }

  /** The ordering section holds exactly when every reticulation's parents
      lie above its leaf or tree-node child. */
  lemma ChildParentOrderMeaning(a: Key -> bool, c: Config)
    ensures Holds(a, Section(ChildParentOrder(c))) <==> ChildParentOrderOk(a, c)
  {
    var sh := ChildParentOrder(c);
    SectionMeaning(a, sh);
    RangeIn(TreeNodesCount(c), NodeCount(c));
    forall v ensures ItemHolds(a, sh, v) <==> OrderEdgesOk(a, c, v) {
      OrderEdgesItem(a, c, v);
    }
  }

  /** The clauses addChildParentConstraints emits hold exactly when child
      and parent choices agree in both directions and every reticulation's
      parents lie above its leaf or tree-node child. */
  lemma ChildParentMeaning(a: Key -> bool, c: Config)
    ensures Holds(a, ChildParentPhase(c)) <==>
      ChildParentTreeOk(a, c) && ChildParentNetOk(a, c) && ChildParentOrderOk(a, c)
  {
    var s1, s2, s3 := Section(ChildParentTree(c)), Section(ChildParentNet(c)), Section(ChildParentOrder(c));
    SatAppend(a, s1 + s2, s3);
    SatAppend(a, s1, s2);
    ChildParentTreeMeaning(a, c);
    ChildParentNetMeaning(a, c);
    ChildParentOrderMeaning(a, c);
  }

  // ---- addDirUsedConstraints ----

  /** In tree t, the parent edge of reticulation v that dir does not select
      leaves its tree-node end unused: with dir clear the left parent, with
      dir set the right parent. */
  ghost predicate DirEdgeOk(a: Key -> bool, c: Config, t: int, v: int, u: int) {
    u < TreeNodesCount(c) ==>
      (!a(Dir(t, v)) && a(Lp(v, u)) ==> !a(Used(t, u))) && (a(Dir(t, v)) && a(Rp(v, u)) ==> !a(Used(t, u)))
  }

  ghost predicate DirEdgesOk(a: Key -> bool, c: Config, t: int, v: int) {
    forall u :: u in Parents(c, v) ==> DirEdgeOk(a, c, t, v, u)
  }

  ghost predicate DirUsedOk(a: Key -> bool, c: Config, t: int) {
    forall v :: IsReticulation(c, v) ==> DirEdgesOk(a, c, t, v)
  }

  lemma DirEdgePre(a: Key -> bool, c: Config, t: int, v: int, u: int)
    ensures Holds(a, DirUsedPre(c, t, v, u)) <==> DirEdgeOk(a, c, t, v, u)
  {
    var dir, lp, rp := Dir(t, v), Lp(v, u), Rp(v, u);
    if u < TreeNodesCount(c) {
      var used := Used(t, u);
      var e1, e2 := Or([Pos(dir), Neg(lp), Neg(used)]), Or([Neg(dir), Neg(rp), Neg(used)]);
      var es := [Look(dir), Look(lp), Look(rp), Look(used), e1, e2];
      assert DirUsedPre(c, t, v, u) == es;
      assert es[4] == e1 && es[5] == e2;
      ThreeHold(a, Pos(dir), Neg(lp), Neg(used));
      ThreeHold(a, Neg(dir), Neg(rp), Neg(used));
    } else {
      assert DirUsedPre(c, t, v, u) == [Look(dir), Look(lp), Look(rp)];
    }
  }

  lemma DirEdgesItem(a: Key -> bool, c: Config, t: int, v: int)
    ensures ItemHolds(a, DirUsedLoop(c, t), v) <==> DirEdgesOk(a, c, t, v)
  {
    var sh := DirUsedLoop(c, t);
    assert Head(sh, v) == [];
    assert Holds(a, []);
    assert Mid(sh, v) == Parents(c, v);
    forall u ensures MidHolds(a, sh, v, u) <==> DirEdgeOk(a, c, t, v, u) {
      assert Inner(sh, v, u, false) == [] && Inner(sh, v, u, true) == [];
      assert Pre(sh, v, u) == DirUsedPre(c, t, v, u);
      DirEdgePre(a, c, t, v, u);
    }
  }

  /** The clauses addDirUsedConstraints emits hold exactly when, at every
      reticulation, the parent edge dir does not select is unused. */
  lemma DirUsedMeaning(a: Key -> bool, c: Config, t: int)
    ensures Holds(a, DirUsedPhase(c, t)) <==> DirUsedOk(a, c, t)
  {
    var sh := DirUsedLoop(c, t);
    SatAppend(a, [Remark], [Remark] + Section(sh));
    SatAppend(a, [Remark], Section(sh));
    assert Holds(a, [Remark]);
    SectionMeaning(a, sh);
    RangeIn(TreeNodesCount(c), NodeCount(c));
    forall v ensures ItemHolds(a, sh, v) <==> DirEdgesOk(a, c, t, v) {
      DirEdgesItem(a, c, t, v);
    }
  }

  // ---- addRUsedConstraints ----

  /** Without reticulations the rused phase emits its three comments and no clause. */
  lemma RUsedWithoutReticulations(c: Config, t: int)
    requires c.k == 0
    ensures RUsedPhase(c, t) == [Remark, Remark, Remark]
  {
    assert ReticulationNodes(c) == [];
    assert NestAll(RUsedChildren(c, t)) == [];
    assert NestAll(RUsedParents(c, t)) == [];
  }

  // ---- addXConstraints ----

  lemma PairClauseHolds(a: Key -> bool, l1: Lit, l2: Lit)
    ensures Holds(a, [Or([l1, l2])]) <==> LitHolds(a, l1) || LitHolds(a, l2)
  {
    assert [Or([l1, l2])][0] == Or([l1, l2]);
    TwoHold(a, l1, l2);
  }

  /** The comments of an exactly-one phase impose nothing. */
  lemma NotesHold(a: Key -> bool, f: Family)
    ensures Holds(a, Notes(f))
  {
    if Width(f) == 2 {
      assert Notes(f) == [Remark, Remark];
    } else {
      assert Notes(f) == [Remark];
    }
  }

  /** Inner nodes v and u of tree t are never realised by the same tree node. */
  ghost predicate XApart(a: Key -> bool, c: Config, t: int, v: int, u: int) {
    forall w :: IsTreeNode(c, w) ==> !(a(X(t, v, w)) && a(X(t, u, w)))
  }

  ghost predicate XRowApart(a: Key -> bool, c: Config, t: int, v: int) {
    forall u :: c.n <= u < v ==> XApart(a, c, t, v, u)
  }

  /** x of tree t is injective on its inner nodes other than its root. */
  ghost predicate XInjective(a: Key -> bool, c: Config, t: int) {
    forall v :: c.n <= v < 2 * c.n - 1 ==> XRowApart(a, c, t, v)
  }

  /** Every tree node realising an inner node of tree t is used by t. */
  ghost predicate XRowUsed(a: Key -> bool, c: Config, t: int, v: int) {
    forall u :: IsTreeNode(c, u) ==> a(X(t, v, u)) ==> a(Used(t, u))
  }

  ghost predicate XUsedOk(a: Key -> bool, c: Config, t: int) {
    forall v :: c.n <= v < 2 * c.n - 1 ==> XRowUsed(a, c, t, v)
  }

  lemma XApartMid(a: Key -> bool, c: Config, t: int, v: int, u: int)
    ensures MidHolds(a, XPointsTo(c, t), v, u) <==> XApart(a, c, t, v, u)
  {
    var sh := XPointsTo(c, t);
    assert Pre(sh, v, u) == [];
    assert Holds(a, []);
    assert Inner(sh, v, u, false) == TreeNodes(c) && Inner(sh, v, u, true) == [];
    RangeIn(c.n, TreeNodesCount(c));
    forall w ensures Holds(a, Cell(sh, v, u, false, w)) <==> !(a(X(t, v, w)) && a(X(t, u, w))) {
      assert Cell(sh, v, u, false, w) == [Or([Neg(X(t, v, w)), Neg(X(t, u, w))])];
      PairClauseHolds(a, Neg(X(t, v, w)), Neg(X(t, u, w)));
    }
  }

  lemma XApartItem(a: Key -> bool, c: Config, t: int, v: int)
    ensures ItemHolds(a, XPointsTo(c, t), v) <==> XRowApart(a, c, t, v)
  {
    var sh := XPointsTo(c, t);
    assert Head(sh, v) == [];
    assert Holds(a, []);
    assert Mid(sh, v) == Range(c.n, v);
    RangeIn(c.n, v);
    forall u ensures MidHolds(a, sh, v, u) <==> XApart(a, c, t, v, u) {
      XApartMid(a, c, t, v, u);
    }
  }

  /** The points-to section holds exactly when x of tree t is injective. */
  lemma XPointsToMeaning(a: Key -> bool, c: Config, t: int)
    ensures Holds(a, Section(XPointsTo(c, t))) <==> XInjective(a, c, t)
  {
    var sh := XPointsTo(c, t);
    SectionMeaning(a, sh);
    RangeIn(c.n, 2 * c.n - 1);
    forall v ensures ItemHolds(a, sh, v) <==> XRowApart(a, c, t, v) {
      XApartItem(a, c, t, v);
    }
  }

  lemma XUsedItem(a: Key -> bool, c: Config, t: int, v: int)
    ensures ItemHolds(a, XUsed(c, t), v) <==> XRowUsed(a, c, t, v)
  {
    var sh := XUsed(c, t);
    assert Head(sh, v) == [];
    assert Holds(a, []);
    assert Mid(sh, v) == TreeNodes(c);
    RangeIn(c.n, TreeNodesCount(c));
    forall u ensures MidHolds(a, sh, v, u) <==> (a(X(t, v, u)) ==> a(Used(t, u))) {
      assert Inner(sh, v, u, false) == [] && Inner(sh, v, u, true) == [];
      assert Pre(sh, v, u) == [Or([Neg(X(t, v, u)), Pos(Used(t, u))])];
      PairClauseHolds(a, Neg(X(t, v, u)), Pos(Used(t, u)));
    }
  }

  /** The used section holds exactly when every realising tree node is used. */
  lemma XUsedMeaning(a: Key -> bool, c: Config, t: int)
    ensures Holds(a, Section(XUsed(c, t))) <==> XUsedOk(a, c, t)
  {
    var sh := XUsed(c, t);
    SectionMeaning(a, sh);
    RangeIn(c.n, 2 * c.n - 1);
    forall v ensures ItemHolds(a, sh, v) <==> XRowUsed(a, c, t, v) {
      XUsedItem(a, c, t, v);
    }
  }

  /** The clauses addXConstraints emits hold exactly when each inner node of
      tree t is realised by exactly one tree node, no two of them by the
      same one, and every realising node is used. */
  lemma XMeaning(a: Key -> bool, c: Config, t: int)
    requires c.n >= 1
    ensures Holds(a, XPhase(c, t)) <==>
      FamilyChoice(a, c, XF(t)) && XInjective(a, c, t) && XUsedOk(a, c, t)
  {
    var f := XF(t);
    SatAppend(a, ExactlyOnePhase(c, f), Section(XPointsTo(c, t)) + Section(XUsed(c, t)));
    SatAppend(a, Section(XPointsTo(c, t)), Section(XUsed(c, t)));
    SatAppend(a, Notes(f), ExactlyOneClauses(c, f));
    NotesHold(a, f);
    FamilyExactlyOne(a, c, f);
    XPointsToMeaning(a, c, t);
    XUsedMeaning(a, c, t);
  }

  // ---- addUpConstraints, leaves and tree nodes ----

  /** With u the parent of v: a used tree node u is where v goes up to, and
      an unused one is not. */
  ghost predicate UpSnapOk(a: Key -> bool, c: Config, t: int, v: int, u: int) {
    u < TreeNodesCount(c) ==> (a(Parent(v, u)) ==> (a(Up(t, v, u)) <==> a(Used(t, u))))
  }

  /** With u the parent of v and w a tree-node parent of u: through an unused
      tree node u, v goes up to w exactly when u does; through a reticulation
      u, v goes up to wherever u does, and that lies above v. */
  ghost predicate UpChainOk(a: Key -> bool, c: Config, t: int, v: int, u: int, w: int) {
    if u < TreeNodesCount(c) then
      a(Parent(v, u)) && !a(Used(t, u)) ==> (a(Up(t, v, w)) <==> a(Up(t, u, w)))
    else
      a(Parent(v, u)) && a(Up(t, u, w)) ==> v < w && a(Up(t, v, w))
  }

  ghost predicate UpEdgeOk(a: Key -> bool, c: Config, t: int, v: int, u: int) {
    UpSnapOk(a, c, t, v, u) && forall w :: w in Ups(c, u) ==> UpChainOk(a, c, t, v, u, w)
  }

  ghost predicate UpNodeOk(a: Key -> bool, c: Config, t: int, v: int) {
    forall u :: u in Parents(c, v) ==> UpEdgeOk(a, c, t, v, u)
  }

  ghost predicate UpTreeOk(a: Key -> bool, c: Config, t: int) {
    forall v :: 0 <= v < TreeNodesCount(c) ==> UpNodeOk(a, c, t, v)
  }

  lemma UpSnapPre(a: Key -> bool, c: Config, t: int, v: int, u: int)
    ensures Holds(a, UpTreePre(c, t, v, u)) <==> UpSnapOk(a, c, t, v, u)
  {
    var p := Parent(v, u);
    if u < TreeNodesCount(c) {
      var up, used := Up(t, v, u), Used(t, u);
      var e1, e2 := Or([Neg(p), Neg(used), Pos(up)]), Or([Neg(p), Neg(up), Pos(used)]);
      var es := [Look(p), Look(up), Look(used), e1, e2];
      assert UpTreePre(c, t, v, u) == es;
      assert es[3] == e1 && es[4] == e2;
      ThreeHold(a, Neg(p), Neg(used), Pos(up));
      ThreeHold(a, Neg(p), Neg(up), Pos(used));
    } else {
      assert UpTreePre(c, t, v, u) == [Look(p)];
    }
  }

  lemma UpChainCell(a: Key -> bool, c: Config, t: int, v: int, u: int, w: int)
    ensures Holds(a, UpTreeCell(c, t, v, u, w)) <==> UpChainOk(a, c, t, v, u, w)
  {
    var p, pup, vup := Parent(v, u), Up(t, u, w), Up(t, v, w);
    if u < TreeNodesCount(c) {
      var used := Used(t, u);
      var e1, e2 := Or([Neg(p), Pos(used), Neg(pup), Pos(vup)]), Or([Neg(p), Pos(used), Neg(vup), Pos(pup)]);
      var es := [Look(vup), Look(pup), e1, e2];
      assert UpTreeCell(c, t, v, u, w) == es;
      assert es[2] == e1 && es[3] == e2;
      FourHold(a, Neg(p), Pos(used), Neg(pup), Pos(vup));
      FourHold(a, Neg(p), Pos(used), Neg(vup), Pos(pup));
    } else if w <= v {
      var e := Or([Neg(p), Neg(pup)]);
      assert UpTreeCell(c, t, v, u, w) == [Look(pup), e];
      assert [Look(pup), e][1] == e;
      TwoHold(a, Neg(p), Neg(pup));
    } else {
      var e := Or([Neg(p), Neg(pup), Pos(vup)]);
      var es := [Look(pup), Look(vup), e];
      assert UpTreeCell(c, t, v, u, w) == es;
      assert es[2] == e;
      ThreeHold(a, Neg(p), Neg(pup), Pos(vup));
    }
  }

  lemma UpEdgeMid(a: Key -> bool, c: Config, t: int, v: int, u: int)
    ensures MidHolds(a, UpTree(c, t), v, u) <==> UpEdgeOk(a, c, t, v, u)
  {
    var sh := UpTree(c, t);
    assert Pre(sh, v, u) == UpTreePre(c, t, v, u);
    UpSnapPre(a, c, t, v, u);
    assert Inner(sh, v, u, false) == Ups(c, u) && Inner(sh, v, u, true) == [];
    forall w ensures Holds(a, Cell(sh, v, u, false, w)) <==> UpChainOk(a, c, t, v, u, w) {
      assert Cell(sh, v, u, false, w) == UpTreeCell(c, t, v, u, w);
      UpChainCell(a, c, t, v, u, w);
    }
  }

  lemma UpNodeItem(a: Key -> bool, c: Config, t: int, v: int)
    ensures ItemHolds(a, UpTree(c, t), v) <==> UpNodeOk(a, c, t, v)
  {
    var sh := UpTree(c, t);
    assert Head(sh, v) == [];
    assert Holds(a, []);
    assert Mid(sh, v) == Parents(c, v);
    forall u ensures MidHolds(a, sh, v, u) <==> UpEdgeOk(a, c, t, v, u) {
      UpEdgeMid(a, c, t, v, u);
    }
  }

  /** The section for leaves and tree nodes holds exactly when each of them
      goes up through its parent as described above. */
  lemma UpTreeMeaning(a: Key -> bool, c: Config, t: int)
    ensures Holds(a, Section(UpTree(c, t))) <==> UpTreeOk(a, c, t)
  {
    var sh := UpTree(c, t);
    SectionMeaning(a, sh);
    RangeIn(0, TreeNodesCount(c));
    forall v ensures ItemHolds(a, sh, v) <==> UpNodeOk(a, c, t, v) {
      UpNodeItem(a, c, t, v);
    }
  }

  // ---- addUpConstraints, reticulations ----

  /** In tree t, reticulation v is entered from u: u is its left parent with
      dir set, or its right parent with dir clear. */
  ghost predicate EnteredFrom(a: Key -> bool, t: int, v: int, u: int) {
    (a(Lp(v, u)) && a(Dir(t, v))) || (a(Rp(v, u)) && !a(Dir(t, v)))
  }

  /** Entered from a used tree node u, v goes up to u. */
  ghost predicate NetSnapOk(a: Key -> bool, c: Config, t: int, v: int, u: int) {
    u < TreeNodesCount(c) ==> (EnteredFrom(a, t, v, u) && a(Used(t, u)) ==> a(Up(t, v, u)))
  }

  /** Entered from u that is an unused tree node or a reticulation, v goes up
      to wherever u does. */
  ghost predicate NetChainOk(a: Key -> bool, c: Config, t: int, v: int, u: int, w: int) {
    EnteredFrom(a, t, v, u) && (u < TreeNodesCount(c) ==> !a(Used(t, u))) && a(Up(t, u, w)) ==> a(Up(t, v, w))
  }

  ghost predicate NetUpEdgeOk(a: Key -> bool, c: Config, t: int, v: int, u: int) {
    NetSnapOk(a, c, t, v, u) && forall w :: w in Ups(c, u) ==> NetChainOk(a, c, t, v, u, w)
  }

  ghost predicate NetUpNodeOk(a: Key -> bool, c: Config, t: int, v: int) {
    forall u :: u in Parents(c, v) ==> NetUpEdgeOk(a, c, t, v, u)
  }

  ghost predicate UpNetOk(a: Key -> bool, c: Config, t: int) {
    forall v :: IsReticulation(c, v) ==> NetUpNodeOk(a, c, t, v)
  }

  lemma NetSnapPre(a: Key -> bool, c: Config, t: int, v: int, u: int)
    ensures Holds(a, UpNetPre(c, t, v, u)) <==> NetSnapOk(a, c, t, v, u)
  {
    var dir, lp, rp := Dir(t, v), Lp(v, u), Rp(v, u);
    if u < TreeNodesCount(c) {
      var used, up := Used(t, u), Up(t, v, u);
      var e1, e2 := Or([Neg(lp), Neg(dir), Neg(used), Pos(up)]), Or([Neg(rp), Pos(dir), Neg(used), Pos(up)]);
      var es := [Look(lp), Look(rp), Look(used), Look(up), e1, e2];
      assert UpNetPre(c, t, v, u) == es;
      assert es[4] == e1 && es[5] == e2;
      FourHold(a, Neg(lp), Neg(dir), Neg(used), Pos(up));
      FourHold(a, Neg(rp), Pos(dir), Neg(used), Pos(up));
    } else {
      assert UpNetPre(c, t, v, u) == [Look(lp), Look(rp)];
    }
  }

  lemma NetChainCell(a: Key -> bool, c: Config, t: int, v: int, u: int, w: int)
    ensures Holds(a, UpNetCell(c, t, v, u, w)) <==> NetChainOk(a, c, t, v, u, w)
  {
    var dir, lp, rp, pup, vup := Dir(t, v), Lp(v, u), Rp(v, u), Up(t, u, w), Up(t, v, w);
    if u < TreeNodesCount(c) {
      var used := Used(t, u);
      var e1 := Or([Neg(lp), Neg(dir), Pos(used), Neg(pup), Pos(vup)]);
      var e2 := Or([Neg(rp), Pos(dir), Pos(used), Neg(pup), Pos(vup)]);
      var es := [Look(pup), Look(vup), e1, e2];
      assert UpNetCell(c, t, v, u, w) == es;
      assert es[2] == e1 && es[3] == e2;
      FiveHold(a, Neg(lp), Neg(dir), Pos(used), Neg(pup), Pos(vup));
      FiveHold(a, Neg(rp), Pos(dir), Pos(used), Neg(pup), Pos(vup));
    } else {
      var e1, e2 := Or([Neg(lp), Neg(dir), Neg(pup), Pos(vup)]), Or([Neg(rp), Pos(dir), Neg(pup), Pos(vup)]);
      var es := [Look(pup), Look(vup), e1, e2];
      assert UpNetCell(c, t, v, u, w) == es;
      assert es[2] == e1 && es[3] == e2;
      FourHold(a, Neg(lp), Neg(dir), Neg(pup), Pos(vup));
      FourHold(a, Neg(rp), Pos(dir), Neg(pup), Pos(vup));
    }
  }

  lemma NetUpEdgeMid(a: Key -> bool, c: Config, t: int, v: int, u: int)
    ensures MidHolds(a, UpNet(c, t), v, u) <==> NetUpEdgeOk(a, c, t, v, u)
  {
    var sh := UpNet(c, t);
    assert Pre(sh, v, u) == UpNetPre(c, t, v, u);
    NetSnapPre(a, c, t, v, u);
    assert Inner(sh, v, u, false) == Ups(c, u) && Inner(sh, v, u, true) == [];
    forall w ensures Holds(a, Cell(sh, v, u, false, w)) <==> NetChainOk(a, c, t, v, u, w) {
      assert Cell(sh, v, u, false, w) == UpNetCell(c, t, v, u, w);
      NetChainCell(a, c, t, v, u, w);
    }
  }

  lemma NetUpNodeItem(a: Key -> bool, c: Config, t: int, v: int)
    ensures ItemHolds(a, UpNet(c, t), v) <==> NetUpNodeOk(a, c, t, v)
  {
    var sh := UpNet(c, t);
    assert Head(sh, v) == [Look(Dir(t, v))];
    assert Holds(a, [Look(Dir(t, v))]);
    assert Mid(sh, v) == Parents(c, v);
    forall u ensures MidHolds(a, sh, v, u) <==> NetUpEdgeOk(a, c, t, v, u) {
      NetUpEdgeMid(a, c, t, v, u);
    }
  }

  /** The reticulation section holds exactly when each reticulation goes up
      through the parent its tree enters it from. */
  lemma UpNetMeaning(a: Key -> bool, c: Config, t: int)
    ensures Holds(a, Section(UpNet(c, t))) <==> UpNetOk(a, c, t)
  {
    var sh := UpNet(c, t);
    SectionMeaning(a, sh);
    RangeIn(TreeNodesCount(c), NodeCount(c));
    forall v ensures ItemHolds(a, sh, v) <==> NetUpNodeOk(a, c, t, v) {
      NetUpNodeItem(a, c, t, v);
    }
  }

  /** The clauses addUpConstraints emits hold exactly when every node but
      the root goes up to exactly one tree node and up follows the parent
      and used choices as stated by UpTreeOk and UpNetOk. */
  lemma UpMeaning(a: Key -> bool, c: Config, t: int)
    requires c.n >= 1
    ensures Holds(a, UpPhase(c, t)) <==>
      FamilyChoice(a, c, UpF(t)) && UpTreeOk(a, c, t) && UpNetOk(a, c, t)
  {
    var f := UpF(t);
    SatAppend(a, ExactlyOnePhase(c, f), Section(UpTree(c, t)) + Section(UpNet(c, t)));
    SatAppend(a, Section(UpTree(c, t)), Section(UpNet(c, t)));
    SatAppend(a, Notes(f), ExactlyOneClauses(c, f));
    NotesHold(a, f);
    FamilyExactlyOne(a, c, f);
    UpTreeMeaning(a, c, t);
    UpNetMeaning(a, c, t);
  }
}
