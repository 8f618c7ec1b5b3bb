/**
 * Lookup safety: every getVar of every clause loop finds a declared key,
 * given the families buildCNF has declared by the time the loop runs.
 */
module Safety {
  import opened Topology
  import opened Registry
  import opened Formula
  import opened Trees
  import opened Families
  import opened Nests

  /** The four families buildCNF declares before any per-tree step. */
  ghost predicate GlobalsDeclared(c: Config, m: map<Key, int>) {
    && FamilyDeclared(c, ParentF, m)
    && FamilyDeclared(c, LeftRightF, m)
    && FamilyDeclared(c, ChF, m)
    && FamilyDeclared(c, LpRpF, m)
  }

  /** The families one iteration of buildCNF's tree loop declares. */
  ghost predicate TreeFamiliesDeclared(c: Config, t: int, m: map<Key, int>) {
    && NodesDeclared(c, DirF(t), m)
    && NodesDeclared(c, UsedF(t), m)
    && (c.linkReticulations ==> NodesDeclared(c, RUsedF(t), m))
    && FamilyDeclared(c, UpF(t), m)
    && FamilyDeclared(c, XF(t), m)
  }

  /** The families of every tree numbered below i are declared. */
  ghost predicate TreesDeclared(c: Config, i: int, m: map<Key, int>) {
    forall t :: 0 <= t < i ==> TreeFamiliesDeclared(c, t, m)
  }

  // ---- Declared keys stay declared ----

  lemma FamilyGrows(c: Config, f: Family, m: map<Key, int>, m': map<Key, int>)
    requires FamilyDeclared(c, f, m) && forall key :: key in m ==> key in m'
    ensures FamilyDeclared(c, f, m')
  {
    DeclaredGrows(c, f, 0, m, m');
    if Width(f) == 2 {
      DeclaredGrows(c, f, 1, m, m');
    }
  }

  lemma NodesGrow(c: Config, g: NodeFamily, m: map<Key, int>, m': map<Key, int>)
    requires NodesDeclared(c, g, m) && forall key :: key in m ==> key in m'
    ensures NodesDeclared(c, g, m')
  {
  }

  lemma GlobalsGrow(c: Config, m: map<Key, int>, m': map<Key, int>)
    requires GlobalsDeclared(c, m) && forall key :: key in m ==> key in m'
    ensures GlobalsDeclared(c, m')
  {
    FamilyGrows(c, ParentF, m, m');
    FamilyGrows(c, LeftRightF, m, m');
    FamilyGrows(c, ChF, m, m');
    FamilyGrows(c, LpRpF, m, m');
  }

  lemma TopologyGrows(c: Config, t: int, m: map<Key, int>, m': map<Key, int>)
    requires GlobalsDeclared(c, m) && NodesDeclared(c, DirF(t), m) && NodesDeclared(c, UsedF(t), m)
    requires c.linkReticulations ==> NodesDeclared(c, RUsedF(t), m)
    requires forall key :: key in m ==> key in m'
    ensures GlobalsDeclared(c, m') && NodesDeclared(c, DirF(t), m') && NodesDeclared(c, UsedF(t), m')
    ensures c.linkReticulations ==> NodesDeclared(c, RUsedF(t), m')
  {
    GlobalsGrow(c, m, m');
  }

  lemma TreesGrow(c: Config, i: int, m: map<Key, int>, m': map<Key, int>)
    requires TreesDeclared(c, i, m) && forall key :: key in m ==> key in m'
    ensures TreesDeclared(c, i, m')
  {
    forall t | 0 <= t < i
      ensures TreeFamiliesDeclared(c, t, m')
    {
      assert TreeFamiliesDeclared(c, t, m);
      FamilyGrows(c, UpF(t), m, m');
      FamilyGrows(c, XF(t), m, m');
    }
  }

  // ---- One key of each family ----

  lemma ParentIn(c: Config, m: map<Key, int>, v: int, u: int)
    requires FamilyDeclared(c, ParentF, m) && 0 <= v < Root(c) && u in Parents(c, v)
    ensures Parent(v, u) in m
  {
    assert FamKey(ParentF, 0, v, u) == Parent(v, u);
  }

  lemma LeftRightIn(c: Config, m: map<Key, int>, v: int, u: int)
    requires FamilyDeclared(c, LeftRightF, m) && IsTreeNode(c, v) && u in Children(c, v)
    ensures Left(v, u) in m && Right(v, u) in m
  {
    assert FamKey(LeftRightF, 0, v, u) == Left(v, u);
    assert FamKey(LeftRightF, 1, v, u) == Right(v, u);
  }

  lemma ChIn(c: Config, m: map<Key, int>, v: int, u: int)
    requires FamilyDeclared(c, ChF, m) && IsReticulation(c, v) && u in Children(c, v)
    ensures Ch(v, u) in m
  {
    assert FamKey(ChF, 0, v, u) == Ch(v, u);
  }

  lemma LpRpIn(c: Config, m: map<Key, int>, v: int, u: int)
    requires FamilyDeclared(c, LpRpF, m) && IsReticulation(c, v) && u in Parents(c, v)
    ensures Lp(v, u) in m && Rp(v, u) in m
  {
    assert FamKey(LpRpF, 0, v, u) == Lp(v, u);
    assert FamKey(LpRpF, 1, v, u) == Rp(v, u);
  }

  lemma UpIn(c: Config, t: int, m: map<Key, int>, v: int, u: int)
    requires FamilyDeclared(c, UpF(t), m) && 0 <= v < NodeCount(c) && u in Ups(c, v)
    ensures Up(t, v, u) in m
  {
    assert FamKey(UpF(t), 0, v, u) == Up(t, v, u);
  }

  lemma XIn(c: Config, t: int, m: map<Key, int>, v: int, u: int)
    requires FamilyDeclared(c, XF(t), m) && c.n <= v < 2 * c.n - 1 && IsTreeNode(c, u)
    ensures X(t, v, u) in m
  {
    RangeMembers(c.n, TreeNodesCount(c));
    assert FamKey(XF(t), 0, v, u) == X(t, v, u);
  }

  /** An up candidate is a tree node, and an up candidate of the parent is
      one of the node itself, for a leaf, a reticulation, or a candidate
      above the node (the case the up section does not split off). */
  lemma UpsOfParent(c: Config, v: int, u: int, w: int)
    requires 0 <= v < NodeCount(c) && u in Parents(c, v) && w in Ups(c, u)
    requires 0 <= v < c.n || IsReticulation(c, v) || w > v
    ensures IsTreeNode(c, w) && w in Ups(c, v)
  {
    ParentsMembers(c, v, u);
    UpsMembers(c, u, w);
    ParentsMembers(c, u, w);
    UpsMembers(c, v, w);
    ParentsMembers(c, v, w);
  }

  // ---- addChildParentConstraints ----

  lemma ChildParentTreeReady(c: Config, m: map<Key, int>)
    requires GlobalsDeclared(c, m)
    ensures NestReady(ChildParentTree(c), m)
  {
    var sh := ChildParentTree(c);
    forall v | v in Outer(sh)
      ensures ItemReady(sh, v, m)
    {
      RangeMembers(c.n, TreeNodesCount(c));
      forall u | u in Mid(sh, v)
        ensures MidReady(sh, v, u, m)
      {
        ChildrenMembers(c, v, u);
        ParentsMembers(c, u, v);
        LeftRightIn(c, m, v, u);
        if u < TreeNodesCount(c) {
          ParentIn(c, m, u, v);
        } else {
          LpRpIn(c, m, u, v);
        }
      }
    }
  }

  /** The child-parent lookups of the reticulation loop are safe when no
      reticulation may be linked to another, or when there is none. */
  lemma ChildParentNetReady(c: Config, m: map<Key, int>)
    requires GlobalsDeclared(c, m) && (!c.linkReticulations || c.k == 0)
    ensures NestReady(ChildParentNet(c), m)
  {
    var sh := ChildParentNet(c);
    forall v | v in Outer(sh)
      ensures ItemReady(sh, v, m)
    {
      RangeMembers(TreeNodesCount(c), NodeCount(c));
      forall u | u in Mid(sh, v)
        ensures MidReady(sh, v, u, m)
      {
        ChildrenMembers(c, v, u);
        ParentsMembers(c, u, v);
        ChIn(c, m, v, u);
        ParentIn(c, m, u, v);
      }
    }
  }

  /** The exception: with linked reticulations the reticulation loop looks
      up parent_root_v, a key the parent family never declares. */
  lemma ChildParentGap(c: Config, v: int)
    requires c.n >= 1 && c.linkReticulations && IsReticulation(c, v)
    ensures v in Outer(ChildParentNet(c)) && Root(c) in Mid(ChildParentNet(c), v)
    ensures Look(Parent(Root(c), v)) in Pre(ChildParentNet(c), v, Root(c))
    ensures Parent(Root(c), v) !in FamDecl(c, ParentF, 0)
  {
    RangeMembers(TreeNodesCount(c), NodeCount(c));
    RootDualityGap(c, v);
    assert Pre(ChildParentNet(c), v, Root(c))[1] == Look(Parent(Root(c), v));
    RowsKeys(ParentF, 0, FamLo(c, ParentF), Table(c, ParentF), |Table(c, ParentF)|);
    TableEntries(c, ParentF);
  }

  lemma ChildParentOrderReady(c: Config, m: map<Key, int>)
    requires GlobalsDeclared(c, m)
    ensures NestReady(ChildParentOrder(c), m)
  {
    var sh := ChildParentOrder(c);
    forall v | v in Outer(sh)
      ensures ItemReady(sh, v, m)
    {
      RangeMembers(TreeNodesCount(c), NodeCount(c));
      forall u | u in Mid(sh, v)
        ensures MidReady(sh, v, u, m)
      {
        ChildrenMembers(c, v, u);
        ChIn(c, m, v, u);
        if u < TreeNodesCount(c) {
          RangeMembers(c.n, u + 1);
          forall w | w in Inner(sh, v, u, false)
            ensures AllIn(Cell(sh, v, u, false, w), m)
          {
            ParentsMembers(c, v, w);
            LpRpIn(c, m, v, w);
          }
        }
      }
    }
  }

  lemma DirIn(c: Config, t: int, m: map<Key, int>, v: int)
    requires NodesDeclared(c, DirF(t), m) && IsReticulation(c, v)
    ensures Dir(t, v) in m
  {
    assert NodeKey(DirF(t), v) == Dir(t, v);
  }

  lemma UsedIn(c: Config, t: int, m: map<Key, int>, v: int)
    requires NodesDeclared(c, UsedF(t), m) && IsTreeNode(c, v)
    ensures Used(t, v) in m
  {
    assert NodeKey(UsedF(t), v) == Used(t, v);
  }

  lemma RUsedIn(c: Config, t: int, m: map<Key, int>, v: int)
    requires NodesDeclared(c, RUsedF(t), m) && IsReticulation(c, v)
    ensures RUsed(t, v) in m
  {
    assert NodeKey(RUsedF(t), v) == RUsed(t, v);
  }

  // ---- addDirUsedConstraints and addRUsedConstraints ----

  lemma DirUsedReady(c: Config, t: int, m: map<Key, int>)
    requires GlobalsDeclared(c, m) && NodesDeclared(c, DirF(t), m) && NodesDeclared(c, UsedF(t), m)
    ensures NestReady(DirUsedLoop(c, t), m)
  {
    var sh := DirUsedLoop(c, t);
    forall v | v in Outer(sh)
      ensures ItemReady(sh, v, m)
    {
      RangeMembers(TreeNodesCount(c), NodeCount(c));
      forall u | u in Mid(sh, v)
        ensures MidReady(sh, v, u, m)
      {
        ParentsMembers(c, v, u);
        LpRpIn(c, m, v, u);
        DirIn(c, t, m, v);
        if u < TreeNodesCount(c) {
          UsedIn(c, t, m, u);
        }
      }
    }
  }

  lemma RUsedChildPreIn(c: Config, t: int, m: map<Key, int>, v: int, u: int)
    requires GlobalsDeclared(c, m) && NodesDeclared(c, DirF(t), m) && NodesDeclared(c, RUsedF(t), m)
    requires IsReticulation(c, v) && u in Children(c, v)
    ensures AllIn(RUsedChildPre(c, t, v, u), m)
  {
    ChildrenMembers(c, v, u);
    ChIn(c, m, v, u);
    RUsedIn(c, t, m, v);
    if u >= TreeNodesCount(c) {
      ParentsMembers(c, u, v);
      LpRpIn(c, m, u, v);
      RUsedIn(c, t, m, u);
      DirIn(c, t, m, u);
    }
  }

  lemma RUsedChildrenReady(c: Config, t: int, m: map<Key, int>)
    requires GlobalsDeclared(c, m) && NodesDeclared(c, DirF(t), m) && NodesDeclared(c, RUsedF(t), m)
    ensures NestReady(RUsedChildren(c, t), m)
  {
    var sh := RUsedChildren(c, t);
    forall v | v in Outer(sh)
      ensures ItemReady(sh, v, m)
    {
      RangeMembers(TreeNodesCount(c), NodeCount(c));
      RUsedIn(c, t, m, v);
      forall u | u in Mid(sh, v)
        ensures MidReady(sh, v, u, m)
      {
        RUsedChildPreIn(c, t, m, v, u);
      }
    }
  }

  lemma RUsedParentsReady(c: Config, t: int, m: map<Key, int>)
    requires GlobalsDeclared(c, m) && NodesDeclared(c, UsedF(t), m) && NodesDeclared(c, RUsedF(t), m)
    ensures NestReady(RUsedParents(c, t), m)
  {
    var sh := RUsedParents(c, t);
    forall v | v in Outer(sh)
      ensures ItemReady(sh, v, m)
    {
      RangeMembers(TreeNodesCount(c), NodeCount(c));
      RUsedIn(c, t, m, v);
      forall u | u in Mid(sh, v)
        ensures MidReady(sh, v, u, m)
      {
        ParentsMembers(c, v, u);
        LpRpIn(c, m, v, u);
        if u < TreeNodesCount(c) {
          UsedIn(c, t, m, u);
        }
      }
    }
  }

  // ---- addUpConstraints ----

  lemma UpTreePreIn(c: Config, t: int, m: map<Key, int>, v: int, u: int)
    requires GlobalsDeclared(c, m) && NodesDeclared(c, UsedF(t), m) && FamilyDeclared(c, UpF(t), m)
    requires 0 <= v < TreeNodesCount(c) && u in Parents(c, v)
    ensures AllIn(UpTreePre(c, t, v, u), m)
  {
    ParentsMembers(c, v, u);
    UpsMembers(c, v, u);
    ParentIn(c, m, v, u);
    if u < TreeNodesCount(c) {
      UpIn(c, t, m, v, u);
      UsedIn(c, t, m, u);
    }
  }

  lemma UpTreeCellIn(c: Config, t: int, m: map<Key, int>, v: int, u: int, w: int)
    requires GlobalsDeclared(c, m) && NodesDeclared(c, UsedF(t), m) && FamilyDeclared(c, UpF(t), m)
    requires 0 <= v < TreeNodesCount(c) && u in Parents(c, v) && w in Ups(c, u)
    ensures AllIn(UpTreeCell(c, t, v, u, w), m)
  {
    ParentsMembers(c, v, u);
    ParentIn(c, m, v, u);
    UpIn(c, t, m, u, w);
    if u < TreeNodesCount(c) {
      UpTreeCellTree(c, t, m, v, u, w);
    } else if w > v {
      UpsOfParent(c, v, u, w);
      UpIn(c, t, m, v, w);
    }
  }

  /** The case of a tree-node parent, whose up candidates lie above the node itself. */
  lemma UpTreeCellTree(c: Config, t: int, m: map<Key, int>, v: int, u: int, w: int)
    requires NodesDeclared(c, UsedF(t), m) && FamilyDeclared(c, UpF(t), m)
    requires 0 <= v < TreeNodesCount(c) && u in Parents(c, v) && w in Ups(c, u) && u < TreeNodesCount(c)
    requires Parent(v, u) in m && Up(t, u, w) in m
    ensures AllIn(UpTreeCell(c, t, v, u, w), m)
  {
    ParentsMembers(c, v, u);
    UpsMembers(c, u, w);
    ParentsMembers(c, u, w);
    UsedIn(c, t, m, u);
    UpsOfParent(c, v, u, w);
    UpIn(c, t, m, v, w);
  }

  lemma UpTreeMid(c: Config, t: int, m: map<Key, int>, v: int, u: int)
    requires GlobalsDeclared(c, m) && NodesDeclared(c, UsedF(t), m) && FamilyDeclared(c, UpF(t), m)
    requires 0 <= v < TreeNodesCount(c) && u in Parents(c, v)
    ensures MidReady(UpTree(c, t), v, u, m)
  {
    var sh := UpTree(c, t);
    UpTreePreIn(c, t, m, v, u);
    forall w | w in Inner(sh, v, u, false)
      ensures AllIn(Cell(sh, v, u, false, w), m)
    {
      UpTreeCellIn(c, t, m, v, u, w);
    }
  }

  lemma UpTreeReady(c: Config, t: int, m: map<Key, int>)
    requires GlobalsDeclared(c, m) && NodesDeclared(c, UsedF(t), m) && FamilyDeclared(c, UpF(t), m)
    ensures NestReady(UpTree(c, t), m)
  {
    var sh := UpTree(c, t);
    forall v | v in Outer(sh)
      ensures ItemReady(sh, v, m)
    {
      RangeMembers(0, TreeNodesCount(c));
      forall u | u in Mid(sh, v)
        ensures MidReady(sh, v, u, m)
      {
        UpTreeMid(c, t, m, v, u);
      }
    }
  }

  lemma UpNetPreIn(c: Config, t: int, m: map<Key, int>, v: int, u: int)
    requires GlobalsDeclared(c, m) && NodesDeclared(c, DirF(t), m) && NodesDeclared(c, UsedF(t), m)
    requires FamilyDeclared(c, UpF(t), m)
    requires IsReticulation(c, v) && u in Parents(c, v)
    ensures AllIn(UpNetPre(c, t, v, u), m)
  {
    ParentsMembers(c, v, u);
    UpsMembers(c, v, u);
    LpRpIn(c, m, v, u);
    if u < TreeNodesCount(c) {
      DirIn(c, t, m, v);
      UpIn(c, t, m, v, u);
      UsedIn(c, t, m, u);
    }
  }

  lemma UpNetCellIn(c: Config, t: int, m: map<Key, int>, v: int, u: int, w: int)
    requires GlobalsDeclared(c, m) && NodesDeclared(c, DirF(t), m) && NodesDeclared(c, UsedF(t), m)
    requires FamilyDeclared(c, UpF(t), m)
    requires IsReticulation(c, v) && u in Parents(c, v) && w in Ups(c, u)
    ensures AllIn(UpNetCell(c, t, v, u, w), m)
  {
    ParentsMembers(c, v, u);
    LpRpIn(c, m, v, u);
    DirIn(c, t, m, v);
    UpIn(c, t, m, u, w);
    UpsOfParent(c, v, u, w);
    UpIn(c, t, m, v, w);
    if u < TreeNodesCount(c) {
      UsedIn(c, t, m, u);
    }
  }

  lemma UpNetMid(c: Config, t: int, m: map<Key, int>, v: int, u: int)
    requires GlobalsDeclared(c, m) && NodesDeclared(c, DirF(t), m) && NodesDeclared(c, UsedF(t), m)
    requires FamilyDeclared(c, UpF(t), m)
    requires IsReticulation(c, v) && u in Parents(c, v)
    ensures MidReady(UpNet(c, t), v, u, m)
  {
    var sh := UpNet(c, t);
    UpNetPreIn(c, t, m, v, u);
    forall w | w in Inner(sh, v, u, false)
      ensures AllIn(Cell(sh, v, u, false, w), m)
    {
      UpNetCellIn(c, t, m, v, u, w);
    }
  }

  lemma UpNetReady(c: Config, t: int, m: map<Key, int>)
    requires GlobalsDeclared(c, m) && NodesDeclared(c, DirF(t), m) && NodesDeclared(c, UsedF(t), m)
    requires FamilyDeclared(c, UpF(t), m)
    ensures NestReady(UpNet(c, t), m)
  {
    var sh := UpNet(c, t);
    forall v | v in Outer(sh)
      ensures ItemReady(sh, v, m)
    {
      RangeMembers(TreeNodesCount(c), NodeCount(c));
      DirIn(c, t, m, v);
      forall u | u in Mid(sh, v)
        ensures MidReady(sh, v, u, m)
      {
        UpNetMid(c, t, m, v, u);
      }
    }
  }

  // ---- addXConstraints ----

  lemma XPointsToReady(c: Config, t: int, m: map<Key, int>)
    requires FamilyDeclared(c, XF(t), m)
    ensures NestReady(XPointsTo(c, t), m)
  {
    var sh := XPointsTo(c, t);
    forall v | v in Outer(sh)
      ensures ItemReady(sh, v, m)
    {
      RangeMembers(c.n, 2 * c.n - 1);
      RangeMembers(c.n, v);
      RangeMembers(c.n, TreeNodesCount(c));
      forall u, w | u in Mid(sh, v) && w in Inner(sh, v, u, false)
        ensures AllIn(Cell(sh, v, u, false, w), m)
      {
        XIn(c, t, m, v, w);
        XIn(c, t, m, u, w);
      }
    }
  }

  lemma XUsedReady(c: Config, t: int, m: map<Key, int>)
    requires FamilyDeclared(c, XF(t), m) && NodesDeclared(c, UsedF(t), m)
    ensures NestReady(XUsed(c, t), m)
  {
    var sh := XUsed(c, t);
    forall v | v in Outer(sh)
      ensures ItemReady(sh, v, m)
    {
      RangeMembers(c.n, 2 * c.n - 1);
      RangeMembers(c.n, TreeNodesCount(c));
      forall u | u in Mid(sh, v)
        ensures MidReady(sh, v, u, m)
      {
        XIn(c, t, m, v, u);
        UsedIn(c, t, m, u);
      }
    }
  }

  // ---- addDataConstraints ----

  lemma DataPreIn(c: Config, t: int, tr: Tree, m: map<Key, int>, v: int, u: int)
    requires WellFormed(tr, c.n) && FamilyDeclared(c, XF(t), m) && FamilyDeclared(c, UpF(t), m)
    requires 0 <= v < Size(tr) && Get(tr.parent, v) != -1 && IsTreeNode(c, u)
    ensures AllIn(DataPre(c, t, tr, v, u), m)
  {
    if v < c.n {
      XIn(c, t, m, Get(tr.parent, v), u);
      ParentsMembers(c, v, u);
      UpsMembers(c, v, u);
      UpIn(c, t, m, v, u);
    } else {
      XIn(c, t, m, v, u);
    }
  }

  lemma DataCellIn(c: Config, t: int, tr: Tree, m: map<Key, int>, v: int, u: int, second: bool, w: int)
    requires WellFormed(tr, c.n) && FamilyDeclared(c, XF(t), m) && FamilyDeclared(c, UpF(t), m)
    requires c.n <= v < Size(tr) && Get(tr.parent, v) != -1 && IsTreeNode(c, u)
    requires if second then IsTreeNode(c, w) else w in Ups(c, u)
    ensures AllIn(DataCell(t, tr, v, u, second, w), m)
  {
    XIn(c, t, m, v, u);
    if second {
      XIn(c, t, m, Get(tr.parent, v), w);
    } else {
      UpsMembers(c, u, w);
      ParentsMembers(c, u, w);
      XIn(c, t, m, Get(tr.parent, v), w);
      UpIn(c, t, m, u, w);
    }
  }

  lemma DataMid(c: Config, t: int, tr: Tree, m: map<Key, int>, v: int, u: int)
    requires WellFormed(tr, c.n) && FamilyDeclared(c, XF(t), m) && FamilyDeclared(c, UpF(t), m)
    requires 0 <= v < Size(tr) && u in Mid(DataLoop(c, t, tr), v)
    ensures MidReady(DataLoop(c, t, tr), v, u, m)
  {
    var sh := DataLoop(c, t, tr);
    RangeMembers(c.n, TreeNodesCount(c));
    DataPreIn(c, t, tr, m, v, u);
    if c.n <= v {
      forall second, w | w in Inner(sh, v, u, second)
        ensures AllIn(Cell(sh, v, u, second, w), m)
      {
        RangeMembers(c.n, TreeNodesCount(c));
        DataCellIn(c, t, tr, m, v, u, second, w);
      }
    }
  }

  lemma DataReady(c: Config, t: int, tr: Tree, m: map<Key, int>)
    requires WellFormed(tr, c.n) && FamilyDeclared(c, XF(t), m) && FamilyDeclared(c, UpF(t), m)
    ensures NestReady(DataLoop(c, t, tr), m)
  {
    var sh := DataLoop(c, t, tr);
    forall v | v in Outer(sh)
      ensures ItemReady(sh, v, m)
    {
      RangeMembers(0, Size(tr));
      RangeMembers(c.n, TreeNodesCount(c));
      if Get(tr.parent, v) == -1 {
        XIn(c, t, m, v, Root(c));
      }
      forall u | u in Mid(sh, v)
        ensures MidReady(sh, v, u, m)
      {
        DataMid(c, t, tr, m, v, u);
      }
    }
  }

  /** The excluded ids are tree nodes: the subtree bound stays below 2n - 2
      and the depth bound above n - 1. */
  lemma HeapExcludedTreeNodes(c: Config, tr: Tree, v: int, u: int)
    requires WellFormed(tr, c.n) && c.n <= v < Size(tr) && u in HeapExcluded(c, tr, v)
    ensures IsTreeNode(c, u)
  {
    var a, b := Range(c.n, c.n + SubtreeNonLeaf(tr, v)), Range(TreeNodesCount(c) - Get(tr.depth, v), TreeNodesCount(c));
    RangeMembers(c.n, c.n + SubtreeNonLeaf(tr, v));
    RangeMembers(TreeNodesCount(c) - Get(tr.depth, v), TreeNodesCount(c));
    assert u in a || u in b;
    var q := JavaDiv(Get(tr.subtreeSize, v), 2);
    assert q <= c.n - 1;
  }

  lemma HeapReady(c: Config, t: int, tr: Tree, m: map<Key, int>)
    requires WellFormed(tr, c.n) && FamilyDeclared(c, XF(t), m)
    ensures NestReady(HeapLoop(c, t, tr), m)
  {
    var sh := HeapLoop(c, t, tr);
    forall v | v in Outer(sh)
      ensures ItemReady(sh, v, m)
    {
      RangeMembers(c.n, Size(tr) - 1);
      forall u | u in Mid(sh, v)
        ensures MidReady(sh, v, u, m)
      {
        HeapExcludedTreeNodes(c, tr, v, u);
        XIn(c, t, m, v, u);
      }
    }
  }

  // ---- addEqualsNodesConstraints and addDifferentTaxaNodesConstraints ----

  lemma EqualsDirectReady(c: Config, t1: int, n1: int, t2: int, n2: int, m: map<Key, int>)
    requires FamilyDeclared(c, XF(t1), m) && FamilyDeclared(c, XF(t2), m)
    requires c.n <= n1 < 2 * c.n - 1 && c.n <= n2 < 2 * c.n - 1
    ensures NestReady(EqualsDirect(c, t1, n1, t2, n2), m)
  {
    var sh := EqualsDirect(c, t1, n1, t2, n2);
    forall v | v in Outer(sh)
      ensures ItemReady(sh, v, m)
    {
      RangeMembers(c.n, TreeNodesCount(c));
      XIn(c, t1, m, n1, v);
      XIn(c, t2, m, n2, v);
    }
  }

  lemma EqualsSubtreeReady(c: Config, t1: int, tr1: Tree, n1: int, t2: int, tr2: Tree, n2: int, m: map<Key, int>)
    requires SubtreesIn(tr1, c.n) && FamilyDeclared(c, XF(t1), m) && FamilyDeclared(c, XF(t2), m)
    ensures NestReady(EqualsSubtree(c, t1, tr1, n1, t2, tr2, n2), m)
  {
    var sh := EqualsSubtree(c, t1, tr1, n1, t2, tr2, n2);
    forall v | v in Outer(sh)
      ensures ItemReady(sh, v, m)
    {
      EqualsSubtreeItem(c, t1, tr1, n1, t2, tr2, n2, m, v);
    }
  }

  lemma EqualsSubtreeItem(c: Config, t1: int, tr1: Tree, n1: int, t2: int, tr2: Tree, n2: int, m: map<Key, int>, v: int)
    requires SubtreesIn(tr1, c.n) && FamilyDeclared(c, XF(t1), m) && FamilyDeclared(c, XF(t2), m)
    requires v in At(tr1.subtreeNodes, n1)
    ensures ItemReady(EqualsSubtree(c, t1, tr1, n1, t2, tr2, n2), v, m)
  {
    var sh := EqualsSubtree(c, t1, tr1, n1, t2, tr2, n2);
    var i :| 0 <= i < |tr1.subtreeNodes[n1]| && tr1.subtreeNodes[n1][i] == v;
    assert v < 2 * c.n - 1;
    RangeMembers(c.n, 2 * c.n - 1);
    RangeMembers(c.n, TreeNodesCount(c));
    if c.n <= v {
      forall u, w | u in Mid(sh, v) && w in Inner(sh, v, u, false)
        ensures AllIn(Cell(sh, v, u, false, w), m)
      {
        assert w in TreeNodes(c);
        XIn(c, t1, m, v, w);
        XIn(c, t2, m, u, w);
      }
    }
  }

  lemma DifferentReady(c: Config, t1: int, n1: int, t2: int, n2: int, m: map<Key, int>)
    requires FamilyDeclared(c, XF(t1), m) && FamilyDeclared(c, XF(t2), m)
    requires c.n <= n1 < 2 * c.n - 1 && c.n <= n2 < 2 * c.n - 1
    ensures NestReady(DifferentLoop(c, t1, n1, t2, n2), m)
  {
    var sh := DifferentLoop(c, t1, n1, t2, n2);
    forall v | v in Outer(sh)
      ensures ItemReady(sh, v, m)
    {
      RangeMembers(c.n, TreeNodesCount(c));
      XIn(c, t1, m, n1, v);
      XIn(c, t2, m, n2, v);
    }
  }
}
