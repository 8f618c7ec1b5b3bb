/**
 * The clause loops of the encoders that are not exactly-one choices.
 *
 * Every such loop nest of FormulaBuilder has the same shape: an outer loop
 * over nodes v, a block of straight-line code for v, a middle loop over
 * candidates u of v, a block for (v, u), and up to two inner loops over
 * w, each iteration a block for (v, u, w). A Shape gives the lists those
 * loops run over and the emits of each block; the functions below build
 * the Shape of each loop nest of the source. A getVar whose id is kept in
 * a local is a Look at the point of the call; a getVar written inside an
 * addClause call is part of that clause.
 */
module Nests {
  import opened Topology
  import opened Registry
  import opened Formula
  import opened Trees
  import Cnf

  /** The loop nests of the encoders, one constructor each. The functions
      Outer, Head, Mid, Pre, Inner and Cell below give, for each, the lists
      its loops run over and the emits of each of its blocks. */
  datatype Shape =
    | ChildParentTree(c: Config)
    | ChildParentNet(c: Config)
    | ChildParentOrder(c: Config)
    | DirUsedLoop(c: Config, t: int)
    | RUsedChildren(c: Config, t: int)
    | RUsedParents(c: Config, t: int)
    | UpTree(c: Config, t: int)
    | UpNet(c: Config, t: int)
    | XPointsTo(c: Config, t: int)
    | XUsed(c: Config, t: int)
    | DataLoop(c: Config, t: int, tr: Tree)
    | HeapLoop(c: Config, t: int, tr: Tree)
    | EqualsDirect(c: Config, t1: int, n1: int, t2: int, n2: int)
    | EqualsSubtree(c: Config, t1: int, tr1: Tree, n1: int, t2: int, tr2: Tree, n2: int)
    | DifferentLoop(c: Config, t1: int, n1: int, t2: int, n2: int)

  /** Element i of a list of lists, or the empty list. */
  function At(s: seq<seq<int>>, i: int): (r: seq<int>) {
    if 0 <= i < |s| then s[i] else []
  }

  /** Element i of a list, or -1. */
  function Get(s: seq<int>, i: int): (r: int) {
    if 0 <= i < |s| then s[i] else -1
  }

  /** Java's int division, which truncates toward zero, for a positive divisor. */
  function JavaDiv(a: int, b: int): (q: int)
    requires b > 0
    ensures 0 <= a ==> q * b <= a < q * b + b
    ensures a < 0 ==> q * b - b < a <= q * b
  {
    if a >= 0 then a / b else -((-a) / b)
  }

  // ---- addChildParentConstraints ----

  /** Tree node v and child u: left or right means parent (lp or rp for a
      reticulation child), and the converse. */
  function ChildParentTreePre(c: Config, v: int, u: int): (r: seq<Emit>) {
    var l, r := Left(v, u), Right(v, u);
    [Look(l), Look(r)] +
    if u < TreeNodesCount(c) then
      var p := Parent(u, v);
      [Look(p), Or([Neg(l), Pos(p)]), Or([Neg(r), Pos(p)]), Or([Neg(p), Pos(l), Pos(r)])]
    else
      var lp, rp := Lp(u, v), Rp(u, v);
      [Look(lp), Look(rp),
       Or([Neg(l), Pos(lp), Pos(rp)]), Or([Neg(r), Pos(lp), Pos(rp)]),
       Or([Neg(lp), Pos(l), Pos(r)]), Or([Neg(rp), Pos(l), Pos(r)])]
  }

  /** Reticulation v and child u: ch agrees with the child's parent (or lp/rp). */
  function ChildParentNetPre(c: Config, v: int, u: int): (r: seq<Emit>) {
    var ch := Ch(v, u);
    [Look(ch)] +
    if u < TreeNodesCount(c) then
      var p := Parent(u, v);
      [Look(p), Or([Neg(ch), Pos(p)]), Or([Neg(p), Pos(ch)])]
    else
      var lp, rp := Lp(u, v), Rp(u, v);
      [Look(lp), Look(rp), Or([Neg(lp), Pos(ch)]), Or([Neg(rp), Pos(ch)]), Or([Neg(ch), Pos(lp), Pos(rp)])]
  }

  /** Reticulation v with tree child u: no parent of v numbered n..u. */
  function ChildParentOrderCell(v: int, u: int, w: int): (r: seq<Emit>) {
    var ch, lp, rp := Ch(v, u), Lp(v, w), Rp(v, w);
    [Look(lp), Look(rp), Or([Neg(ch), Neg(lp)]), Or([Neg(ch), Neg(rp)])]
  }

  // ---- addDirUsedConstraints and addRUsedConstraints ----

  /** Not dir and lp means the tree-node parent is not used; dir and rp likewise. */
  function DirUsedPre(c: Config, t: int, v: int, u: int): (r: seq<Emit>) {
    var dir, lp, rp := Dir(t, v), Lp(v, u), Rp(v, u);
    [Look(dir), Look(lp), Look(rp)] +
    if u < TreeNodesCount(c) then
      var used := Used(t, u);
      [Look(used), Or([Pos(dir), Neg(lp), Neg(used)]), Or([Neg(dir), Neg(rp), Neg(used)])]
    else []
  }

  /** rused of reticulation v against its children. */
  function RUsedChildPre(c: Config, t: int, v: int, u: int): (r: seq<Emit>) {
    var ch, rused := Ch(v, u), RUsed(t, v);
    [Look(ch)] +
    if u < TreeNodesCount(c) then
      [Or([Neg(ch), Pos(rused)])]
    else
      var crused, cdir, lp, rp := RUsed(t, u), Dir(t, u), Lp(u, v), Rp(u, v);
      [Look(crused), Look(cdir), Look(lp), Look(rp),
       Or([Neg(ch), Pos(crused), Neg(rused)]),
       Or([Neg(lp), Pos(cdir), Neg(rused)]),
       Or([Neg(lp), Neg(cdir), Neg(crused), Pos(rused)]),
       Or([Neg(rp), Neg(cdir), Neg(rused)]),
       Or([Neg(rp), Pos(cdir), Neg(crused), Pos(rused)])]
  }

  /** rused of reticulation v against used of its tree-node parents. */
  function RUsedParentPre(c: Config, t: int, v: int, u: int): (r: seq<Emit>) {
    var rused, lp, rp := RUsed(t, v), Lp(v, u), Rp(v, u);
    [Look(lp), Look(rp)] +
    if u < TreeNodesCount(c) then
      var used := Used(t, u);
      [Look(used), Or([Neg(lp), Pos(rused), Neg(used)]), Or([Neg(rp), Pos(rused), Neg(used)])]
    else []
  }

  // ---- addUpConstraints ----

  /** Leaves and tree nodes v with parent u: up follows the parent when it is
      used, and the parent's up otherwise. */
  function UpTreePre(c: Config, t: int, v: int, u: int): (r: seq<Emit>) {
    var p := Parent(v, u);
    [Look(p)] +
    if u < TreeNodesCount(c) then
      var up, used := Up(t, v, u), Used(t, u);
      [Look(up), Look(used), Or([Neg(p), Neg(used), Pos(up)]), Or([Neg(p), Neg(up), Pos(used)])]
    else []
  }

  function UpTreeCell(c: Config, t: int, v: int, u: int, w: int): (r: seq<Emit>) {
    var p, pup := Parent(v, u), Up(t, u, w);
    if u < TreeNodesCount(c) then
      var used, vup := Used(t, u), Up(t, v, w);
      [Look(vup), Look(pup),
       Or([Neg(p), Pos(used), Neg(pup), Pos(vup)]), Or([Neg(p), Pos(used), Neg(vup), Pos(pup)])]
    else
      [Look(pup)] +
      if w <= v then [Or([Neg(p), Neg(pup)])]
      else [Look(Up(t, v, w)), Or([Neg(p), Neg(pup), Pos(Up(t, v, w))])]
  }

  /** Reticulations v with parent u: the same through lp/rp and dir. */
  function UpNetPre(c: Config, t: int, v: int, u: int): (r: seq<Emit>) {
    var dir, lp, rp := Dir(t, v), Lp(v, u), Rp(v, u);
    [Look(lp), Look(rp)] +
    if u < TreeNodesCount(c) then
      var used, up := Used(t, u), Up(t, v, u);
      [Look(used), Look(up),
       Or([Neg(lp), Neg(dir), Neg(used), Pos(up)]), Or([Neg(rp), Pos(dir), Neg(used), Pos(up)])]
    else []
  }

  function UpNetCell(c: Config, t: int, v: int, u: int, w: int): (r: seq<Emit>) {
    var dir, lp, rp, pup, vup := Dir(t, v), Lp(v, u), Rp(v, u), Up(t, u, w), Up(t, v, w);
    if u < TreeNodesCount(c) then
      var used := Used(t, u);
      [Look(pup), Look(vup),
       Or([Neg(lp), Neg(dir), Pos(used), Neg(pup), Pos(vup)]),
       Or([Neg(rp), Pos(dir), Pos(used), Neg(pup), Pos(vup)])]
    else
      [Look(pup), Look(vup),
       Or([Neg(lp), Neg(dir), Neg(pup), Pos(vup)]), Or([Neg(rp), Pos(dir), Neg(pup), Pos(vup)])]
  }

  // ---- addDataConstraints ----

  /** Node v of input tree t: the root is realised by the network root; the
      other nodes' x follows the up of their realisation. */
  function DataPre(c: Config, t: int, tr: Tree, v: int, u: int): (r: seq<Emit>) {
    var p := Get(tr.parent, v);
    if v < c.n then
      [Look(X(t, p, u)), Look(Up(t, v, u)), Or([Neg(X(t, p, u)), Pos(Up(t, v, u))])]
    else [Look(X(t, v, u))]
  }

  function DataCell(t: int, tr: Tree, v: int, u: int, second: bool, w: int): (r: seq<Emit>) {
    var p := Get(tr.parent, v);
    if second then
      [Look(X(t, p, w))] + if w < u then [Or([Neg(X(t, v, u)), Neg(X(t, p, w))])] else []
    else
      var px, up := X(t, p, w), Up(t, u, w);
      [Look(px), Look(up), Or([Neg(X(t, v, u)), Neg(px), Pos(up)]), Or([Neg(X(t, v, u)), Neg(up), Pos(px)])]
  }

  /** The subtree of v holds at least this many non-leaf nodes below v (Java integer division). */
  function SubtreeNonLeaf(tr: Tree, v: int): (r: int) {
    JavaDiv(Get(tr.subtreeSize, v), 2) - 1
  }

  /** The network nodes input node v cannot be realised by: the lowest
      SubtreeNonLeaf ids of the tree nodes, and the topmost depth ids. */
  function HeapExcluded(c: Config, tr: Tree, v: int): (r: seq<int>) {
    Range(c.n, c.n + SubtreeNonLeaf(tr, v)) + Range(TreeNodesCount(c) - Get(tr.depth, v), TreeNodesCount(c))
  }

  // ---- The lists and blocks of each nest ----

  /** The list the outer loop runs over. */
  function Outer(sh: Shape): (r: seq<int>) {
    match sh
    case ChildParentTree(c) => TreeNodes(c)
    case ChildParentNet(c) => ReticulationNodes(c)
    case ChildParentOrder(c) => ReticulationNodes(c)
    case DirUsedLoop(c, _) => ReticulationNodes(c)
    case RUsedChildren(c, _) => ReticulationNodes(c)
    case RUsedParents(c, _) => ReticulationNodes(c)
    case UpTree(c, _) => Range(0, TreeNodesCount(c))
    case UpNet(c, _) => ReticulationNodes(c)
    case XPointsTo(c, _) => Range(c.n, 2 * c.n - 1)
    case XUsed(c, _) => Range(c.n, 2 * c.n - 1)
    case DataLoop(_, _, tr) => Range(0, Size(tr))
    case HeapLoop(c, _, tr) => Range(c.n, Size(tr) - 1)
    case EqualsDirect(c, _, _, _, _) => TreeNodes(c)
    case EqualsSubtree(_, _, tr1, n1, _, _, _) => At(tr1.subtreeNodes, n1)
    case DifferentLoop(c, _, _, _, _) => TreeNodes(c)
  }

  /** The block of outer item v: the rused or dir lookup, the root's unit
      clause, or the per-node clause of the equality and difference nests. */
  function Head(sh: Shape, v: int): (r: seq<Emit>) {
    match sh
    case RUsedChildren(_, t) => [Look(RUsed(t, v))]
    case RUsedParents(_, t) => [Look(RUsed(t, v))]
    case UpNet(_, t) => [Look(Dir(t, v))]
    case DataLoop(c, t, tr) => if Get(tr.parent, v) == -1 then [Or([Pos(X(t, v, Root(c)))])] else []
    case EqualsDirect(_, t1, n1, t2, n2) =>
      [Look(X(t1, n1, v)), Look(X(t2, n2, v)), Or([Neg(X(t1, n1, v)), Pos(X(t2, n2, v))])]
    case DifferentLoop(_, t1, n1, t2, n2) =>
      [Look(X(t1, n1, v)), Look(X(t2, n2, v)), Or([Neg(X(t1, n1, v)), Neg(X(t2, n2, v))])]
    case _ => []
  }

  /** The list the middle loop runs over for outer item v. */
  function Mid(sh: Shape, v: int): (r: seq<int>) {
    match sh
    case ChildParentTree(c) => Children(c, v)
    case ChildParentNet(c) => Children(c, v)
    case ChildParentOrder(c) => Children(c, v)
    case DirUsedLoop(c, _) => Parents(c, v)
    case RUsedChildren(c, _) => Children(c, v)
    case RUsedParents(c, _) => Parents(c, v)
    case UpTree(c, _) => Parents(c, v)
    case UpNet(c, _) => Parents(c, v)
    case XPointsTo(c, _) => Range(c.n, v)
    case XUsed(c, _) => TreeNodes(c)
    case DataLoop(c, _, tr) => if Get(tr.parent, v) == -1 then [] else TreeNodes(c)
    case HeapLoop(c, _, tr) => HeapExcluded(c, tr, v)
    case EqualsDirect(_, _, _, _, _) => []
    case EqualsSubtree(c, _, _, _, _, _, _) => if v >= c.n then Range(c.n, 2 * c.n - 1) else []
    case DifferentLoop(_, _, _, _, _) => []
  }

  /** The block of middle item u of outer item v. */
  function Pre(sh: Shape, v: int, u: int): (r: seq<Emit>) {
    match sh
    case ChildParentTree(c) => ChildParentTreePre(c, v, u)
    case ChildParentNet(c) => ChildParentNetPre(c, v, u)
    case ChildParentOrder(c) => if u < TreeNodesCount(c) then [Look(Ch(v, u))] else []
    case DirUsedLoop(c, t) => DirUsedPre(c, t, v, u)
    case RUsedChildren(c, t) => RUsedChildPre(c, t, v, u)
    case RUsedParents(c, t) => RUsedParentPre(c, t, v, u)
    case UpTree(c, t) => UpTreePre(c, t, v, u)
    case UpNet(c, t) => UpNetPre(c, t, v, u)
    case XUsed(_, t) => [Or([Neg(X(t, v, u)), Pos(Used(t, u))])]
    case DataLoop(c, t, tr) => DataPre(c, t, tr, v, u)
    case HeapLoop(_, t, _) => [Or([Neg(X(t, v, u))])]
    case _ => []
  }

  /** The list the first (second false) or second (second true) inner loop
      runs over for middle item u of outer item v. */
  function Inner(sh: Shape, v: int, u: int, second: bool): (r: seq<int>) {
    match sh
    case ChildParentOrder(c) => if !second && u < TreeNodesCount(c) then Range(c.n, u + 1) else []
    case UpTree(c, _) => if second then [] else Ups(c, u)
    case UpNet(c, _) => if second then [] else Ups(c, u)
    case XPointsTo(c, _) => if second then [] else TreeNodes(c)
    case DataLoop(c, _, tr) =>
      if Get(tr.parent, v) == -1 || v < c.n then [] else if second then TreeNodes(c) else Ups(c, u)
    case EqualsSubtree(c, _, _, _, _, tr2, n2) => if second || u in At(tr2.subtreeNodes, n2) then [] else TreeNodes(c)
    case _ => []
  }

  /** The block of inner item w. */
  function Cell(sh: Shape, v: int, u: int, second: bool, w: int): (r: seq<Emit>) {
    match sh
    case ChildParentOrder(_) => ChildParentOrderCell(v, u, w)
    case UpTree(c, t) => UpTreeCell(c, t, v, u, w)
    case UpNet(c, t) => UpNetCell(c, t, v, u, w)
    case XPointsTo(_, t) => [Or([Neg(X(t, v, w)), Neg(X(t, u, w))])]
    case DataLoop(_, t, tr) => DataCell(t, tr, v, u, second, w)
    case EqualsSubtree(_, t1, _, _, t2, _, _) =>
      [Look(X(t1, v, w)), Look(X(t2, u, w)), Or([Neg(X(t1, v, w)), Neg(X(t2, u, w))])]
    case _ => []
  }

  // ---- The emits of a whole nest, indexed like its loops ----

  /** A stage of a loop nest: the block of inner item w, of middle item u
      or of outer item v, an inner loop of (v, u) below k, one middle
      iteration (v, u), the middle loop of v below j, one outer iteration
      v, or the outer loop below i. The blocks are stages of their own so
      that unfolding one iteration does not expose its block's emits. */
  datatype NestPart =
    | CellBlock(v: int, u: int, second: bool, w: int)
    | PreBlock(v: int, u: int)
    | HeadBlock(v: int)
    | CellsBelow(v: int, u: int, second: bool, k: nat)
    | MidAt(v: int, u: int)
    | MidsBelow(v: int, j: nat)
    | ItemAt(v: int)
    | ItemsBelow(i: nat)

  function NestLevel(p: NestPart): (r: nat) {
    match p
    case CellBlock(_, _, _, _) => 0
    case PreBlock(_, _) => 0
    case HeadBlock(_) => 0
    case CellsBelow(_, _, _, _) => 1
    case MidAt(_, _) => 2
    case MidsBelow(_, _) => 3
    case ItemAt(_) => 4
    case ItemsBelow(_) => 5
  }

  function NestBound(p: NestPart): (r: nat) {
    match p
    case CellsBelow(_, _, _, k) => k
    case MidsBelow(_, j) => j
    case ItemsBelow(i) => i
    case _ => 0
  }

  /** The loop index of the stage is within its list. */
  predicate PartIn(sh: Shape, p: NestPart) {
    match p
    case CellsBelow(v, u, second, k) => k <= |Inner(sh, v, u, second)|
    case MidsBelow(v, j) => j <= |Mid(sh, v)|
    case ItemsBelow(i) => i <= |Outer(sh)|
    case _ => true
  }

  /** What a stage emits. An inner loop emits the block of (v, u, w) for
      each w of its list; a middle iteration its block, then both inner
      loops; an outer iteration its block, then the middle loop. */
  function Nest(sh: Shape, p: NestPart): (r: seq<Emit>)
    requires PartIn(sh, p)
    decreases NestLevel(p), NestBound(p)
  {
    match p
    case CellBlock(v, u, second, w) => Cell(sh, v, u, second, w)
    case PreBlock(v, u) => Pre(sh, v, u)
    case HeadBlock(v) => Head(sh, v)
    case CellsBelow(v, u, second, k) =>
      if k == 0 then []
      else Nest(sh, CellsBelow(v, u, second, k - 1)) + Nest(sh, CellBlock(v, u, second, Inner(sh, v, u, second)[k - 1]))
    case MidAt(v, u) =>
      Nest(sh, PreBlock(v, u)) + Nest(sh, CellsBelow(v, u, false, |Inner(sh, v, u, false)|))
      + Nest(sh, CellsBelow(v, u, true, |Inner(sh, v, u, true)|))
    case MidsBelow(v, j) =>
      if j == 0 then [] else Nest(sh, MidsBelow(v, j - 1)) + Nest(sh, MidAt(v, Mid(sh, v)[j - 1]))
    case ItemAt(v) =>
      Nest(sh, HeadBlock(v)) + Nest(sh, MidsBelow(v, |Mid(sh, v)|))
    case ItemsBelow(i) =>
      if i == 0 then [] else Nest(sh, ItemsBelow(i - 1)) + Nest(sh, ItemAt(Outer(sh)[i - 1]))
  }

  function NestAll(sh: Shape): (r: seq<Emit>) {
    Nest(sh, ItemsBelow(|Outer(sh)|))
  }

  /** A comment, then the nest: one section of an encoder. */
  function Section(sh: Shape): (r: seq<Emit>) {
    [Remark] + NestAll(sh)
  }

  // ---- Lookup safety: every key a block mentions is registered ----

  ghost predicate CellsReady(sh: Shape, v: int, u: int, second: bool, m: map<Key, int>) {
    forall w :: w in Inner(sh, v, u, second) ==> AllIn(Cell(sh, v, u, second, w), m)
  }

  ghost predicate MidReady(sh: Shape, v: int, u: int, m: map<Key, int>) {
    AllIn(Pre(sh, v, u), m) && CellsReady(sh, v, u, false, m) && CellsReady(sh, v, u, true, m)
  }

  ghost predicate ItemReady(sh: Shape, v: int, m: map<Key, int>) {
    AllIn(Head(sh, v), m) && forall u :: u in Mid(sh, v) ==> MidReady(sh, v, u, m)
  }

  ghost predicate NestReady(sh: Shape, m: map<Key, int>) {
    forall v :: v in Outer(sh) ==> ItemReady(sh, v, m)
  }

  // ---- One loop iteration after the ones before it ----

  /** The block stage of inner item w emits its cell. */
  lemma CellBlockCell(sh: Shape, v: int, u: int, second: bool, w: int)
    ensures Nest(sh, CellBlock(v, u, second, w)) == Cell(sh, v, u, second, w)
  {
  }

  lemma CellsGrown(m: map<Key, int>, comments: bool, sh: Shape, v: int, u: int, second: bool, k: nat,
                   t0: seq<Emit>, l0: seq<Cnf.Line>, k0: int, t1: seq<Emit>, l1: seq<Cnf.Line>, k1: int,
                   t2: seq<Emit>, l2: seq<Cnf.Line>, k2: int)
    requires k < |Inner(sh, v, u, second)|
    requires Grown(m, comments, t0, l0, k0, Nest(sh, CellsBelow(v, u, second, k)), t1, l1, k1)
    requires Grown(m, comments, t1, l1, k1, Cell(sh, v, u, second, Inner(sh, v, u, second)[k]), t2, l2, k2)
    ensures Grown(m, comments, t0, l0, k0, Nest(sh, CellsBelow(v, u, second, k + 1)), t2, l2, k2)
  {
    CellBlockCell(sh, v, u, second, Inner(sh, v, u, second)[k]);
    GrownTrans(m, comments, t0, l0, k0, Nest(sh, CellsBelow(v, u, second, k)), t1, l1, k1,
               Nest(sh, CellBlock(v, u, second, Inner(sh, v, u, second)[k])), t2, l2, k2);
  }

  lemma MidsGrown(m: map<Key, int>, comments: bool, sh: Shape, v: int, j: nat,
                  t0: seq<Emit>, l0: seq<Cnf.Line>, k0: int, t1: seq<Emit>, l1: seq<Cnf.Line>, k1: int,
                  t2: seq<Emit>, l2: seq<Cnf.Line>, k2: int)
    requires j < |Mid(sh, v)|
    requires Grown(m, comments, t0, l0, k0, Nest(sh, MidsBelow(v, j)), t1, l1, k1)
    requires Grown(m, comments, t1, l1, k1, Nest(sh, MidAt(v, Mid(sh, v)[j])), t2, l2, k2)
    ensures Grown(m, comments, t0, l0, k0, Nest(sh, MidsBelow(v, j + 1)), t2, l2, k2)
  {
    GrownTrans(m, comments, t0, l0, k0, Nest(sh, MidsBelow(v, j)), t1, l1, k1,
               Nest(sh, MidAt(v, Mid(sh, v)[j])), t2, l2, k2);
  }

  lemma ItemsGrown(m: map<Key, int>, comments: bool, sh: Shape, i: nat,
                   t0: seq<Emit>, l0: seq<Cnf.Line>, k0: int, t1: seq<Emit>, l1: seq<Cnf.Line>, k1: int,
                   t2: seq<Emit>, l2: seq<Cnf.Line>, k2: int)
    requires i < |Outer(sh)|
    requires Grown(m, comments, t0, l0, k0, Nest(sh, ItemsBelow(i)), t1, l1, k1)
    requires Grown(m, comments, t1, l1, k1, Nest(sh, ItemAt(Outer(sh)[i])), t2, l2, k2)
    ensures Grown(m, comments, t0, l0, k0, Nest(sh, ItemsBelow(i + 1)), t2, l2, k2)
  {
    GrownTrans(m, comments, t0, l0, k0, Nest(sh, ItemsBelow(i)), t1, l1, k1,
               Nest(sh, ItemAt(Outer(sh)[i])), t2, l2, k2);
  }

  /** Before the first iteration of any of the three loops nothing is emitted. */
  lemma NestStart(m: map<Key, int>, comments: bool, sh: Shape, p: NestPart, t: seq<Emit>, l: seq<Cnf.Line>, k: int)
    requires p == ItemsBelow(0) || (p.MidsBelow? && p.j == 0) || (p.CellsBelow? && p.k == 0)
    requires PartIn(sh, p)
    ensures Grown(m, comments, t, l, k, Nest(sh, p), t, l, k)
  {
    assert Nest(sh, p) == [];
    GrownNothing(m, comments, t, l, k);
  }

  /** A middle iteration: its block, then the first and the second inner loop. */
  lemma MidAtGrown(m: map<Key, int>, comments: bool, sh: Shape, v: int, u: int,
                   t0: seq<Emit>, l0: seq<Cnf.Line>, k0: int, t1: seq<Emit>, l1: seq<Cnf.Line>, k1: int,
                   t2: seq<Emit>, l2: seq<Cnf.Line>, k2: int, t3: seq<Emit>, l3: seq<Cnf.Line>, k3: int)
    requires Grown(m, comments, t0, l0, k0, Pre(sh, v, u), t1, l1, k1)
    requires Grown(m, comments, t1, l1, k1, Nest(sh, CellsBelow(v, u, false, |Inner(sh, v, u, false)|)), t2, l2, k2)
    requires Grown(m, comments, t2, l2, k2, Nest(sh, CellsBelow(v, u, true, |Inner(sh, v, u, true)|)), t3, l3, k3)
    ensures Grown(m, comments, t0, l0, k0, Nest(sh, MidAt(v, u)), t3, l3, k3)
  {
    assert Nest(sh, PreBlock(v, u)) == Pre(sh, v, u);
    GrownTrans(m, comments, t0, l0, k0, Nest(sh, PreBlock(v, u)), t1, l1, k1,
               Nest(sh, CellsBelow(v, u, false, |Inner(sh, v, u, false)|)), t2, l2, k2);
    GrownTrans(m, comments, t0, l0, k0,
               Nest(sh, PreBlock(v, u)) + Nest(sh, CellsBelow(v, u, false, |Inner(sh, v, u, false)|)), t2, l2, k2,
               Nest(sh, CellsBelow(v, u, true, |Inner(sh, v, u, true)|)), t3, l3, k3);
  }

  /** An outer iteration: its block, then the middle loop. */
  lemma ItemAtGrown(m: map<Key, int>, comments: bool, sh: Shape, v: int,
                    t0: seq<Emit>, l0: seq<Cnf.Line>, k0: int, t1: seq<Emit>, l1: seq<Cnf.Line>, k1: int,
                    t2: seq<Emit>, l2: seq<Cnf.Line>, k2: int)
    requires Grown(m, comments, t0, l0, k0, Head(sh, v), t1, l1, k1)
    requires Grown(m, comments, t1, l1, k1, Nest(sh, MidsBelow(v, |Mid(sh, v)|)), t2, l2, k2)
    ensures Grown(m, comments, t0, l0, k0, Nest(sh, ItemAt(v)), t2, l2, k2)
  {
    assert Nest(sh, HeadBlock(v)) == Head(sh, v);
    GrownTrans(m, comments, t0, l0, k0, Nest(sh, HeadBlock(v)), t1, l1, k1,
               Nest(sh, MidsBelow(v, |Mid(sh, v)|)), t2, l2, k2);
  }
}
