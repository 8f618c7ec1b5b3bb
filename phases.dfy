/**
 * What each add*Constraints step of FormulaBuilder emits: the keys it
 * declares, in order, and the remarks and clauses it emits, in order.
 */
module Phases {
  import opened Topology
  import opened Registry
  import opened Formula
  import opened Families
  import opened Trees
  import opened Nests

  // ---- Exactly-one phases ----

  /** The comments after a family's declarations and before its at-most-one
      loop: one per slot. */
  function Notes(f: Family): (r: seq<Emit>) {
    if Width(f) == 2 then [Remark, Remark] else [Remark]
  }

  /** The keys an exactly-one phase declares: slot 0, then slot 1. */
  function ExactlyOneDecl(c: Config, f: Family): (r: seq<Key>) {
    FamDecl(c, f, 0) + (if Width(f) == 2 then FamDecl(c, f, 1) else [])
  }

  /** The output of an exactly-one phase: a comment per declared slot, then
      its constraints. */
  function ExactlyOnePhase(c: Config, f: Family): (r: seq<Emit>) {
    Notes(f) + ExactlyOneClauses(c, f)
  }

  /** A comment, the at-least-one clauses, a comment per slot, the
      at-most-one clauses. */
  function ExactlyOneClauses(c: Config, f: Family): (r: seq<Emit>) {
    [Remark] + AloAll(c, f) + Notes(f) + AmoAll(c, f)
  }

  // ---- addChildParentConstraints ----

  /** Three sections: tree nodes, reticulations, and the ordering of
      reticulation parents against their tree-node children. */
  function ChildParentPhase(c: Config): (r: seq<Emit>) {
    Section(ChildParentTree(c)) + Section(ChildParentNet(c)) + Section(ChildParentOrder(c))
  }

  // ---- The per-tree phases ----

  /** addDirUsedConstraints declares dir then used, each followed by a comment. */
  function DirUsedDecl(c: Config, t: int): (r: seq<Key>) {
    NodeDecl(c, DirF(t)) + NodeDecl(c, UsedF(t))
  }

  function DirUsedPhase(c: Config, t: int): (r: seq<Emit>) {
    [Remark] + ([Remark] + Section(DirUsedLoop(c, t)))
  }

  /** addRUsedConstraints declares rused, then two sections. */
  function RUsedPhase(c: Config, t: int): (r: seq<Emit>) {
    [Remark] + (Section(RUsedChildren(c, t)) + Section(RUsedParents(c, t)))
  }

  /** addUpConstraints: the exactly-one choice of up, then its links to parent and used. */
  function UpPhase(c: Config, t: int): (r: seq<Emit>) {
    ExactlyOnePhase(c, UpF(t)) + (Section(UpTree(c, t)) + Section(UpNet(c, t)))
  }

  /** addXConstraints: the exactly-one choice of x, then its injectivity and its link to used. */
  function XPhase(c: Config, t: int): (r: seq<Emit>) {
    ExactlyOnePhase(c, XF(t)) + (Section(XPointsTo(c, t)) + Section(XUsed(c, t)))
  }

  /** addDataConstraints: the data section, then the heap-structure section. */
  function DataPhase(c: Config, t: int, tr: Tree): (r: seq<Emit>) {
    Section(DataLoop(c, t, tr)) + Section(HeapLoop(c, t, tr))
  }

  /** The keys addDirUsedConstraints and, when reticulations may be linked,
      addRUsedConstraints declare. */
  function TopologyDecl(c: Config, t: int): (r: seq<Key>) {
    if c.linkReticulations then DirUsedDecl(c, t) + NodeDecl(c, RUsedF(t)) else DirUsedDecl(c, t)
  }

  /** The keys addUpConstraints and addXConstraints declare. */
  function ChoicesDecl(c: Config, t: int): (r: seq<Key>) {
    ExactlyOneDecl(c, UpF(t)) + ExactlyOneDecl(c, XF(t))
  }

  /** The keys one iteration of buildCNF's tree loop declares. */
  function TreeDecl(c: Config, t: int): (r: seq<Key>) {
    TopologyDecl(c, t) + ChoicesDecl(c, t)
  }

  function TopologyPhase(c: Config, t: int): (r: seq<Emit>) {
    if c.linkReticulations then DirUsedPhase(c, t) + RUsedPhase(c, t) else DirUsedPhase(c, t)
  }

  function ChoicesPhase(c: Config, t: int): (r: seq<Emit>) {
    UpPhase(c, t) + XPhase(c, t)
  }

  /** The output of one iteration of buildCNF's tree loop. */
  function TreePhase(c: Config, t: int, tr: Tree): (r: seq<Emit>) {
    TopologyPhase(c, t) + ChoicesPhase(c, t) + DataPhase(c, t, tr)
  }

  function TreesDecl(c: Config, i: nat): (r: seq<Key>) {
    if i == 0 then [] else TreesDecl(c, i - 1) + TreeDecl(c, i - 1)
  }

  /** A stage of buildCNF's tree loop: the iteration for tree t (TreeAt),
      the same one level removed (TreeStep), or the iterations for the trees
      below i (TreesUpTo). The extra level keeps a contract that names the
      loop's output from exposing the iterations. */
  datatype TreeRun = TreeAt(t: nat) | TreeStep(t: nat) | TreesUpTo(i: nat)

  predicate TreeRunIn(trees: seq<Tree>, p: TreeRun) {
    match p
    case TreeAt(t) => t < |trees|
    case TreeStep(t) => t < |trees|
    case TreesUpTo(i) => i <= |trees|
  }

  function TreeRunLevel(p: TreeRun): (r: nat) {
    match p
    case TreeAt(_) => 0
    case TreeStep(_) => 1
    case TreesUpTo(_) => 2
  }

  function TreeRunBound(p: TreeRun): (r: nat) {
    match p
    case TreesUpTo(i) => i
    case _ => 0
  }

  function TreesRun(c: Config, trees: seq<Tree>, p: TreeRun): (r: seq<Emit>)
    requires TreeRunIn(trees, p)
    decreases TreeRunLevel(p), TreeRunBound(p)
  {
    match p
    case TreeAt(t) => TreePhase(c, t, trees[t])
    case TreeStep(t) => TreesRun(c, trees, TreeAt(t))
    case TreesUpTo(i) =>
      if i == 0 then [] else TreesRun(c, trees, TreesUpTo(i - 1)) + TreesRun(c, trees, TreeStep(i - 1))
  }

  /** The output of the first i iterations of buildCNF's tree loop. */
  function TreesPhase(c: Config, trees: seq<Tree>, i: nat): (r: seq<Emit>)
    requires i <= |trees|
  {
    TreesRun(c, trees, TreesUpTo(i))
  }

  /** One more iteration of the tree loop appends that tree's output. */
  lemma TreesPhaseSnoc(c: Config, trees: seq<Tree>, i: nat)
    requires i < |trees|
    ensures TreesPhase(c, trees, i + 1) == TreesPhase(c, trees, i) + TreePhase(c, i, trees[i])
  {
    assert TreesRun(c, trees, TreeStep(i)) == TreePhase(c, i, trees[i]);
  }

  // ---- addConstraintsForPairOfTrees ----

  /** addEqualsNodesConstraints: a comment, the direct implications, the subtree exclusions. */
  function EqualsPhase(c: Config, t1: int, tr1: Tree, n1: int, t2: int, tr2: Tree, n2: int): (r: seq<Emit>) {
    [Remark] + NestAll(EqualsDirect(c, t1, n1, t2, n2)) + NestAll(EqualsSubtree(c, t1, tr1, n1, t2, tr2, n2))
  }

  /** addDifferentTaxaNodesConstraints: a comment and the exclusions. */
  function DifferentPhase(c: Config, t1: int, n1: int, t2: int, n2: int): (r: seq<Emit>) {
    Section(DifferentLoop(c, t1, n1, t2, n2))
  }

  /** A stage of the node loops of addConstraintsForPairOfTrees: the
      equality or the difference part of one iteration (node1, node2), one
      iteration, the inner loop over node2 below j, or the outer loop over
      node1 below i. */
  datatype NodeLoops =
    | EqualsAt(n1: int, n2: int)
    | DifferentAt(n1: int, n2: int)
    | CellAt(n1: int, n2: int)
    | RowBelow(n1: int, j: int)
    | RowsBelow(i: int)

  function LoopLevel(p: NodeLoops): (r: nat) {
    match p
    case EqualsAt(_, _) => 0
    case DifferentAt(_, _) => 0
    case CellAt(_, _) => 1
    case RowBelow(_, _) => 2
    case RowsBelow(_) => 3
  }

  function LoopBound(c: Config, p: NodeLoops): (r: int) {
    match p
    case RowBelow(_, j) => j - c.n
    case RowsBelow(i) => i - c.n
    case _ => 0
  }

  /** What a stage of the node loops emits. Equal taxa give the equality
      constraints; disjoint taxa, for t1 < t2, the difference constraints;
      one iteration is the one, then the other. The inner loop runs node2
      from n below j; the outer loop runs node1 from n below i, each with
      node2 over n .. 2n - 3. */
  function PairNodes(c: Config, t1: int, tr1: Tree, t2: int, tr2: Tree, p: NodeLoops): (r: seq<Emit>)
    decreases LoopLevel(p), LoopBound(c, p)
  {
    match p
    case EqualsAt(n1, n2) =>
      if SameTaxa(At(tr1.taxa, n1), At(tr2.taxa, n2)) then EqualsPhase(c, t1, tr1, n1, t2, tr2, n2) else []
    case DifferentAt(n1, n2) =>
      if Disjoint(At(tr1.taxa, n1), At(tr2.taxa, n2)) && t1 < t2 then DifferentPhase(c, t1, n1, t2, n2) else []
    case CellAt(n1, n2) =>
      PairNodes(c, t1, tr1, t2, tr2, EqualsAt(n1, n2)) + PairNodes(c, t1, tr1, t2, tr2, DifferentAt(n1, n2))
    case RowBelow(n1, j) =>
      if j <= c.n then []
      else PairNodes(c, t1, tr1, t2, tr2, RowBelow(n1, j - 1)) + PairNodes(c, t1, tr1, t2, tr2, CellAt(n1, j - 1))
    case RowsBelow(i) =>
      if i <= c.n then []
      else PairNodes(c, t1, tr1, t2, tr2, RowsBelow(i - 1)) + PairNodes(c, t1, tr1, t2, tr2, RowBelow(i - 1, 2 * c.n - 2))
  }

  /** A pair of trees: both loops, then the summary comment. */
  function PairPhase(c: Config, t1: int, tr1: Tree, t2: int, tr2: Tree): (r: seq<Emit>) {
    PairNodes(c, t1, tr1, t2, tr2, RowsBelow(2 * c.n - 2)) + [Remark]
  }

  /** The stages of buildCNF's two loops over pairs of trees: one ordered
      pair (t1, t2) with t1 != t2; the guard that skips a tree paired with
      itself; the inner loop over otherTree below j; the outer loop over
      treeNumber below i. */
  datatype TreeLoops =
    | PairAt(t1: nat, t2: nat)
    | PairIf(t1: nat, t2: nat)
    | OthersBelow(t1: nat, j: nat)
    | TreesBelow(i: nat)

  function TreeLevel(p: TreeLoops): (r: nat) {
    match p
    case PairAt(_, _) => 0
    case PairIf(_, _) => 1
    case OthersBelow(_, _) => 2
    case TreesBelow(_) => 3
  }

  function TreeBound(p: TreeLoops): (r: nat) {
    match p
    case OthersBelow(_, j) => j
    case TreesBelow(i) => i
    case _ => 0
  }

  /** The tree indices a stage names lie within trees. */
  predicate TreeLoopIn(trees: seq<Tree>, p: TreeLoops) {
    match p
    case PairAt(t1, t2) => t1 < |trees| && t2 < |trees|
    case PairIf(t1, t2) => t1 < |trees| && t2 < |trees|
    case OthersBelow(t1, j) => t1 < |trees| && j <= |trees|
    case TreesBelow(i) => i <= |trees|
  }

  /** What a stage of the tree-pair loops emits. */
  function PairTrees(c: Config, trees: seq<Tree>, p: TreeLoops): (r: seq<Emit>)
    requires TreeLoopIn(trees, p)
    decreases TreeLevel(p), TreeBound(p)
  {
    match p
    case PairAt(t1, t2) => PairPhase(c, t1, trees[t1], t2, trees[t2])
    case PairIf(t1, t2) => if t1 != t2 then PairTrees(c, trees, PairAt(t1, t2)) else []
    case OthersBelow(t1, j) =>
      if j == 0 then [] else PairTrees(c, trees, OthersBelow(t1, j - 1)) + PairTrees(c, trees, PairIf(t1, j - 1))
    case TreesBelow(i) =>
      if i == 0 then [] else PairTrees(c, trees, TreesBelow(i - 1)) + PairTrees(c, trees, OthersBelow(i - 1, |trees|))
  }

  // ---- buildCNF ----

  /** The keys of the four global exactly-one encoders, in order. */
  function GlobalsDecl(c: Config): (r: seq<Key>) {
    (ExactlyOneDecl(c, ParentF) + ExactlyOneDecl(c, LeftRightF)) + (ExactlyOneDecl(c, ChF) + ExactlyOneDecl(c, LpRpF))
  }

  function GlobalsPhase(c: Config): (r: seq<Emit>) {
    (ExactlyOnePhase(c, ParentF) + ExactlyOnePhase(c, LeftRightF)) + (ExactlyOnePhase(c, ChF) + ExactlyOnePhase(c, LpRpF))
  }

  /** Every key buildCNF declares, in order. */
  function BuildDecl(c: Config, count: nat): (r: seq<Key>) {
    GlobalsDecl(c) + TreesDecl(c, count)
  }

  /** The steps of buildCNF, in order: its opening comment, its four global
      exactly-one encoders, its child-parent wiring, its tree loop and its
      pair loops. */
  datatype BuildStep = Opening | Globals | Wiring | TreeLoop | PairLoops

  /** A prefix of buildCNF's output (UpTo), one step's output (StepOut) or
      that output's definition (StepBody). The two levels between a prefix
      and the phases that make it up keep a contract that names a prefix
      from exposing the phases. */
  datatype BuildPart = UpTo(s: BuildStep) | StepOut(s: BuildStep) | StepBody(s: BuildStep)

  function StepIndex(s: BuildStep): (r: nat) {
    match s
    case Opening => 0
    case Globals => 1
    case Wiring => 2
    case TreeLoop => 3
    case PairLoops => 4
  }

  function PartLevel(p: BuildPart): (r: nat) {
    match p
    case UpTo(s) => 2 + StepIndex(s)
    case StepOut(_) => 1
    case StepBody(_) => 0
  }

  /** What a part of buildCNF emits. */
  function Built(c: Config, trees: seq<Tree>, p: BuildPart): (r: seq<Emit>)
    decreases PartLevel(p)
  {
    match p
    case UpTo(s) =>
      (match s
       case Opening => Built(c, trees, StepOut(Opening))
       case Globals => Built(c, trees, UpTo(Opening)) + Built(c, trees, StepOut(Globals))
       case Wiring => Built(c, trees, UpTo(Globals)) + Built(c, trees, StepOut(Wiring))
       case TreeLoop => Built(c, trees, UpTo(Wiring)) + Built(c, trees, StepOut(TreeLoop))
       case PairLoops => Built(c, trees, UpTo(TreeLoop)) + Built(c, trees, StepOut(PairLoops)))
    case StepOut(s) => Built(c, trees, StepBody(s))
    case StepBody(s) =>
      match s
      case Opening => [Remark]
      case Globals => GlobalsPhase(c)
      case Wiring => ChildParentPhase(c)
      case TreeLoop => TreesPhase(c, trees, |trees|)
      case PairLoops => PairTrees(c, trees, TreesBelow(|trees|))
  }

  /** Everything buildCNF emits, from its opening comment on, in order. */
  function BuildTrace(c: Config, trees: seq<Tree>): (r: seq<Emit>) {
    Built(c, trees, UpTo(PairLoops))
  }

  /** What the opening step of buildCNF emits. */
  lemma OpeningOutput(c: Config, trees: seq<Tree>)
    ensures Built(c, trees, UpTo(Opening)) == [Remark]
  {
    assert Built(c, trees, StepOut(Opening)) == [Remark];
  }

  /** What the global encoders of buildCNF emit. */
  lemma GlobalsOutput(c: Config, trees: seq<Tree>)
    ensures Built(c, trees, StepOut(Globals)) == GlobalsPhase(c)
  {
  }

  /** What the child-parent wiring of buildCNF emits. */
  lemma WiringOutput(c: Config, trees: seq<Tree>)
    ensures Built(c, trees, StepOut(Wiring)) == ChildParentPhase(c)
  {
  }

  /** The wiring follows the global encoders. */
  lemma WiringAfterGlobals(c: Config, trees: seq<Tree>)
    ensures Built(c, trees, UpTo(Wiring)) == Built(c, trees, UpTo(Globals)) + Built(c, trees, StepOut(Wiring))
  {
  }

  /** buildCNF's output up to its tree loop. */
  lemma BuiltThroughTrees(c: Config, trees: seq<Tree>)
    ensures Built(c, trees, UpTo(TreeLoop)) == Built(c, trees, UpTo(Wiring)) + TreesPhase(c, trees, |trees|)
  {
    assert Built(c, trees, StepOut(TreeLoop)) == TreesPhase(c, trees, |trees|);
  }

  /** buildCNF's output is its output up to the tree loop, then the pair loops. */
  lemma BuiltThroughPairs(c: Config, trees: seq<Tree>)
    ensures BuildTrace(c, trees) == Built(c, trees, UpTo(TreeLoop)) + PairTrees(c, trees, TreesBelow(|trees|))
  {
    assert Built(c, trees, StepOut(PairLoops)) == PairTrees(c, trees, TreesBelow(|trees|));
  }
}
