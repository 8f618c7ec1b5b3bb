# PhyloSAT formula builder, modelled in Dafny

PhyloSAT asks whether a phylogenetic network with `k` reticulation nodes
displays every one of a list of binary trees over the same `n` taxa. Its
`FormulaBuilder` answers by writing a DIMACS CNF formula for a SAT solver.
This project models that class and proves properties of the model.

## What is modelled

**Network slots** (`topology.dfy`, module `Topology`). The encoder numbers
the slots of the network before it knows the network's shape:
- leaves are `[0, n)`;
- tree nodes are `[n, T)` with `T = 2n - 1 + k`, and the root is `T - 1`;
- reticulations are `[T, T + k)`.

`Children`, `Parents` and `Ups` are the candidate lists of `possibleChildren`,
`possibleParents` and `possibleUp`. `PossibleChildren`, `PossibleParents` and
`PossibleUp` add the bounds check, which fails with a `Result` where the
source throws. Lemmas state each list's members and order, how the three
lists relate to each other, and where that relation breaks.

**Variable registry** (`registry.dfy`, `families.dfy`). A structured
`Key` datatype has one constructor per variable role (`parent_v_u`,
`left_v_u`, …, `x_t_tv_v`). `GetKey` renders the source's string form and is
proved injective, so a map keyed by `Key` behaves like the source's
string-keyed map. `Extend(m, keys)` is the map after `createVar` has run on
each key in turn. Each encoder declares a *family* of keys. The lemmas show
that every family's declaration list names each key once, so ids run
`1..|m|` consecutively and no key is ever overwritten.

**The emitter and its meaning** (`cnf.dfy`, `text.dfy`, `formula.dfy`).
- The output buffer is a `seq<Line>`, where a line is a comment or a clause
  of integer literals. `Cnf` renders it as DIMACS text, with the
  `p cnf V C` header in front.
- The encoders are also specified *symbolically*, as a `seq<Emit>` over keys
  (`Remark`, `Look(key)` for a lookup, `Or(lits)` for a clause).
- `Tr(m, comments, es)` numbers such a list through a registry. The
  lemmas show that an id assignment satisfies the numbered lines exactly when
  the induced key assignment satisfies the keyed list.

**The class** (`builder.dfy`, class `Builder.FormulaBuilder`). The fields
are the source's:
- the translation map `m`;
- the buffer `lines`;
- `clausesCount`;
- the configuration.

Two ghost fields record what the buffer means:
- `trace`, the keyed emits since `buildCNF` began;
- `countBase`, the counter's value at that point. The source never resets
  the counter.

`Valid()` ties them together: `lines == Tr(m, comments, trace)`, every key of
the trace is registered, and the counter counts the trace's clauses. Every
encoder method runs the source's nested loops, with the getVar lookups and
clauses of each iteration. Each one ensures that the trace grows by exactly
the specification function of its output (in `phases.dfy` and `nests.dfy`),
and that the registry grows by exactly the keys it declares. `BuildCnf`
ensures that the text is the header followed by the numbered trace.

**Lookup safety** (`safety.dfy`). The requirement that every `getVar` hits a
declared key appears in two places:
- it is the precondition of `Builder.FormulaBuilder.Lookup`;
- it is discharged one loop nest at a time by the `*Ready` lemmas.

`NestReady` says that every lookup and every clause literal of a nest
names a registered key.

**Clause semantics** (`choice.dfy`, `counts.dfy`, `meaning.dfy`).
- The exactly-one families hold exactly when each node has exactly one
  candidate chosen per slot. They emit `1 + |L|(|L|-1)/2` clauses per
  candidate list `L` and slot.
- The data, heap, equal-node and different-node sections are each proved
  equivalent to a plain statement of what they force.

**Linking sections** (`links.dfy`, module `Links`). Every section that ties
one family to another is proved equivalent to a plain statement:
- child-parent agreement, in both directions, for tree nodes and
  reticulations;
- the reticulation ordering;
- the dir/used exclusions;
- up snapping to a used parent and otherwise following the parent's up;
- x injective per tree and implying used.

The phase lemmas add the exactly-one meaning of up and x to these.

## Model

| member | source | states |
|---|---|---|
| Topology.RangeMembers | src/FormulaBuilder.java:763-785 | a range list is ascending and holds exactly the ids in `[lo, hi)` |
| Topology.NodeRanges | src/FormulaBuilder.java:763-785 | `allNodes`, `treeNodes` and `reticulationNodes` hold exactly the slots, the tree nodes and the reticulations, ascending; every slot is a leaf, a tree node or a reticulation |
| Topology.ScanMembers | src/FormulaBuilder.java:712-726 | the filtering loop keeps, in ascending order, exactly the ids of the range that its test admits |
| Topology.PossibleChildren | src/FormulaBuilder.java:707-710 | the call fails exactly when the node id lies outside `[0, T + k)` |
| Topology.PossibleParents | src/FormulaBuilder.java:729-732 | the call fails exactly when the node id lies outside `[0, T + k)` |
| Topology.PossibleUp | src/FormulaBuilder.java:753-761 | the call fails exactly when possibleParents fails, i.e. outside `[0, T + k)` |
| Topology.ChildrenMembers | src/FormulaBuilder.java:712-726 | the child candidates are ascending: none for a leaf; for a tree node, the lower ids and the reticulations; for a reticulation, the ids below the root, plus the lower ids when reticulations may be linked |
| Topology.ParentsMembers | src/FormulaBuilder.java:734-750 | the parent candidates are ascending and never leaves: none for the root; every non-leaf slot for a leaf; the higher ids for a tree node; for a reticulation, the tree nodes plus, when linked, the higher reticulations |
| Topology.UpsMembers | src/FormulaBuilder.java:753-761 | possibleUp is possibleParents cut at `T`: a prefix of it, in the same order, holding its candidates below `T` |
| Topology.KeepBelowPrefix | src/FormulaBuilder.java:753-761 | filtering an ascending list by `< bound` keeps a prefix, and everything after it is at least the bound |
| Topology.Duality | src/FormulaBuilder.java:712-750 | for a child other than the root, `w` is a child candidate of `v` exactly when `v` is a parent candidate of `w` |
| Topology.RootDualityGap | src/FormulaBuilder.java:721-737 | with linked reticulations, the root is a child candidate of every reticulation yet has no parent candidate |
| Topology.RootIsNoChild | src/FormulaBuilder.java:712-726 | without linked reticulations, the root is no slot's child candidate |
| Topology.CandidatesNonEmpty | src/FormulaBuilder.java:707-761 | for `n >= 2`, every slot but the root has parent and up candidates, and every non-leaf has child candidates |
| Registry.GetKeyInjective | src/FormulaBuilder.java:787-793 | two different keys never render to the same string, so variables never collide in the map |
| Registry.SuffixInjective | src/FormulaBuilder.java:787-793 | the `_p1_p2…` tail determines its parameter list |
| Registry.ExtendDomain | src/FormulaBuilder.java:795-798 | after a run of createVar calls, the map holds exactly the old keys and the declared ones |
| Registry.ExtendFresh | src/FormulaBuilder.java:795-798 | declaring distinct fresh keys keeps every old id, grows the map by exactly their number and keeps ids `1..|m|` one per key |
| Registry.ExtendIds | src/FormulaBuilder.java:795-798 | distinct fresh keys get the ids `|m| + 1, |m| + 2, …` in declaration order |
| Registry.RedeclareBreaksNumbering | src/FormulaBuilder.java:795-798 | createVar on an already present key breaks the numbering: the map keeps its size while the key's id exceeds it |
| Decimal.IntToStringInjective | src/FormulaBuilder.java:819-825 | the decimal rendering of a literal determines it |
| Cnf.LitsTextShape | src/FormulaBuilder.java:819-825 | the literal text is empty exactly for no literals; otherwise it does not start with a blank and ends in one |
| Cnf.ClauseLine | src/FormulaBuilder.java:810-825 | a clause line is its literals, each followed by a blank, then `0\n`; the empty clause is ` 0\n` |
| Cnf.LitsTextInjective | src/FormulaBuilder.java:819-825 | the literals can be read back from their text |
| Cnf.ClauseTextInjective | src/FormulaBuilder.java:810-825 | two clause lines are equal only for equal literal lists |
| Cnf.HeaderInjective | src/FormulaBuilder.java:84-85 | the `p cnf V C` header determines both the variable count and the clause count |
| Trees.SameTaxaIsSetEquality | src/FormulaBuilder.java:646 | for taxon lists without repeats, the size-and-containsAll test is set equality |
| Trees.ContainsAllIsNotEquality | src/FormulaBuilder.java:646 | some pair of lists passes containsAll without being the same taxon set, so containsAll alone, without the size test, accepts a strict superset |
| Trees.WellFormedTaxa | src/FormulaBuilder.java:45-46 | an input tree that fits the encoder has at least two taxa |
| Formula.TrSatisfies | src/FormulaBuilder.java:800-825 | an id assignment satisfies the numbered lines exactly when the key assignment it induces through the map satisfies the keyed emits |
| Formula.TrCount | src/FormulaBuilder.java:810-817 | the number of clause lines is the number of clause emits |
| Formula.TrLinesOk | src/FormulaBuilder.java:800-802 | with every key registered, every literal written is a registered id or its negation |
| Formula.TrMono | src/FormulaBuilder.java:795-802 | registering more keys without renumbering leaves the numbered text of earlier emits unchanged |
| Formula.CoherentGrown | src/FormulaBuilder.java:804-825 | a state whose text is its numbered trace stays so when grown by registered emits |
| Families.FamKeyInjective | src/FormulaBuilder.java:787-793 | a family's key determines the node and the candidate it is about |
| Families.CandsIncreasing | src/FormulaBuilder.java:707-761 | every candidate list a family iterates is ascending |
| Families.FamDeclFresh | src/FormulaBuilder.java:92-98 | a family's declaring loops name each key once, none of them already declared by an earlier encoder |
| Families.FamDeclFacts | src/FormulaBuilder.java:92-98 | declaring a family registers every one of its keys with fresh ids, keeps all earlier ids and keeps the numbering valid |
| Families.NodeDeclFacts | src/FormulaBuilder.java:324-336 | declaring a per-node family (dir, used, rused) registers each node's key with fresh ids and keeps earlier ids |
| Choice.AloHolds | src/FormulaBuilder.java:101-108 | the at-least-one clause of a node holds exactly when some candidate is chosen |
| Choice.AmoCellHolds | src/FormulaBuilder.java:110-120 | the clauses of a candidate pair hold exactly when the two are not both chosen in any slot (no clause unless `u < w`) |
| Choice.AmoRowHolds | src/FormulaBuilder.java:110-120 | the at-most-one loops of a node hold exactly when no ordered pair of its candidates is chosen together |
| Choice.RowPairsOkMeans | src/FormulaBuilder.java:110-120 | over an ascending candidate list, excluding the pairs `u < w` excludes every two distinct candidates |
| Choice.NodeExactlyOne | src/FormulaBuilder.java:101-120 | over ascending candidates, a node's at-least-one and at-most-one clauses hold exactly when each slot has exactly one candidate chosen |
| Choice.SkippedHasNoCandidates | src/FormulaBuilder.java:421-430 | the one node the at-least-one loop of up skips, the root, has no candidates |
| Choice.FamilyExactlyOne | src/FormulaBuilder.java:100-121 | a whole exactly-one family (parent, left/right, ch, lp/rp, up, x) holds exactly when every node it covers has exactly one candidate chosen per slot |
| Counts.PairsFormula | src/FormulaBuilder.java:110-120 | the pair count `Pairs(n)` is `n(n-1)/2` |
| Counts.AloCount | src/FormulaBuilder.java:101-108 | a node's at-least-one loop emits one clause per slot |
| Counts.AmoNodeCount | src/FormulaBuilder.java:110-120 | a node with ascending candidates `L` gets `|L|(|L|-1)/2` at-most-one clauses per slot |
| Counts.ExactlyOneCount | src/FormulaBuilder.java:101-120 | exactly-one over ascending candidates `L` emits `1 + |L|(|L|-1)/2` clauses per slot |
| Safety.ChildParentTreeReady | src/FormulaBuilder.java:260-282 | every variable the tree-node section of addChildParentConstraints looks up is declared |
| Safety.ChildParentNetReady | src/FormulaBuilder.java:284-303 | every lookup of the reticulation section is declared, unless reticulations may be linked while `k >= 1` |
| Safety.ChildParentGap | src/FormulaBuilder.java:284-303 | with linked reticulations, the reticulation section looks up `parent_root_v`, a key the parent family never declares |
| Safety.ChildParentOrderReady | src/FormulaBuilder.java:305-320 | every lookup of the ordering section is declared |
| Safety.DirUsedReady | src/FormulaBuilder.java:338-352 | every lookup of the dir/used section is declared |
| Safety.RUsedChildrenReady | src/FormulaBuilder.java:364-391 | every lookup of the first rused section is declared |
| Safety.RUsedParentsReady | src/FormulaBuilder.java:392-407 | every lookup of the second rused section is declared |
| Safety.UpsOfParent | src/FormulaBuilder.java:444-482 | for a leaf or a reticulation `v`, or when `w > v`, an up candidate `w` of a parent candidate of `v` is a tree node and an up candidate of `v` itself; the source splits off the remaining case, a reticulation parent with `w <= v`, at lines 468-470 |
| Safety.UpTreeReady | src/FormulaBuilder.java:444-482 | every lookup of the up/parent/used section for tree nodes is declared |
| Safety.UpNetReady | src/FormulaBuilder.java:484-523 | every lookup of the up/parent/used section for reticulations is declared |
| Safety.XPointsToReady | src/FormulaBuilder.java:558-566 | every lookup of the x injectivity section is declared |
| Safety.XUsedReady | src/FormulaBuilder.java:568-575 | every lookup of the x-implies-used section is declared |
| Safety.DataReady | src/FormulaBuilder.java:581-620 | for a well-formed input tree, every lookup of the data section is declared |
| Safety.HeapExcludedTreeNodes | src/FormulaBuilder.java:622-632 | the ids the heap section excludes are tree nodes |
| Safety.HeapReady | src/FormulaBuilder.java:622-632 | every lookup of the heap section is declared |
| Safety.EqualsDirectReady | src/FormulaBuilder.java:668-672 | every lookup of the direct equal-node implications is declared |
| Safety.EqualsSubtreeReady | src/FormulaBuilder.java:674-690 | every lookup of the subtree exclusions is declared |
| Safety.DifferentReady | src/FormulaBuilder.java:700-704 | every lookup of the different-node exclusions is declared |
| Meaning.SectionMeaning | src/FormulaBuilder.java:259-321 | a commented loop nest holds exactly when every outer, middle and inner iteration's clauses hold |
| Meaning.HeapExcludedMembers | src/FormulaBuilder.java:623-631 | the heap section excludes exactly the first `subtreeSize/2 - 1` tree nodes and the last `depth` ones |
| Meaning.HeapPruned | src/FormulaBuilder.java:622-632 | the heap section holds exactly when no inner non-root input node sits at a tree node in those two ranges |
| Meaning.DataMeaning | src/FormulaBuilder.java:581-620 | the data section holds exactly when: the input root sits at the network root; a taxon goes up to wherever its parent sits; an inner node at `u` has its parent at `w` exactly when `u` goes up to `w`, and never at a tree node below `u` |
| Meaning.RootPinned | src/FormulaBuilder.java:584-586 | any assignment satisfying the data phase places the input tree's root at the network root |
| Meaning.DataPhaseMeaning | src/FormulaBuilder.java:578-634 | addDataConstraints' clauses hold exactly when both the data and the heap statements hold |
| Meaning.EqualsDirectMeaning | src/FormulaBuilder.java:668-672 | the direct clauses hold exactly when node n1 of t1 at `v` forces node n2 of t2 at `v` |
| Meaning.EqualsSubtreeMeaning | src/FormulaBuilder.java:674-690 | the subtree clauses hold exactly when no inner node under n1 shares a network node with an inner node of t2 outside the subtree of n2 |
| Meaning.EqualsMeaning | src/FormulaBuilder.java:663-692 | addEqualsNodesConstraints' clauses hold exactly when both statements hold |
| Meaning.DifferentMeaning | src/FormulaBuilder.java:694-705 | addDifferentTaxaNodesConstraints' clauses hold exactly when the two nodes never sit at the same network node |
| Links.ChildParentTreeMeaning | src/FormulaBuilder.java:260-282 | the tree-node section holds exactly when, for every tree node `v` and candidate child `u`, `left(v,u) or right(v,u)` holds exactly when `parent(u,v)` does (`lp(u,v) or rp(u,v)` for a reticulation `u`) |
| Links.ChildParentNetMeaning | src/FormulaBuilder.java:284-303 | the reticulation section holds exactly when, for every reticulation `v` and candidate child `u`, `ch(v,u)` holds exactly when `parent(u,v)` does (`lp(u,v) or rp(u,v)` for a reticulation `u`) |
| Links.ChildParentOrderMeaning | src/FormulaBuilder.java:305-320 | the ordering section holds exactly when a reticulation whose child is the leaf or tree node `u` has no parent numbered `n..u` |
| Links.ChildParentMeaning | src/FormulaBuilder.java:259-321 | addChildParentConstraints' clauses hold exactly when all three statements hold |
| Links.DirUsedMeaning | src/FormulaBuilder.java:323-353 | addDirUsedConstraints' clauses hold exactly when, at every reticulation, a tree-node left parent is unused when dir is clear and a tree-node right parent is unused when dir is set |
| Links.RUsedWithoutReticulations | src/FormulaBuilder.java:355-408 | without reticulations, addRUsedConstraints emits its three comments and no clause |
| Links.XPointsToMeaning | src/FormulaBuilder.java:558-566 | the points-to section holds exactly when no two inner nodes of the tree are realised by the same tree node |
| Links.XUsedMeaning | src/FormulaBuilder.java:568-575 | the used section holds exactly when every tree node that realises an inner node is used |
| Links.XMeaning | src/FormulaBuilder.java:526-576 | addXConstraints' clauses hold exactly when each inner node is realised by exactly one tree node, injectively, and only by used nodes |
| Links.UpTreeMeaning | src/FormulaBuilder.java:444-482 | the tree-node section holds exactly when, for `v` with parent choice `u`: a tree node `u` is `v`'s up exactly when it is used; through an unused tree node `u`, `v` goes up to `w` exactly when `u` does; through a reticulation `u`, `v` goes up wherever `u` does, and that lies above `v` |
| Links.UpNetMeaning | src/FormulaBuilder.java:484-523 | the reticulation section holds exactly when a reticulation entered from parent `u` (left parent with dir set, right parent with dir clear) goes up to `u` if `u` is a used tree node, and otherwise to wherever `u` goes up |
| Links.UpMeaning | src/FormulaBuilder.java:410-524 | addUpConstraints' clauses hold exactly when every non-root node has exactly one up and both linking statements hold |
| Builder.FormulaBuilder.constructor | src/FormulaBuilder.java:31-33 | the three-argument constructor keeps trees and map, takes `n` from the first tree, links no reticulations, keeps comments on; the buffer and counter start empty |
| Builder.FormulaBuilder.WithOptions | src/FormulaBuilder.java:35-50 | the full constructor keeps its arguments, takes `n` from the first tree, and starts with an empty buffer and a zero counter |
| Builder.FormulaBuilder.CreateVar | src/FormulaBuilder.java:795-798 | the key is put with id `|old m| + 1` and the new size is returned; for a fresh key that size is the key's id and the map grows by one |
| Builder.FormulaBuilder.GetVar | src/FormulaBuilder.java:800-802 | a registered key's id is returned, and lies in `1..|m|` |
| Builder.FormulaBuilder.CommentCnf | src/FormulaBuilder.java:804-808 | one comment line is appended unless comments are disabled, and the counter is unchanged |
| Builder.FormulaBuilder.AddClause | src/FormulaBuilder.java:810-817 | exactly one clause line is appended and the counter grows by exactly one |
| Builder.FormulaBuilder.Lookup | src/FormulaBuilder.java:819-825 | each literal's getVar, negated for a negative literal, gives that literal's numbered value |
| Builder.FormulaBuilder.AddExactlyOne | src/FormulaBuilder.java:90-121 | an exactly-one encoder declares exactly its family's keys and appends exactly the family's comments and clauses |
| Builder.FormulaBuilder.DeclareFamily | src/FormulaBuilder.java:92-98 | a declaring loop registers every key of the slot, in the family's order, keeping earlier keys |
| Builder.FormulaBuilder.DeclareNodes | src/FormulaBuilder.java:324-336 | the declaring loop of dir, used or rused registers each node's key in ascending order |
| Builder.FormulaBuilder.EmitAtLeastOne | src/FormulaBuilder.java:101-108 | the at-least-one loop appends exactly the family's at-least-one clauses |
| Builder.FormulaBuilder.EmitAtMostOne | src/FormulaBuilder.java:110-120 | the at-most-one loop appends exactly the family's pairwise clauses |
| Builder.FormulaBuilder.AddParentConstraints | src/FormulaBuilder.java:90-121 | declares exactly the parent keys and appends the family's constraints; with Choice.FamilyExactlyOne, every node but the root has exactly one parent |
| Builder.FormulaBuilder.AddLeftRightConstraints | src/FormulaBuilder.java:123-172 | declares exactly the left and right keys and appends their constraints: each tree node has exactly one left and one right child |
| Builder.FormulaBuilder.AddReticulationChildConstraints | src/FormulaBuilder.java:174-204 | declares exactly the ch keys and appends their constraints: each reticulation has exactly one child |
| Builder.FormulaBuilder.AddReticulationParentConstraints | src/FormulaBuilder.java:206-257 | declares exactly the lp and rp keys and appends their constraints: each reticulation has exactly one left and one right parent |
| Builder.FormulaBuilder.AddChildParentConstraints | src/FormulaBuilder.java:259-321 | declares nothing and appends its three sections, safely unless reticulations may be linked while `k >= 1`; their meaning is Links.ChildParentMeaning |
| Builder.FormulaBuilder.AddDirUsedConstraints | src/FormulaBuilder.java:323-353 | declares exactly dir and used of the tree and appends the dir/used section, whose meaning is Links.DirUsedMeaning |
| Builder.FormulaBuilder.AddRUsedConstraints | src/FormulaBuilder.java:355-408 | declares exactly rused of the tree and appends its two sections; without reticulations these hold no clause (Links.RUsedWithoutReticulations) |
| Builder.FormulaBuilder.AddUpConstraints | src/FormulaBuilder.java:410-524 | declares exactly up of the tree and appends its exactly-one constraints and both linking sections, whose meaning is Links.UpMeaning |
| Builder.FormulaBuilder.AddXConstraints | src/FormulaBuilder.java:526-576 | declares exactly x of the tree and appends its exactly-one constraints, the injectivity section and the used section, whose meaning is Links.XMeaning |
| Builder.FormulaBuilder.AddDataConstraints | src/FormulaBuilder.java:578-634 | declares nothing and appends the data and heap sections of the tree |
| Builder.FormulaBuilder.AddTreeConstraints | src/FormulaBuilder.java:67-73 | one pass of the tree loop declares exactly the tree's keys and appends exactly the tree's output |
| Builder.FormulaBuilder.AddConstraintsForPairOfTrees | src/FormulaBuilder.java:636-661 | appends, for each pair of inner nodes, the equal-node or different-node constraints their taxa call for, then the summary comment |
| Builder.FormulaBuilder.AddEqualsNodesConstraints | src/FormulaBuilder.java:663-692 | appends exactly the comment, the direct implications and the subtree exclusions |
| Builder.FormulaBuilder.AddDifferentTaxaNodesConstraints | src/FormulaBuilder.java:694-705 | appends exactly the comment and the exclusions |
| Builder.FormulaBuilder.AddAllPairs | src/FormulaBuilder.java:76-82 | the pair loops append the output of every ordered pair of distinct trees |
| Builder.FormulaBuilder.BuildCnf | src/FormulaBuilder.java:52-88 | fails, changing nothing, exactly when the map is not empty; otherwise the map holds exactly the declared keys, the text is the `p cnf V C` header then the numbered trace, `V` is the map's size and `C` is the old counter plus the clauses emitted |

## Left out

- Comment text: comments are opaque lines, because the `String.format` text carries no meaning for the solver.
- `PhylogeneticTree` and the jebl library are not part of this model. A tree is a read-only value (parent, depth, subtree sizes, taxa, subtree-node lists), and the encoder's assumptions about it are the predicate `WellFormed`.
- Builder.FormulaBuilder.AddChildParentConstraints: requires `!linkReticulations || k == 0`, because otherwise the source looks up an undeclared key (Safety.ChildParentGap, Topology.RootDualityGap) and unboxes a null. BuildCnf inherits the requirement.
- Builder.FormulaBuilder.BuildCnf: requires every input tree to be well formed over `n >= 2` taxa, which the source takes for granted.
- Builder.FormulaBuilder.GetVar: requires the key to be registered instead of modelling the null unboxing; the lookup-safety lemmas show that every call site meets this.
- The exceptions of `possibleChildren` and `possibleParents` become `Result` failures; the encoders only call them in range.
- The commented-out clauses (lines 164-168, 250-253 and 606-608) are not emitted, as in the source.
- Java's 32-bit `int` width is not modelled: ids, counts and literals are unbounded integers, since realistic inputs stay far below the limit.
- The text is modelled as a list of lines rendered on demand, not as a `StringBuilder` with `insert`.
- Soundness and completeness of the whole formula with respect to phylogenetic networks are not stated. The model proves what these clause sets mean: the exactly-one families; the child-parent, dir/used, up, x, data and heap sections; and the equal-node and different-node clauses. It also proves that every lookup is safe.
- Builder.FormulaBuilder.AddRUsedConstraints: its two rused sections get no meaning lemma. Under BuildCnf's requirement, addRUsedConstraints runs only when `k == 0`, and then it emits no clause (Links.RUsedWithoutReticulations).
- Builder.FormulaBuilder.constructor: the translation map is taken as a value. The source keeps the caller's map by reference and fills it, so the caller reads the numbering back from its own map. Here the caller reads the field `m` instead.
- Builder.FormulaBuilder.constructor: requires a non-empty tree list. The source reads the first tree's taxa count and throws `IndexOutOfBoundsException` on an empty list (line 45); that exception is not modelled.
- Builder.FormulaBuilder.constructor: takes the reticulation count `k` as a `nat`. The source's `int` accepts a negative count without complaint and then computes `2n - 1 + k` tree-node slots; negative counts are not modelled, because every node range and candidate list of the model presumes `k >= 0`.
- Builder.FormulaBuilder.WithOptions: takes the translation map as a value, for the same reason as the constructor.
- Builder.FormulaBuilder.WithOptions: requires a non-empty tree list and takes `k` as a `nat`, for the same reasons as the constructor (lines 42-46).
- `DummyMain`, the `beepp` expression classes and `Pair` are not part of the class and are not modelled.
