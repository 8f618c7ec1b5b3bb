/**
 * The variable families of the encoding and the clauses that make a family
 * an exactly-one choice.
 *
 * A pair family has one variable key(v, u) per node v of a range and per
 * candidate u of v (parent_v_u, left_v_u/right_v_u, ch_v_u, lp_v_u/rp_v_u,
 * up_t_v_u, x_t_tv_v). left/right and lp/rp are twin families: declared one
 * after the other and constrained side by side, slot 0 and slot 1. A node
 * family has one variable per node of a range (dir_t_v, used_t_v, rused_t_v).
 *
 * The spec functions below are indexed like the loops that emit them: Rows
 * over the first nodes of the range, Row over the first candidates of a node.
 */
module Families {
  import opened Topology
  import opened Registry
  import opened Formula
  import Cnf

  datatype Family = ParentF | LeftRightF | ChF | LpRpF | UpF(t: int) | XF(t: int)

  datatype NodeFamily = DirF(t: int) | UsedF(t: int) | RUsedF(t: int)

  function Width(f: Family): (r: nat) {
    if f.LeftRightF? || f.LpRpF? then 2 else 1
  }

  /** The node range of a family; its variables are key(v, u) with lo <= v < hi. */
  function FamLo(c: Config, f: Family): (r: int) {
    match f
    case ParentF => 0
    case LeftRightF => c.n
    case ChF => TreeNodesCount(c)
    case LpRpF => TreeNodesCount(c)
    case UpF(_) => 0
    case XF(_) => c.n
  }

  function FamHi(c: Config, f: Family): (r: int) {
    match f
    case ParentF => Root(c)
    case LeftRightF => TreeNodesCount(c)
    case ChF => NodeCount(c)
    case LpRpF => NodeCount(c)
    case UpF(_) => NodeCount(c)
    case XF(_) => 2 * c.n - 1
  }

  /** The candidates of node v: the list the source iterates for it. */
  function Cands(c: Config, f: Family, v: int): (r: seq<int>) {
    match f
    case ParentF => Parents(c, v)
    case LeftRightF => Children(c, v)
    case ChF => Children(c, v)
    case LpRpF => Parents(c, v)
    case UpF(_) => Ups(c, v)
    case XF(_) => TreeNodes(c)
  }

  function FamKey(f: Family, s: int, v: int, u: int): (r: Key) {
    match f
    case ParentF => Parent(v, u)
    case LeftRightF => if s == 0 then Left(v, u) else Right(v, u)
    case ChF => Ch(v, u)
    case LpRpF => if s == 0 then Lp(v, u) else Rp(v, u)
    case UpF(t) => Up(t, v, u)
    case XF(t) => X(t, v, u)
  }

  /** The key belongs to slot s of family f. */
  predicate IsFamKey(f: Family, s: int, key: Key) {
    match f
    case ParentF => key.Parent?
    case LeftRightF => if s == 0 then key.Left? else key.Right?
    case ChF => key.Ch?
    case LpRpF => if s == 0 then key.Lp? else key.Rp?
    case UpF(t) => key.Up? && key.t == t
    case XF(t) => key.X? && key.t == t
  }

  /** The node a key is about, and the candidate it picks for that node. */
  function Node(key: Key): (r: int) {
    match key
    case Parent(v, _) => v
    case Left(v, _) => v
    case Right(v, _) => v
    case Ch(v, _) => v
    case Lp(v, _) => v
    case Rp(v, _) => v
    case Dir(_, v) => v
    case Used(_, v) => v
    case RUsed(_, v) => v
    case Up(_, v, _) => v
    case X(_, tv, _) => tv
  }

  function Other(key: Key): (r: int) {
    match key
    case Parent(_, u) => u
    case Left(_, u) => u
    case Right(_, u) => u
    case Ch(_, u) => u
    case Lp(_, u) => u
    case Rp(_, u) => u
    case Dir(_, _) => 0
    case Used(_, _) => 0
    case RUsed(_, _) => 0
    case Up(_, _, u) => u
    case X(_, _, v) => v
  }

  lemma FamKeyShape(f: Family, s: int, v: int, u: int)
    ensures IsFamKey(f, s, FamKey(f, s, v, u))
    ensures Node(FamKey(f, s, v, u)) == v && Other(FamKey(f, s, v, u)) == u
  {
  }

  lemma FamKeyOf(f: Family, s: int, key: Key)
    requires IsFamKey(f, s, key)
    ensures key == FamKey(f, s, Node(key), Other(key))
  {
  }

  /** Every candidate list is ascending. */
  lemma CandsIncreasing(c: Config, f: Family, v: int)
    requires c.n >= 1 && FamLo(c, f) <= v < FamHi(c, f)
    ensures Increasing(Cands(c, f, v))
  {
    NodeRanges(c, v);
    ParentsMembers(c, v, 0);
    ChildrenMembers(c, v, 0);
    UpsMembers(c, v, 0);
  }

  lemma FamKeyInjective(f: Family, s: int, v: int, u: int, v': int, u': int)
    requires FamKey(f, s, v, u) == FamKey(f, s, v', u')
    ensures v == v' && u == u'
  {
    FamKeyShape(f, s, v, u);
    FamKeyShape(f, s, v', u');
  }

  /** All variables of slot s of f are registered. */
  ghost predicate Declared(c: Config, f: Family, s: int, m: map<Key, int>) {
    forall v, u :: FamLo(c, f) <= v < FamHi(c, f) && u in Cands(c, f, v) ==> FamKey(f, s, v, u) in m
  }

  /** Both slots of the family are declared. */
  ghost predicate FamilyDeclared(c: Config, f: Family, m: map<Key, int>) {
    Declared(c, f, 0, m) && (Width(f) == 2 ==> Declared(c, f, 1, m))
  }

  /** Declared keys stay declared as the registry grows. */
  lemma DeclaredGrows(c: Config, f: Family, s: int, m: map<Key, int>, m': map<Key, int>)
    requires Declared(c, f, s, m)
    requires forall key :: key in m ==> key in m'
    ensures Declared(c, f, s, m')
  {
  }

  /** Every slot's key of node v is declared for each candidate in cs. */
  ghost predicate NodeDeclared(f: Family, v: int, cs: seq<int>, m: map<Key, int>) {
    forall u :: u in cs ==> FamKey(f, 0, v, u) in m && (Width(f) == 2 ==> FamKey(f, 1, v, u) in m)
  }

  // ---- Node families ----

  function NodeLo(c: Config, g: NodeFamily): (r: int) {
    if g.UsedF? then c.n else TreeNodesCount(c)
  }

  function NodeHi(c: Config, g: NodeFamily): (r: int) {
    if g.UsedF? then TreeNodesCount(c) else NodeCount(c)
  }

  function NodeKey(g: NodeFamily, v: int): (r: Key) {
    match g
    case DirF(t) => Dir(t, v)
    case UsedF(t) => Used(t, v)
    case RUsedF(t) => RUsed(t, v)
  }

  predicate IsNodeKey(g: NodeFamily, key: Key) {
    match g
    case DirF(t) => key.Dir? && key.t == t
    case UsedF(t) => key.Used? && key.t == t
    case RUsedF(t) => key.RUsed? && key.t == t
  }

  ghost predicate NodesDeclared(c: Config, g: NodeFamily, m: map<Key, int>) {
    forall v :: NodeLo(c, g) <= v < NodeHi(c, g) ==> NodeKey(g, v) in m
  }

  // ---- Candidate tables ----

  /** The number of nodes in the family's range. */
  function Span(c: Config, f: Family): (r: nat) {
    if FamLo(c, f) <= FamHi(c, f) then FamHi(c, f) - FamLo(c, f) else 0
  }

  /** The candidate lists of the family's nodes, in node order: entry i is
      the list the source iterates for node FamLo + i. */
  function Table(c: Config, f: Family): (r: seq<seq<int>>) {
    seq(Span(c, f), i requires 0 <= i < Span(c, f) => Cands(c, f, FamLo(c, f) + i))
  }

  lemma TableEntries(c: Config, f: Family)
    requires c.n >= 1
    ensures FamLo(c, f) + |Table(c, f)| == FamHi(c, f)
    ensures forall i :: 0 <= i < |Table(c, f)| ==> Table(c, f)[i] == Cands(c, f, FamLo(c, f) + i)
  {
  }

  /** Every list of the table is ascending. */
  ghost predicate ListsIncreasing(tbl: seq<seq<int>>) {
    forall i :: 0 <= i < |tbl| ==> Increasing(tbl[i])
  }

  lemma TableIncreasing(c: Config, f: Family)
    requires c.n >= 1
    ensures ListsIncreasing(Table(c, f))
  {
    TableEntries(c, f);
    forall i | 0 <= i < |Table(c, f)|
      ensures Increasing(Table(c, f)[i])
    {
      CandsIncreasing(c, f, FamLo(c, f) + i);
    }
  }

  /** Every key of slot s that the table names for nodes lo, lo + 1, ... is in m. */
  ghost predicate TableDeclared(f: Family, s: int, lo: int, tbl: seq<seq<int>>, m: map<Key, int>) {
    forall i, u :: 0 <= i < |tbl| && u in tbl[i] ==> FamKey(f, s, lo + i, u) in m
  }

  lemma DeclaredByTable(c: Config, f: Family, s: int, m: map<Key, int>)
    requires c.n >= 1 && TableDeclared(f, s, FamLo(c, f), Table(c, f), m)
    ensures Declared(c, f, s, m)
  {
    TableEntries(c, f);
    forall v, u | FamLo(c, f) <= v < FamHi(c, f) && u in Cands(c, f, v)
      ensures FamKey(f, s, v, u) in m
    {
      assert Table(c, f)[v - FamLo(c, f)] == Cands(c, f, v);
    }
  }

  /** Every node's keys are declared, in every slot: what the clause loops look up. */
  ghost predicate TableReady(f: Family, lo: int, tbl: seq<seq<int>>, m: map<Key, int>) {
    forall i :: 0 <= i < |tbl| ==> NodeDeclared(f, lo + i, tbl[i], m)
  }

  lemma ReadyByDeclared(c: Config, f: Family, m: map<Key, int>)
    requires c.n >= 1 && FamilyDeclared(c, f, m)
    ensures TableReady(f, FamLo(c, f), Table(c, f), m)
  {
    TableEntries(c, f);
  }

  // ---- Declaration order ----

  /** The keys createVar is called on for node v, one per candidate in cs, in order. */
  function Row(f: Family, s: int, v: int, cs: seq<int>): (r: seq<Key>) {
    if cs == [] then [] else Row(f, s, v, cs[..|cs| - 1]) + [FamKey(f, s, v, cs[|cs| - 1])]
  }

  /** The keys createVar is called on for the first i nodes of the table. */
  function Rows(f: Family, s: int, lo: int, tbl: seq<seq<int>>, i: nat): (r: seq<Key>)
    requires i <= |tbl|
  {
    if i == 0 then [] else Rows(f, s, lo, tbl, i - 1) + Row(f, s, lo + i - 1, tbl[i - 1])
  }

  /** The keys of slot s of f in the order the declaring loops create them. */
  function FamDecl(c: Config, f: Family, s: int): (r: seq<Key>) {
    Rows(f, s, FamLo(c, f), Table(c, f), |Table(c, f)|)
  }

  lemma {:induction false} RowIndex(f: Family, s: int, v: int, cs: seq<int>)
    ensures |Row(f, s, v, cs)| == |cs|
    ensures forall i :: 0 <= i < |cs| ==> Row(f, s, v, cs)[i] == FamKey(f, s, v, cs[i])
  {
    if cs != [] {
      RowIndex(f, s, v, cs[..|cs| - 1]);
    }
  }

  /** Declaring the row of v registers every candidate key of v. */
  lemma RowDeclared(f: Family, s: int, v: int, cs: seq<int>, m: map<Key, int>)
    ensures forall u :: u in cs ==> FamKey(f, s, v, u) in Extend(m, Row(f, s, v, cs))
  {
    var row := Row(f, s, v, cs);
    ExtendDomain(m, row);
    RowIndex(f, s, v, cs);
    forall u | u in cs
      ensures FamKey(f, s, v, u) in row
    {
      var i :| 0 <= i < |cs| && cs[i] == u;
      assert row[i] == FamKey(f, s, v, u);
    }
  }

  /** The keys of the row of v belong to the family and to v. */
  lemma {:induction false} RowKeys(f: Family, s: int, v: int, cs: seq<int>)
    ensures forall key :: key in Row(f, s, v, cs) ==> IsFamKey(f, s, key) && Node(key) == v
  {
    if cs != [] {
      RowKeys(f, s, v, cs[..|cs| - 1]);
      FamKeyShape(f, s, v, cs[|cs| - 1]);
    }
  }

  /** The keys declared for the first i nodes belong to the family and to those nodes. */
  lemma {:induction false} RowsKeys(f: Family, s: int, lo: int, tbl: seq<seq<int>>, i: nat)
    requires i <= |tbl|
    ensures forall key :: key in Rows(f, s, lo, tbl, i) ==> IsFamKey(f, s, key) && lo <= Node(key) < lo + i
  {
    if i > 0 {
      RowsKeys(f, s, lo, tbl, i - 1);
      RowKeys(f, s, lo + i - 1, tbl[i - 1]);
    }
  }

  /** A row names each candidate of an ascending list once. */
  lemma RowDistinct(f: Family, s: int, v: int, cs: seq<int>)
    requires Increasing(cs)
    ensures Distinct(Row(f, s, v, cs))
  {
    RowIndex(f, s, v, cs);
    var row := Row(f, s, v, cs);
    forall i, j | 0 <= i < j < |row|
      ensures row[i] != row[j]
    {
      if row[i] == row[j] {
        FamKeyInjective(f, s, v, cs[i], v, cs[j]);
        assert false;
      }
    }
  }

  /** Keys of earlier nodes followed by keys of node v: no key repeats. */
  lemma DistinctByNode(a: seq<Key>, b: seq<Key>, v: int)
    requires Distinct(a) && Distinct(b)
    requires forall key :: key in a ==> Node(key) < v
    requires forall key :: key in b ==> Node(key) == v
    ensures Distinct(a + b)
  {
    DistinctAppend(a, b);
  }

  /** A declaration list over ascending candidate lists names each key once. */
  lemma {:induction false} RowsDistinct(f: Family, s: int, lo: int, tbl: seq<seq<int>>, i: nat)
    requires i <= |tbl| && ListsIncreasing(tbl)
    ensures Distinct(Rows(f, s, lo, tbl, i))
  {
    if i > 0 {
      RowsDistinct(f, s, lo, tbl, i - 1);
      RowDistinct(f, s, lo + i - 1, tbl[i - 1]);
      RowsKeys(f, s, lo, tbl, i - 1);
      RowKeys(f, s, lo + i - 1, tbl[i - 1]);
      DistinctByNode(Rows(f, s, lo, tbl, i - 1), Row(f, s, lo + i - 1, tbl[i - 1]), lo + i - 1);
    }
  }

  /** Declaring the first i nodes registers every key the table names for them. */
  lemma {:induction false} RowsDeclared(f: Family, s: int, lo: int, tbl: seq<seq<int>>, i: nat, m: map<Key, int>)
    requires i <= |tbl|
    ensures forall j, u :: 0 <= j < i && u in tbl[j] ==> FamKey(f, s, lo + j, u) in Extend(m, Rows(f, s, lo, tbl, i))
  {
    if i > 0 {
      RowsDeclared(f, s, lo, tbl, i - 1, m);
      var prior := Extend(m, Rows(f, s, lo, tbl, i - 1));
      var row := Row(f, s, lo + i - 1, tbl[i - 1]);
      ExtendAppend(m, Rows(f, s, lo, tbl, i - 1), row);
      ExtendDomain(prior, row);
      RowDeclared(f, s, lo + i - 1, tbl[i - 1], prior);
      forall j, u | 0 <= j < i && u in tbl[j]
        ensures FamKey(f, s, lo + j, u) in Extend(prior, row)
      {
        if j < i - 1 {
          assert FamKey(f, s, lo + j, u) in prior;
        }
      }
    }
  }

  /** What declaring a whole family on a registry below its stage achieves:
      every key of the family is registered, numbered after the old ones. */
  lemma FamDeclFacts(c: Config, f: Family, s: int, m: map<Key, int>)
    requires c.n >= 1 && RegistryValid(m) && Below(m, FamRank(f, s))
    ensures RegistryValid(Extend(m, FamDecl(c, f, s)))
    ensures Declared(c, f, s, Extend(m, FamDecl(c, f, s)))
    ensures Below(Extend(m, FamDecl(c, f, s)), FamRank(f, s) + 1)
    ensures forall key :: key in m ==> key in Extend(m, FamDecl(c, f, s)) && Extend(m, FamDecl(c, f, s))[key] == m[key]
  {
    FamDeclFresh(c, f, s, m);
    ExtendFresh(m, FamDecl(c, f, s));
    FamDeclDeclared(c, f, s, m);
    FamDeclBelow(c, f, s, m);
  }

  /** The family's declaration list names each key once, none of them in a
      registry below the family's stage. */
  lemma FamDeclFresh(c: Config, f: Family, s: int, m: map<Key, int>)
    requires c.n >= 1 && Below(m, FamRank(f, s))
    ensures Distinct(FamDecl(c, f, s))
    ensures forall i :: 0 <= i < |FamDecl(c, f, s)| ==> FamDecl(c, f, s)[i] !in m
  {
    var lo, tbl := FamLo(c, f), Table(c, f);
    var keys := FamDecl(c, f, s);
    TableIncreasing(c, f);
    RowsDistinct(f, s, lo, tbl, |tbl|);
    RowsKeys(f, s, lo, tbl, |tbl|);
    forall i | 0 <= i < |keys|
      ensures keys[i] !in m
    {
      assert keys[i] in keys;
      RankOfFamily(f, s, keys[i]);
    }
  }

  /** Declaring the family's list registers every key of the family. */
  lemma FamDeclDeclared(c: Config, f: Family, s: int, m: map<Key, int>)
    requires c.n >= 1
    ensures Declared(c, f, s, Extend(m, FamDecl(c, f, s)))
  {
    var lo, tbl := FamLo(c, f), Table(c, f);
    RowsDeclared(f, s, lo, tbl, |tbl|, m);
    DeclaredByTable(c, f, s, Extend(m, FamDecl(c, f, s)));
  }

  /** After the whole family, the registry is below the next stage. */
  lemma FamDeclBelow(c: Config, f: Family, s: int, m: map<Key, int>)
    requires Below(m, FamRank(f, s))
    ensures Below(Extend(m, FamDecl(c, f, s)), FamRank(f, s) + 1)
    ensures forall key :: key in m ==> key in Extend(m, FamDecl(c, f, s))
  {
    RowsKeys(f, s, FamLo(c, f), Table(c, f), |Table(c, f)|);
    ExtendDomain(m, FamDecl(c, f, s));
    forall key | key in Extend(m, FamDecl(c, f, s))
      ensures Rank(key) < FamRank(f, s) + 1
    {
      if key !in m {
        RankOfFamily(f, s, key);
      }
    }
  }

  function NodeRows(c: Config, g: NodeFamily, i: int): (r: seq<Key>)
    decreases i - NodeLo(c, g)
  {
    if i <= NodeLo(c, g) then [] else NodeRows(c, g, i - 1) + [NodeKey(g, i - 1)]
  }

  /** One more row appends that node's key. */
  lemma NodeRowsSnoc(c: Config, g: NodeFamily, v: int)
    requires NodeLo(c, g) <= v
    ensures NodeRows(c, g, v + 1) == NodeRows(c, g, v) + [NodeKey(g, v)]
  {
  }

  function NodeDecl(c: Config, g: NodeFamily): (r: seq<Key>) {
    NodeRows(c, g, NodeHi(c, g))
  }

  /** The keys declared for the nodes below i belong to the family and to
      those nodes, and include every one of them. */
  lemma {:induction false} NodeRowsKeys(c: Config, g: NodeFamily, i: int)
    ensures forall key :: key in NodeRows(c, g, i) ==> IsNodeKey(g, key) && NodeLo(c, g) <= Node(key) < i
    ensures forall v :: NodeLo(c, g) <= v < i ==> NodeKey(g, v) in NodeRows(c, g, i)
    decreases i - NodeLo(c, g)
  {
    if i > NodeLo(c, g) {
      NodeRowsKeys(c, g, i - 1);
    }
  }

  /** Each node's key is declared once. */
  lemma {:induction false} NodeRowsDistinct(c: Config, g: NodeFamily, i: int)
    ensures Distinct(NodeRows(c, g, i))
    decreases i - NodeLo(c, g)
  {
    if i > NodeLo(c, g) {
      NodeRowsDistinct(c, g, i - 1);
      NodeRowsKeys(c, g, i - 1);
      DistinctAppend(NodeRows(c, g, i - 1), [NodeKey(g, i - 1)]);
    }
  }

  /** What declaring a node family on a registry below its stage achieves. */
  lemma NodeDeclFacts(c: Config, g: NodeFamily, m: map<Key, int>)
    requires RegistryValid(m) && Below(m, NodeRank(g))
    ensures RegistryValid(Extend(m, NodeDecl(c, g)))
    ensures NodesDeclared(c, g, Extend(m, NodeDecl(c, g)))
    ensures Below(Extend(m, NodeDecl(c, g)), NodeRank(g) + 1)
    ensures forall key :: key in m ==> key in Extend(m, NodeDecl(c, g)) && Extend(m, NodeDecl(c, g))[key] == m[key]
  {
    var keys := NodeDecl(c, g);
    NodeRowsKeys(c, g, NodeHi(c, g));
    NodeRowsDistinct(c, g, NodeHi(c, g));
    forall i | 0 <= i < |keys|
      ensures keys[i] !in m
    {
      assert keys[i] in keys;
      RankOfNodes(g, keys[i]);
    }
    ExtendFresh(m, keys);
    ExtendDomain(m, keys);
    forall key | key in Extend(m, keys)
      ensures Rank(key) < NodeRank(g) + 1
    {
      if key !in m {
        RankOfNodes(g, key);
      }
    }
  }

  // ---- At-least-one and at-most-one clauses ----

  /** Up skips the root, which has no candidates. */
  predicate AloSkip(c: Config, f: Family, v: int) {
    f.UpF? && v == Root(c)
  }

  /** The at-least-one clause of slot s for node v: one positive literal per candidate in cs. */
  function AloLits(f: Family, s: int, v: int, cs: seq<int>): (r: seq<Lit>) {
    seq(|cs|, i requires 0 <= i < |cs| => Pos(FamKey(f, s, v, cs[i])))
  }

  /** Ids looked up for the candidates of slot s are the values of its clause's literals. */
  lemma AloLitsValues(f: Family, s: int, v: int, cs: seq<int>, m: map<Key, int>, lits: seq<int>)
    requires |lits| == |cs| && forall i :: 0 <= i < |cs| ==> FamKey(f, s, v, cs[i]) in m && lits[i] == m[FamKey(f, s, v, cs[i])]
    ensures |lits| == |AloLits(f, s, v, cs)|
    ensures forall j :: 0 <= j < |AloLits(f, s, v, cs)| ==> AloLits(f, s, v, cs)[j].key in m && lits[j] == LitValue(m, AloLits(f, s, v, cs)[j])
  {
  }

  /** The at-least-one clauses of node v, one per slot. */
  function AloClauses(f: Family, v: int, cs: seq<int>): (r: seq<Emit>) {
    [Or(AloLits(f, 0, v, cs))] + (if Width(f) == 2 then [Or(AloLits(f, 1, v, cs))] else [])
  }

  function AloNode(c: Config, f: Family, v: int, cs: seq<int>): (r: seq<Emit>) {
    if AloSkip(c, f, v) then [] else AloClauses(f, v, cs)
  }

  /** The at-least-one clauses of the first i nodes of the table. */
  function AloRows(c: Config, f: Family, lo: int, tbl: seq<seq<int>>, i: nat): (r: seq<Emit>)
    requires i <= |tbl|
  {
    if i == 0 then [] else AloRows(c, f, lo, tbl, i - 1) + AloNode(c, f, lo + i - 1, tbl[i - 1])
  }

  /** The lookups addReticulationParentConstraints makes for every pair of
      candidates before it compares them. */
  function AmoLooks(f: Family, v: int, u: int, w: int): (r: seq<Emit>) {
    if f.LpRpF? then [Look(Lp(v, u)), Look(Lp(v, w)), Look(Rp(v, u)), Look(Rp(v, w))] else []
  }

  /** The pairwise clauses for candidates u < w of node v, one per slot. */
  function AmoCell(f: Family, v: int, u: int, w: int): (r: seq<Emit>) {
    AmoLooks(f, v, u, w) + AmoPair(f, v, u, w)
  }

  function AmoPair(f: Family, v: int, u: int, w: int): (r: seq<Emit>) {
    if u < w then
      [Or([Neg(FamKey(f, 0, v, u)), Neg(FamKey(f, 0, v, w))])]
      + (if Width(f) == 2 then [Or([Neg(FamKey(f, 1, v, u)), Neg(FamKey(f, 1, v, w))])] else [])
    else []
  }

  /** The stages of the three at-most-one loops: one pair of candidates u, w
      of node v; the inner loop over the first j candidates of ws; the middle
      loop over the first i candidates of cs, each against all of cs; the
      outer loop over the first i nodes of the table, node lo + i holding
      candidates tbl[i]. */
  datatype AmoLoops =
    | AmoBlock(v: int, u: int, w: int)
    | AmoAt(v: int, u: int, w: int)
    | AmoPairsBelow(v: int, u: int, ws: seq<int>, j: nat)
    | AmoRowBelow(v: int, cs: seq<int>, i: nat)
    | AmoRowsBelow(lo: int, tbl: seq<seq<int>>, i: nat)

  function AmoLevel(p: AmoLoops): (r: nat) {
    match p
    case AmoBlock(_, _, _) => 0
    case AmoAt(_, _, _) => 1
    case AmoPairsBelow(_, _, _, _) => 2
    case AmoRowBelow(_, _, _) => 3
    case AmoRowsBelow(_, _, _) => 4
  }

  function AmoBound(p: AmoLoops): (r: nat) {
    match p
    case AmoBlock(_, _, _) => 0
    case AmoAt(_, _, _) => 0
    case AmoPairsBelow(_, _, _, j) => j
    case AmoRowBelow(_, _, i) => i
    case AmoRowsBelow(_, _, i) => i
  }

  /** A stage's loop counter lies within its list. */
  predicate AmoIn(p: AmoLoops) {
    match p
    case AmoBlock(_, _, _) => true
    case AmoAt(_, _, _) => true
    case AmoPairsBelow(_, _, ws, j) => j <= |ws|
    case AmoRowBelow(_, cs, i) => i <= |cs|
    case AmoRowsBelow(_, tbl, i) => i <= |tbl|
  }

  /** What a stage of the at-most-one loops emits. */
  function Amo(f: Family, p: AmoLoops): (r: seq<Emit>)
    requires AmoIn(p)
    decreases AmoLevel(p), AmoBound(p)
  {
    match p
    case AmoBlock(v, u, w) => AmoCell(f, v, u, w)
    case AmoAt(v, u, w) => Amo(f, AmoBlock(v, u, w))
    case AmoPairsBelow(v, u, ws, j) =>
      if j == 0 then [] else Amo(f, AmoPairsBelow(v, u, ws, j - 1)) + Amo(f, AmoAt(v, u, ws[j - 1]))
    case AmoRowBelow(v, cs, i) =>
      if i == 0 then [] else Amo(f, AmoRowBelow(v, cs, i - 1)) + Amo(f, AmoPairsBelow(v, cs[i - 1], cs, |cs|))
    case AmoRowsBelow(lo, tbl, i) =>
      if i == 0 then []
      else Amo(f, AmoRowsBelow(lo, tbl, i - 1)) + Amo(f, AmoRowBelow(lo + i - 1, tbl[i - 1], |tbl[i - 1]|))
  }

  /** One pair's stage emits that pair's cell. */
  lemma AmoAtCell(f: Family, v: int, u: int, w: int)
    ensures Amo(f, AmoAt(v, u, w)) == AmoCell(f, v, u, w)
  {
    assert Amo(f, AmoAt(v, u, w)) == Amo(f, AmoBlock(v, u, w));
  }

  /** One more iteration of the inner at-most-one loop grows the output by
      the cell of u and ws[j]. */
  lemma AmoPairsGrown(m: map<Key, int>, comments: bool, f: Family, v: int, u: int, ws: seq<int>, j: nat,
                      t0: seq<Emit>, l0: seq<Cnf.Line>, k0: int, t1: seq<Emit>, l1: seq<Cnf.Line>, k1: int,
                      t2: seq<Emit>, l2: seq<Cnf.Line>, k2: int)
    requires j < |ws|
    requires Grown(m, comments, t0, l0, k0, Amo(f, AmoPairsBelow(v, u, ws, j)), t1, l1, k1)
    requires Grown(m, comments, t1, l1, k1, AmoCell(f, v, u, ws[j]), t2, l2, k2)
    ensures Grown(m, comments, t0, l0, k0, Amo(f, AmoPairsBelow(v, u, ws, j + 1)), t2, l2, k2)
  {
    AmoAtCell(f, v, u, ws[j]);
    GrownTrans(m, comments, t0, l0, k0, Amo(f, AmoPairsBelow(v, u, ws, j)), t1, l1, k1,
               Amo(f, AmoAt(v, u, ws[j])), t2, l2, k2);
  }

  /** No rows yet: nothing emitted. */
  lemma AloRowsStart(m: map<Key, int>, comments: bool, c: Config, f: Family, lo: int, tbl: seq<seq<int>>,
                     t: seq<Emit>, l: seq<Cnf.Line>, k: int)
    ensures Grown(m, comments, t, l, k, AloRows(c, f, lo, tbl, 0), t, l, k)
  {
    GrownNothing(m, comments, t, l, k);
  }

  lemma AloRowsGrown(m: map<Key, int>, comments: bool, c: Config, f: Family, lo: int, tbl: seq<seq<int>>, i: nat,
                     t0: seq<Emit>, l0: seq<Cnf.Line>, k0: int, t1: seq<Emit>, l1: seq<Cnf.Line>, k1: int,
                     t2: seq<Emit>, l2: seq<Cnf.Line>, k2: int)
    requires i < |tbl|
    requires Grown(m, comments, t0, l0, k0, AloRows(c, f, lo, tbl, i), t1, l1, k1)
    requires Grown(m, comments, t1, l1, k1, AloNode(c, f, lo + i, tbl[i]), t2, l2, k2)
    ensures Grown(m, comments, t0, l0, k0, AloRows(c, f, lo, tbl, i + 1), t2, l2, k2)
  {
    GrownTrans(m, comments, t0, l0, k0, AloRows(c, f, lo, tbl, i), t1, l1, k1,
               AloNode(c, f, lo + i, tbl[i]), t2, l2, k2);
  }

  function AloAll(c: Config, f: Family): (r: seq<Emit>) {
    AloRows(c, f, FamLo(c, f), Table(c, f), |Table(c, f)|)
  }

  function AmoAll(c: Config, f: Family): (r: seq<Emit>) {
    Amo(f, AmoRowsBelow(FamLo(c, f), Table(c, f), |Table(c, f)|))
  }

  // ---- The loops over these lists, one step at a time ----

  lemma RowStart(f: Family, s: int, v: int, cs: seq<int>, m: map<Key, int>)
    ensures Extend(m, Row(f, s, v, cs[..0])) == m
  {
    assert cs[..0] == [];
  }

  /** Declaring one more candidate of node v extends the registry by its key. */
  lemma RowExtendStep(f: Family, s: int, v: int, cs: seq<int>, j: int, m: map<Key, int>)
    requires 0 <= j < |cs|
    ensures Extend(m, Row(f, s, v, cs[..j + 1]))
         == Extend(m, Row(f, s, v, cs[..j]))[FamKey(f, s, v, cs[j]) := |Extend(m, Row(f, s, v, cs[..j]))| + 1]
  {
    assert cs[..j + 1][..j] == cs[..j];
    ExtendSnoc(m, Row(f, s, v, cs[..j]), FamKey(f, s, v, cs[j]));
  }

  lemma RowsStart(f: Family, s: int, lo: int, tbl: seq<seq<int>>, m: map<Key, int>)
    ensures Extend(m, Rows(f, s, lo, tbl, 0)) == m
  {
  }

  lemma RowsExtendStep(f: Family, s: int, lo: int, tbl: seq<seq<int>>, i: nat,
                       m0: map<Key, int>, m: map<Key, int>, m': map<Key, int>)
    requires i < |tbl|
    requires m == Extend(m0, Rows(f, s, lo, tbl, i))
    requires m' == Extend(m, Row(f, s, lo + i, tbl[i]))
    ensures m' == Extend(m0, Rows(f, s, lo, tbl, i + 1))
  {
    ExtendAppend(m0, Rows(f, s, lo, tbl, i), Row(f, s, lo + i, tbl[i]));
  }

  /** One more candidate u of the middle loop appends its pairs. */
  // ---- Declaration stages ----

  /** The position of a key's family in the order buildCNF declares the
      families: the global ones first, then five per tree. */
  function Rank(key: Key): (r: int) {
    match key
    case Parent(_, _) => 0
    case Left(_, _) => 1
    case Right(_, _) => 2
    case Ch(_, _) => 3
    case Lp(_, _) => 4
    case Rp(_, _) => 5
    case Dir(t, _) => 6 + 5 * t
    case Used(t, _) => 7 + 5 * t
    case RUsed(t, _) => 8 + 5 * t
    case Up(t, _, _) => 9 + 5 * t
    case X(t, _, _) => 10 + 5 * t
  }

  function FamRank(f: Family, s: int): (r: int) {
    match f
    case ParentF => 0
    case LeftRightF => if s == 0 then 1 else 2
    case ChF => 3
    case LpRpF => if s == 0 then 4 else 5
    case UpF(t) => 9 + 5 * t
    case XF(t) => 10 + 5 * t
  }

  function NodeRank(g: NodeFamily): (r: int) {
    match g
    case DirF(t) => 6 + 5 * t
    case UsedF(t) => 7 + 5 * t
    case RUsedF(t) => 8 + 5 * t
  }

  /** Every registered key belongs to a family declared before stage r. */
  ghost predicate Below(m: map<Key, int>, r: int) {
    forall key :: key in m ==> Rank(key) < r
  }

  lemma BelowMono(m: map<Key, int>, r: int, r': int)
    requires Below(m, r) && r <= r'
    ensures Below(m, r')
  {
  }

  lemma RankOfFamily(f: Family, s: int, key: Key)
    requires IsFamKey(f, s, key)
    ensures Rank(key) == FamRank(f, s)
  {
  }

  lemma RankOfNodes(g: NodeFamily, key: Key)
    requires IsNodeKey(g, key)
    ensures Rank(key) == NodeRank(g)
  {
  }
}
