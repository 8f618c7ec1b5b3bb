/**
 * FormulaBuilder: the object that numbers the encoding's variables and
 * accumulates its clauses.
 *
 * The model keeps the source's state: the translation map m (key -> id),
 * the text accumulated so far (as numbered lines, rendered by Cnf) and the
 * clause counter. Two ghost fields record what the text means: trace, the
 * keyed remarks and clauses emitted since buildCNF started, and countBase,
 * the counter's value at that start.
 */
module Builder {
  import opened Wrappers
  import opened Topology
  import opened Registry
  import opened Cnf
  import opened Formula
  import opened Trees
  import opened Families
  import opened Phases
  import opened Nests
  import opened Safety

  class FormulaBuilder {
    const cfg: Config
    const trees: seq<Tree>
    const disableComments: bool

    var m: map<Key, int>
    var lines: seq<Line>
    var clausesCount: int

    ghost var trace: seq<Emit>
    ghost var countBase: int

    /** The text is the numbered image of the trace, every key the trace
        mentions is registered, ids run 1..|m| and the counter counts the
        clauses of the trace. */
    ghost predicate Valid()
      reads this
    {
      cfg.n >= 2 && Coherent(m, !disableComments, countBase, trace, lines, clausesCount)
    }

    /** The output is the output (t0, l0, k0) followed by the emits x. */
    ghost predicate GrownFrom(t0: seq<Emit>, l0: seq<Line>, k0: int, x: seq<Emit>)
      reads this
    {
      Grown(m, !disableComments, t0, l0, k0, x, trace, lines, clausesCount)
    }

    /** The three-argument constructor: no linked reticulations, comments on. */
    constructor (trees: seq<Tree>, hybridisationNumber: nat, translationMap: map<Key, int>)
      requires |trees| > 0
      ensures this.trees == trees && m == translationMap
      ensures cfg == Config(trees[0].taxaSize, hybridisationNumber, false)
      ensures !disableComments && clausesCount == 0 && lines == []
    {
      this.trees := trees;
      cfg := Config(trees[0].taxaSize, hybridisationNumber, false);
      m := translationMap;
      disableComments := false;
      clausesCount := 0;
      lines := [];
    }

    constructor WithOptions(trees: seq<Tree>, hybridisationNumber: nat, translationMap: map<Key, int>,
                            enableReticulationConnection: bool, disableComments: bool)
      requires |trees| > 0
      ensures this.trees == trees && m == translationMap
      ensures cfg == Config(trees[0].taxaSize, hybridisationNumber, enableReticulationConnection)
      ensures this.disableComments == disableComments && clausesCount == 0 && lines == []
    {
      this.trees := trees;
      cfg := Config(trees[0].taxaSize, hybridisationNumber, enableReticulationConnection);
      m := translationMap;
      this.disableComments := disableComments;
      clausesCount := 0;
      lines := [];
    }

    // ---- Registry and output primitives ----

    /** createVar: put key -> |m| + 1 and return the new size. On a fresh
        key that is the key's id; on a key already present the map keeps its
        size and the id returned is not the one stored (RedeclareBreaksNumbering). */
    method CreateVar(key: Key) returns (id: int)
      modifies this`m
      ensures m == old(m)[key := |old(m)| + 1] && id == |m|
      ensures key !in old(m) ==> id == |old(m)| + 1 == m[key]
    {
      m := m[key := |m| + 1];
      id := |m|;
    }

    /** getVar: the id of a registered key (the source unboxes null for a
        missing one). */
    method GetVar(key: Key) returns (id: int)
      requires key in m
      ensures id == m[key]
      ensures Valid() ==> 1 <= id <= |m|
    {
      id := m[key];
    }

    /** commentCNF: a comment line unless comments are disabled. */
    method CommentCnf()
      modifies this`lines, this`trace
      ensures trace == old(trace) + [Remark]
      ensures lines == old(lines) + (if disableComments then [] else [Comment])
      ensures GrownFrom(old(trace), old(lines), old(clausesCount), [Remark])
      ensures old(Valid()) ==> Valid()
    {
      ghost var t0, l0, k0 := trace, lines, clausesCount;
      GrownOne(m, !disableComments, trace, lines, clausesCount, Remark);
      if !disableComments {
        lines := lines + [Comment];
      }
      trace := trace + [Remark];
      if old(Valid()) {
        CoherentGrown(m, !disableComments, countBase, t0, l0, k0, [Remark], trace, lines, clausesCount);
      }
    }

    /** addClause: one clause line, counted. The ghost ls names the keys the
        literals were looked up from. */
    method AddClause(lits: seq<int>, ghost ls: seq<Lit>)
      requires |lits| == |ls|
      requires forall j :: 0 <= j < |ls| ==> ls[j].key in m && lits[j] == LitValue(m, ls[j])
      modifies this`lines, this`clausesCount, this`trace
      ensures trace == old(trace) + [Or(ls)]
      ensures lines == old(lines) + [Clause(lits)]
      ensures clausesCount == old(clausesCount) + 1
      ensures GrownFrom(old(trace), old(lines), old(clausesCount), [Or(ls)])
    {
      assert lits == LitValues(m, ls);
      GrownOne(m, !disableComments, trace, lines, clausesCount, Or(ls));
      lines := lines + [Clause(lits)];
      clausesCount := clausesCount + 1;
      trace := trace + [Or(ls)];
    }

    /** getVar on the key of each literal, negated for a negative one: the
        arguments of an addClause(int...) call. */
    method Lookup(ls: seq<Lit>) returns (lits: seq<int>)
      requires LitsIn(ls, m)
      ensures |lits| == |ls| && forall j :: 0 <= j < |ls| ==> lits[j] == LitValue(m, ls[j])
    {
      lits := [];
      var j := 0;
      while j < |ls|
        invariant 0 <= j <= |ls| && |lits| == j
        invariant forall i :: 0 <= i < j ==> lits[i] == LitValue(m, ls[i])
      {
        var id := GetVar(ls[j].key);
        lits := lits + [if ls[j].Pos? then id else -id];
        j := j + 1;
      }
    }

    /** getVar into a local: the key must be registered; nothing is output. */
    method Probe(key: Key)
      requires key in m
      modifies this`trace
      ensures trace == old(trace) + [Look(key)]
      ensures GrownFrom(old(trace), old(lines), old(clausesCount), [Look(key)])
    {
      var _ := GetVar(key);
      GrownOne(m, !disableComments, trace, lines, clausesCount, Look(key));
      assert lines + [] == lines;
      trace := trace + [Look(key)];
    }

    /** addClause(getVar(..), -getVar(..), ...): the clause of ls, numbered. */
    method AddKeyedClause(ls: seq<Lit>)
      requires LitsIn(ls, m)
      modifies this`lines, this`clausesCount, this`trace
      ensures GrownFrom(old(trace), old(lines), old(clausesCount), [Or(ls)])
    {
      var lits := Lookup(ls);
      AddClause(lits, ls);
    }

    /** One emit of a spec list, performed: a comment, a lookup or a clause. */
    method EmitOne(e: Emit)
      requires EmitIn(e, m)
      modifies this`lines, this`clausesCount, this`trace
      ensures GrownFrom(old(trace), old(lines), old(clausesCount), [e])
    {
      match e
      case Remark => CommentCnf();
      case Look(key) => Probe(key);
      case Or(ls) => AddKeyedClause(ls);
    }

    /** The emits of es, in order: the straight-line code of one loop iteration. */
    method EmitBlock(es: seq<Emit>)
      requires AllIn(es, m)
      modifies this`lines, this`clausesCount, this`trace
      ensures GrownFrom(old(trace), old(lines), old(clausesCount), es)
    {
      ghost var t0, l0, k0 := trace, lines, clausesCount;
      GrownNothing(m, !disableComments, t0, l0, k0);
      assert es[..0] == [];
      var i := 0;
      while i < |es|
        invariant 0 <= i <= |es|
        invariant GrownFrom(t0, l0, k0, es[..i])
      {
        EmitBlockStep(es, i, t0, l0, k0);
        i := i + 1;
      }
      assert es[..i] == es;
    }

    method EmitBlockStep(es: seq<Emit>, i: nat, ghost t0: seq<Emit>, ghost l0: seq<Line>, ghost k0: int)
      requires i < |es| && AllIn(es, m)
      requires GrownFrom(t0, l0, k0, es[..i])
      modifies this`lines, this`clausesCount, this`trace
      ensures GrownFrom(t0, l0, k0, es[..i + 1])
    {
      ghost var t, l, k := trace, lines, clausesCount;
      EmitOne(es[i]);
      GrownTrans(m, !disableComments, t0, l0, k0, es[..i], t, l, k, [es[i]], trace, lines, clausesCount);
      assert es[..i + 1] == es[..i] + [es[i]];
    }

    // ---- The exactly-one phases ----

    /** A family made an exactly-one choice per node: its slots declared,
        each followed by a comment, then its at-least-one and at-most-one
        clauses, each loop after its comments. */
    method AddExactlyOne(f: Family, ghost next: int)
      requires Valid() && Below(m, FamRank(f, 0)) && FamRank(f, 0) + Width(f) <= next
      modifies this`m, this`lines, this`clausesCount, this`trace
      ensures m == Extend(old(m), ExactlyOneDecl(cfg, f))
      ensures trace == old(trace) + ExactlyOnePhase(cfg, f)
      ensures Valid() && FamilyDeclared(cfg, f, m)
      ensures Below(m, next)
      ensures forall key :: key in old(m) ==> key in m
    {
      ghost var t0 := trace;
      DeclareSlots(f);
      BelowMono(m, FamRank(f, 0) + Width(f), next);
      ConstrainSlots(f);
      EmitsAssoc(t0, Notes(f), ExactlyOneClauses(cfg, f));
    }

    /** The declaring loops of every slot, each followed by its comment. */
    method DeclareSlots(f: Family)
      requires Valid() && Below(m, FamRank(f, 0))
      modifies this`m, this`lines, this`trace
      ensures m == Extend(old(m), ExactlyOneDecl(cfg, f))
      ensures trace == old(trace) + Notes(f)
      ensures Valid() && FamilyDeclared(cfg, f, m)
      ensures Below(m, FamRank(f, 0) + Width(f))
      ensures forall key :: key in old(m) ==> key in m
    {
      ghost var m0, t0 := m, trace;
      DeclareSlot(f, 0);
      if Width(f) == 2 {
        DeclareSecondSlot(f, m0, t0);
      } else {
        assert FamDecl(cfg, f, 0) + [] == FamDecl(cfg, f, 0);
      }
    }

    /** Slot 1 of a two-slot family, once slot 0 is declared and commented. */
    method DeclareSecondSlot(f: Family, ghost m0: map<Key, int>, ghost t0: seq<Emit>)
      requires Width(f) == 2 && Valid() && Declared(cfg, f, 0, m)
      requires m == Extend(m0, FamDecl(cfg, f, 0)) && trace == t0 + [Remark]
      requires Below(m, FamRank(f, 1)) && forall key :: key in m0 ==> key in m
      modifies this`m, this`lines, this`trace
      ensures m == Extend(m0, ExactlyOneDecl(cfg, f))
      ensures trace == t0 + Notes(f)
      ensures Valid() && FamilyDeclared(cfg, f, m)
      ensures Below(m, FamRank(f, 0) + Width(f))
      ensures forall key :: key in m0 ==> key in m
    {
      ghost var m1 := m;
      DeclareSlot(f, 1);
      ExtendAppend(m0, FamDecl(cfg, f, 0), FamDecl(cfg, f, 1));
      DeclaredGrows(cfg, f, 0, m1, m);
      EmitsAssoc(t0, [Remark], [Remark]);
      assert [Remark] + [Remark] == Notes(f);
    }

    /** The declaring loop of slot s, then its comment. */
    method DeclareSlot(f: Family, s: int)
      requires Valid() && 0 <= s < Width(f)
      requires Below(m, FamRank(f, s))
      modifies this`m, this`lines, this`trace
      ensures m == Extend(old(m), FamDecl(cfg, f, s))
      ensures trace == old(trace) + [Remark]
      ensures Valid() && Declared(cfg, f, s, m)
      ensures Below(m, FamRank(f, s) + 1)
      ensures forall key :: key in old(m) ==> key in m
    {
      DeclareFamily(f, s);
      CommentCnf();
    }

    /** The at-least-one and at-most-one loops of a declared family, after their comments. */
    method ConstrainSlots(f: Family)
      requires Valid() && FamilyDeclared(cfg, f, m)
      modifies this`lines, this`clausesCount, this`trace
      ensures trace == old(trace) + ExactlyOneClauses(cfg, f)
      ensures Valid()
    {
      ghost var t0 := trace;
      CommentCnf();
      EmitAtLeastOne(f);
      EmitsAssoc(t0, [Remark], AloAll(cfg, f));
      CommentSlots(f);
      EmitsAssoc(t0, [Remark] + AloAll(cfg, f), Notes(f));
      EmitAtMostOne(f);
      EmitsAssoc(t0, [Remark] + AloAll(cfg, f) + Notes(f), AmoAll(cfg, f));
    }

    /** One comment per slot. */
    method CommentSlots(f: Family)
      modifies this`lines, this`trace
      ensures trace == old(trace) + Notes(f)
      ensures old(Valid()) ==> Valid()
    {
      CommentCnf();
      if Width(f) == 2 {
        CommentCnf();
        EmitsAssoc(old(trace), [Remark], [Remark]);
        assert [Remark] + [Remark] == Notes(f);
      }
    }

    // ---- The loops shared by the exactly-one phases ----

    /** Declares slot s of family f on a registry below its stage: every
        key of the family gets the next id, in the order of FamDecl. */
    method DeclareFamily(f: Family, s: int)
      requires Valid() && 0 <= s < Width(f)
      requires Below(m, FamRank(f, s))
      modifies this`m
      ensures m == Extend(old(m), FamDecl(cfg, f, s))
      ensures Valid()
      ensures Declared(cfg, f, s, m)
      ensures forall key :: key in old(m) ==> key in m
      ensures Below(m, FamRank(f, s) + 1)
    {
      ghost var m0 := m;
      DeclareRows(f, s, FamLo(cfg, f), Table(cfg, f));
      FamDeclFacts(cfg, f, s, m0);
      CoherentExtend(m0, m, !disableComments, countBase, trace, lines, clausesCount);
    }

    /** The declaring loop: for each node lo + i, createVar on each of its candidates. */
    method DeclareRows(f: Family, s: int, lo: int, tbl: seq<seq<int>>)
      modifies this`m
      ensures m == Extend(old(m), Rows(f, s, lo, tbl, |tbl|))
    {
      ghost var m0 := m;
      RowsStart(f, s, lo, tbl, m0);
      var i := 0;
      while i < |tbl|
        invariant 0 <= i <= |tbl|
        invariant m == Extend(m0, Rows(f, s, lo, tbl, i))
      {
        ghost var mi := m;
        DeclareRow(f, s, lo + i, tbl[i]);
        RowsExtendStep(f, s, lo, tbl, i, m0, mi, m);
        i := i + 1;
      }
    }

    /** The inner declaring loop: the keys of node v, one per candidate in cs. */
    method DeclareRow(f: Family, s: int, v: int, cs: seq<int>)
      modifies this`m
      ensures m == Extend(old(m), Row(f, s, v, cs))
    {
      ghost var mv := m;
      RowStart(f, s, v, cs, mv);
      var j := 0;
      while j < |cs|
        invariant 0 <= j <= |cs|
        invariant m == Extend(mv, Row(f, s, v, cs[..j]))
      {
        RowExtendStep(f, s, v, cs, j, mv);
        var _ := CreateVar(FamKey(f, s, v, cs[j]));
        j := j + 1;
      }
      assert cs[..j] == cs;
    }

    /** The at-least-one loop over the nodes of f: one clause per slot,
        naming every candidate of the node. */
    method EmitAtLeastOne(f: Family)
      requires cfg.n >= 2 && FamilyDeclared(cfg, f, m)
      modifies this`lines, this`clausesCount, this`trace
      ensures GrownFrom(old(trace), old(lines), old(clausesCount), AloAll(cfg, f))
      ensures trace == old(trace) + AloAll(cfg, f)
      ensures old(Valid()) ==> Valid()
    {
      ghost var t0, l0, k0 := trace, lines, clausesCount;
      ReadyByDeclared(cfg, f, m);
      EmitAloRows(f, FamLo(cfg, f), Table(cfg, f));
      if old(Valid()) {
        CoherentGrown(m, !disableComments, countBase, t0, l0, k0, AloAll(cfg, f), trace, lines, clausesCount);
      }
    }

    method EmitAloRows(f: Family, lo: int, tbl: seq<seq<int>>)
      requires TableReady(f, lo, tbl, m)
      modifies this`lines, this`clausesCount, this`trace
      ensures GrownFrom(old(trace), old(lines), old(clausesCount), AloRows(cfg, f, lo, tbl, |tbl|))
    {
      ghost var t0, l0, k0 := trace, lines, clausesCount;
      AloRowsStart(m, !disableComments, cfg, f, lo, tbl, t0, l0, k0);
      var i := 0;
      while i < |tbl|
        invariant 0 <= i <= |tbl|
        invariant GrownFrom(t0, l0, k0, AloRows(cfg, f, lo, tbl, i))
      {
        EmitAloRowsStep(f, lo, tbl, i, t0, l0, k0);
        i := i + 1;
      }
    }

    /** One iteration: the at-least-one clauses of node lo + i, unless skipped. */
    method EmitAloRowsStep(f: Family, lo: int, tbl: seq<seq<int>>, i: nat, ghost t0: seq<Emit>, ghost l0: seq<Line>, ghost k0: int)
      requires i < |tbl| && TableReady(f, lo, tbl, m)
      requires GrownFrom(t0, l0, k0, AloRows(cfg, f, lo, tbl, i))
      modifies this`lines, this`clausesCount, this`trace
      ensures GrownFrom(t0, l0, k0, AloRows(cfg, f, lo, tbl, i + 1))
    {
      ghost var t, l, k := trace, lines, clausesCount;
      if !AloSkip(cfg, f, lo + i) {
        EmitAloNode(f, lo + i, tbl[i]);
      } else {
        GrownNothing(m, !disableComments, t, l, k);
      }
      AloRowsGrown(m, !disableComments, cfg, f, lo, tbl, i, t0, l0, k0, t, l, k, trace, lines, clausesCount);
    }

    /** The at-least-one clauses of node v: the literals of every slot are
        collected in one pass over the candidates, then each slot's clause is added. */
    method EmitAloNode(f: Family, v: int, cs: seq<int>)
      requires NodeDeclared(f, v, cs, m)
      modifies this`lines, this`clausesCount, this`trace
      ensures GrownFrom(old(trace), old(lines), old(clausesCount), AloClauses(f, v, cs))
    {
      var l0, l1 := AloLiterals(f, v, cs);
      AloLitsValues(f, 0, v, cs, m, l0);
      ghost var t, l, k := trace, lines, clausesCount;
      AddClause(l0, AloLits(f, 0, v, cs));
      if Width(f) == 2 {
        AloLitsValues(f, 1, v, cs, m, l1);
        AddClause(l1, AloLits(f, 1, v, cs));
        GrownTrans(m, !disableComments, old(trace), old(lines), old(clausesCount), [Or(AloLits(f, 0, v, cs))], t + [Or(AloLits(f, 0, v, cs))], l + [Clause(l0)], k + 1,
                   [Or(AloLits(f, 1, v, cs))], trace, lines, clausesCount);
      }
    }

    /** The ids of every slot's key of each candidate, in candidate order. */
    method AloLiterals(f: Family, v: int, cs: seq<int>) returns (l0: seq<int>, l1: seq<int>)
      requires NodeDeclared(f, v, cs, m)
      ensures |l0| == |cs|
      ensures forall i :: 0 <= i < |cs| ==> FamKey(f, 0, v, cs[i]) in m && l0[i] == m[FamKey(f, 0, v, cs[i])]
      ensures Width(f) == 2 ==> |l1| == |cs|
      ensures Width(f) == 2 ==> forall i :: 0 <= i < |cs| ==> FamKey(f, 1, v, cs[i]) in m && l1[i] == m[FamKey(f, 1, v, cs[i])]
    {
      l0, l1 := [], [];
      var j := 0;
      while j < |cs|
        invariant 0 <= j <= |cs|
        invariant |l0| == j
        invariant forall i :: 0 <= i < j ==> FamKey(f, 0, v, cs[i]) in m && l0[i] == m[FamKey(f, 0, v, cs[i])]
        invariant Width(f) == 2 ==> |l1| == j
        invariant Width(f) == 2 ==> forall i :: 0 <= i < j ==> FamKey(f, 1, v, cs[i]) in m && l1[i] == m[FamKey(f, 1, v, cs[i])]
      {
        assert cs[j] in cs;
        var a := GetVar(FamKey(f, 0, v, cs[j]));
        l0 := l0 + [a];
        if Width(f) == 2 {
          var b := GetVar(FamKey(f, 1, v, cs[j]));
          l1 := l1 + [b];
        }
        j := j + 1;
      }
    }

    /** The at-most-one loop over the nodes of f: a clause (-a | -b) per slot
        for every two candidates a < b of the node. */
    method EmitAtMostOne(f: Family)
      requires cfg.n >= 2 && FamilyDeclared(cfg, f, m)
      modifies this`lines, this`clausesCount, this`trace
      ensures GrownFrom(old(trace), old(lines), old(clausesCount), AmoAll(cfg, f))
      ensures trace == old(trace) + AmoAll(cfg, f)
      ensures old(Valid()) ==> Valid()
    {
      ghost var t0, l0, k0 := trace, lines, clausesCount;
      ReadyByDeclared(cfg, f, m);
      EmitAmoRows(f, FamLo(cfg, f), Table(cfg, f));
      if old(Valid()) {
        CoherentGrown(m, !disableComments, countBase, t0, l0, k0, AmoAll(cfg, f), trace, lines, clausesCount);
      }
    }

    method EmitAmoRows(f: Family, lo: int, tbl: seq<seq<int>>)
      requires TableReady(f, lo, tbl, m)
      modifies this`lines, this`clausesCount, this`trace
      ensures GrownFrom(old(trace), old(lines), old(clausesCount), Amo(f, AmoRowsBelow(lo, tbl, |tbl|)))
    {
      ghost var t0, l0, k0 := trace, lines, clausesCount;
      GrownNothing(m, !disableComments, t0, l0, k0);
      assert Amo(f, AmoRowsBelow(lo, tbl, 0)) == [];
      var i := 0;
      while i < |tbl|
        invariant 0 <= i <= |tbl|
        invariant GrownFrom(t0, l0, k0, Amo(f, AmoRowsBelow(lo, tbl, i)))
      {
        EmitAmoRowsStep(f, lo, tbl, i, t0, l0, k0);
        i := i + 1;
      }
    }

    /** One iteration: the at-most-one clauses of node lo + i. */
    method EmitAmoRowsStep(f: Family, lo: int, tbl: seq<seq<int>>, i: nat, ghost t0: seq<Emit>, ghost l0: seq<Line>, ghost k0: int)
      requires i < |tbl| && TableReady(f, lo, tbl, m)
      requires GrownFrom(t0, l0, k0, Amo(f, AmoRowsBelow(lo, tbl, i)))
      modifies this`lines, this`clausesCount, this`trace
      ensures GrownFrom(t0, l0, k0, Amo(f, AmoRowsBelow(lo, tbl, i + 1)))
    {
      ghost var t, l, k := trace, lines, clausesCount;
      EmitAmoRow(f, lo + i, tbl[i]);
      GrownTrans(m, !disableComments, t0, l0, k0, Amo(f, AmoRowsBelow(lo, tbl, i)), t, l, k,
                 Amo(f, AmoRowBelow(lo + i, tbl[i], |tbl[i]|)), trace, lines, clausesCount);
    }

    /** The two candidate loops of node v. */
    method EmitAmoRow(f: Family, v: int, cs: seq<int>)
      requires NodeDeclared(f, v, cs, m)
      modifies this`lines, this`clausesCount, this`trace
      ensures GrownFrom(old(trace), old(lines), old(clausesCount), Amo(f, AmoRowBelow(v, cs, |cs|)))
    {
      ghost var t0, l0, k0 := trace, lines, clausesCount;
      GrownNothing(m, !disableComments, t0, l0, k0);
      assert Amo(f, AmoRowBelow(v, cs, 0)) == [];
      var i := 0;
      while i < |cs|
        invariant 0 <= i <= |cs|
        invariant GrownFrom(t0, l0, k0, Amo(f, AmoRowBelow(v, cs, i)))
      {
        EmitAmoRowStep(f, v, cs, i, t0, l0, k0);
        i := i + 1;
      }
    }

    /** One iteration: candidate cs[i] against all of cs. */
    method EmitAmoRowStep(f: Family, v: int, cs: seq<int>, i: nat, ghost t0: seq<Emit>, ghost l0: seq<Line>, ghost k0: int)
      requires i < |cs| && NodeDeclared(f, v, cs, m)
      requires GrownFrom(t0, l0, k0, Amo(f, AmoRowBelow(v, cs, i)))
      modifies this`lines, this`clausesCount, this`trace
      ensures GrownFrom(t0, l0, k0, Amo(f, AmoRowBelow(v, cs, i + 1)))
    {
      ghost var t, l, k := trace, lines, clausesCount;
      assert cs[i] in cs;
      EmitAmoPairs(f, v, cs[i], cs);
      GrownTrans(m, !disableComments, t0, l0, k0, Amo(f, AmoRowBelow(v, cs, i)), t, l, k,
                 Amo(f, AmoPairsBelow(v, cs[i], cs, |cs|)), trace, lines, clausesCount);
    }

    /** Candidate u against every candidate w of ws. */
    method EmitAmoPairs(f: Family, v: int, u: int, ws: seq<int>)
      requires NodeDeclared(f, v, ws, m) && NodeDeclared(f, v, [u], m)
      modifies this`lines, this`clausesCount, this`trace
      ensures GrownFrom(old(trace), old(lines), old(clausesCount), Amo(f, AmoPairsBelow(v, u, ws, |ws|)))
    {
      ghost var t0, l0, k0 := trace, lines, clausesCount;
      GrownNothing(m, !disableComments, t0, l0, k0);
      assert Amo(f, AmoPairsBelow(v, u, ws, 0)) == [];
      var j := 0;
      while j < |ws|
        invariant 0 <= j <= |ws|
        invariant GrownFrom(t0, l0, k0, Amo(f, AmoPairsBelow(v, u, ws, j)))
      {
        var w := ws[j];
        assert w in ws && u in [u];
        EmitAmoPairsStep(f, v, u, ws, j, w, t0, l0, k0);
        j := j + 1;
      }
    }

    /** One iteration: the cell of u and ws[j]. */
    method EmitAmoPairsStep(f: Family, v: int, u: int, ws: seq<int>, j: nat, w: int,
                            ghost t0: seq<Emit>, ghost l0: seq<Line>, ghost k0: int)
      requires j < |ws| && w == ws[j] && NodeDeclared(f, v, [u, w], m)
      requires GrownFrom(t0, l0, k0, Amo(f, AmoPairsBelow(v, u, ws, j)))
      modifies this`lines, this`clausesCount, this`trace
      ensures GrownFrom(t0, l0, k0, Amo(f, AmoPairsBelow(v, u, ws, j + 1)))
    {
      ghost var t, l, k := trace, lines, clausesCount;
      EmitAmoCell(f, v, u, w);
      AmoPairsGrown(m, !disableComments, f, v, u, ws, j, t0, l0, k0, t, l, k, trace, lines, clausesCount);
    }

    /** The pair clauses of u and w, when u < w; for lp/rp the four ids are
        looked up first, whatever the comparison's outcome. */
    method EmitAmoCell(f: Family, v: int, u: int, w: int)
      requires NodeDeclared(f, v, [u, w], m)
      modifies this`lines, this`clausesCount, this`trace
      ensures GrownFrom(old(trace), old(lines), old(clausesCount), AmoCell(f, v, u, w))
    {
      assert u in [u, w] && w in [u, w];
      ghost var t, l, k := trace, lines, clausesCount;
      EmitBlock(AmoLooks(f, v, u, w));
      ghost var t1, l1, k1 := trace, lines, clausesCount;
      EmitAmoPair(f, v, u, w);
      GrownTrans(m, !disableComments, t, l, k, AmoLooks(f, v, u, w), t1, l1, k1,
                 AmoPair(f, v, u, w), trace, lines, clausesCount);
    }

    method EmitAmoPair(f: Family, v: int, u: int, w: int)
      requires NodeDeclared(f, v, [u, w], m)
      modifies this`lines, this`clausesCount, this`trace
      ensures GrownFrom(old(trace), old(lines), old(clausesCount), AmoPair(f, v, u, w))
    {
      assert u in [u, w] && w in [u, w];
      if u < w {
        var c0 := [Neg(FamKey(f, 0, v, u)), Neg(FamKey(f, 0, v, w))];
        AddKeyedClause(c0);
        if Width(f) == 2 {
          ghost var t, l, k := trace, lines, clausesCount;
          var c1 := [Neg(FamKey(f, 1, v, u)), Neg(FamKey(f, 1, v, w))];
          AddKeyedClause(c1);
          GrownTrans(m, !disableComments, old(trace), old(lines), old(clausesCount), [Or(c0)], t, l, k,
                     [Or(c1)], trace, lines, clausesCount);
        }
      } else {
        GrownNothing(m, !disableComments, trace, lines, clausesCount);
      }
    }

    // ---- The other clause loops: one generic loop nest ----

    /** The loop nest b: for each v of its outer list, v's block and then
        its middle loop. */
    method EmitNest(sh: Shape)
      requires NestReady(sh, m)
      modifies this`lines, this`clausesCount, this`trace
      ensures GrownFrom(old(trace), old(lines), old(clausesCount), NestAll(sh))
    {
      ghost var t0, l0, k0 := trace, lines, clausesCount;
      NestStart(m, !disableComments, sh, ItemsBelow(0), t0, l0, k0);
      var vs := Outer(sh);
      var i := 0;
      while i < |vs|
        invariant 0 <= i <= |vs|
        invariant GrownFrom(t0, l0, k0, Nest(sh, ItemsBelow(i)))
      {
        var v := vs[i];
        assert v in vs;
        EmitNestStep(sh, i, v, t0, l0, k0);
        i := i + 1;
      }
    }

    method EmitNestStep(sh: Shape, i: nat, v: int, ghost t0: seq<Emit>, ghost l0: seq<Line>, ghost k0: int)
      requires i < |Outer(sh)| && v == Outer(sh)[i] && ItemReady(sh, v, m)
      requires GrownFrom(t0, l0, k0, Nest(sh, ItemsBelow(i)))
      modifies this`lines, this`clausesCount, this`trace
      ensures GrownFrom(t0, l0, k0, Nest(sh, ItemsBelow(i + 1)))
    {
      ghost var t, l, k := trace, lines, clausesCount;
      EmitNestItem(sh, v);
      ItemsGrown(m, !disableComments, sh, i, t0, l0, k0, t, l, k, trace, lines, clausesCount);
    }

    /** One outer iteration: the block of v, then the middle loop. */
    method EmitNestItem(sh: Shape, v: int)
      requires ItemReady(sh, v, m)
      modifies this`lines, this`clausesCount, this`trace
      ensures GrownFrom(old(trace), old(lines), old(clausesCount), Nest(sh, ItemAt(v)))
    {
      EmitBlock(Head(sh, v));
      ghost var t, l, k := trace, lines, clausesCount;
      EmitMids(sh, v);
      ItemAtGrown(m, !disableComments, sh, v, old(trace), old(lines), old(clausesCount), t, l, k, trace, lines, clausesCount);
    }

    method EmitMids(sh: Shape, v: int)
      requires ItemReady(sh, v, m)
      modifies this`lines, this`clausesCount, this`trace
      ensures GrownFrom(old(trace), old(lines), old(clausesCount), Nest(sh, MidsBelow(v, |Mid(sh, v)|)))
    {
      ghost var t0, l0, k0 := trace, lines, clausesCount;
      NestStart(m, !disableComments, sh, MidsBelow(v, 0), t0, l0, k0);
      var us := Mid(sh, v);
      var j := 0;
      while j < |us|
        invariant 0 <= j <= |us|
        invariant GrownFrom(t0, l0, k0, Nest(sh, MidsBelow(v, j)))
      {
        var u := us[j];
        assert u in us;
        EmitMidStep(sh, v, j, u, t0, l0, k0);
        j := j + 1;
      }
    }

    method EmitMidStep(sh: Shape, v: int, j: nat, u: int, ghost t0: seq<Emit>, ghost l0: seq<Line>, ghost k0: int)
      requires j < |Mid(sh, v)| && u == Mid(sh, v)[j] && MidReady(sh, v, u, m)
      requires GrownFrom(t0, l0, k0, Nest(sh, MidsBelow(v, j)))
      modifies this`lines, this`clausesCount, this`trace
      ensures GrownFrom(t0, l0, k0, Nest(sh, MidsBelow(v, j + 1)))
    {
      ghost var t, l, k := trace, lines, clausesCount;
      EmitMidItem(sh, v, u);
      MidsGrown(m, !disableComments, sh, v, j, t0, l0, k0, t, l, k, trace, lines, clausesCount);
    }

    /** One middle iteration: the block of (v, u), then both inner loops. */
    method EmitMidItem(sh: Shape, v: int, u: int)
      requires MidReady(sh, v, u, m)
      modifies this`lines, this`clausesCount, this`trace
      ensures GrownFrom(old(trace), old(lines), old(clausesCount), Nest(sh, MidAt(v, u)))
    {
      EmitBlock(Pre(sh, v, u));
      ghost var t1, l1, k1 := trace, lines, clausesCount;
      EmitCells(sh, v, u, false);
      ghost var t2, l2, k2 := trace, lines, clausesCount;
      EmitCells(sh, v, u, true);
      MidAtGrown(m, !disableComments, sh, v, u, old(trace), old(lines), old(clausesCount), t1, l1, k1, t2, l2, k2,
                 trace, lines, clausesCount);
    }

    /** An inner loop: the block of (v, u, w) for each w of its list. */
    method EmitCells(sh: Shape, v: int, u: int, second: bool)
      requires CellsReady(sh, v, u, second, m)
      modifies this`lines, this`clausesCount, this`trace
      ensures GrownFrom(old(trace), old(lines), old(clausesCount), Nest(sh, CellsBelow(v, u, second, |Inner(sh, v, u, second)|)))
    {
      ghost var t0, l0, k0 := trace, lines, clausesCount;
      NestStart(m, !disableComments, sh, CellsBelow(v, u, second, 0), t0, l0, k0);
      var ws := Inner(sh, v, u, second);
      var k := 0;
      while k < |ws|
        invariant 0 <= k <= |ws|
        invariant GrownFrom(t0, l0, k0, Nest(sh, CellsBelow(v, u, second, k)))
      {
        var w := ws[k];
        assert w in ws;
        EmitCellStep(sh, v, u, second, k, w, t0, l0, k0);
        k := k + 1;
      }
    }

    method EmitCellStep(sh: Shape, v: int, u: int, second: bool, k: nat, w: int,
                        ghost t0: seq<Emit>, ghost l0: seq<Line>, ghost k0: int)
      requires k < |Inner(sh, v, u, second)| && w == Inner(sh, v, u, second)[k]
      requires AllIn(Cell(sh, v, u, second, w), m)
      requires GrownFrom(t0, l0, k0, Nest(sh, CellsBelow(v, u, second, k)))
      modifies this`lines, this`clausesCount, this`trace
      ensures GrownFrom(t0, l0, k0, Nest(sh, CellsBelow(v, u, second, k + 1)))
    {
      ghost var t, l, c := trace, lines, clausesCount;
      EmitBlock(Cell(sh, v, u, second, w));
      CellsGrown(m, !disableComments, sh, v, u, second, k, t0, l0, k0, t, l, c, trace, lines, clausesCount);
    }

    /** A comment, then the nest b. */
    method EmitSection(sh: Shape)
      requires Valid() && NestReady(sh, m)
      modifies this`lines, this`clausesCount, this`trace
      ensures trace == old(trace) + Section(sh)
      ensures Valid()
    {
      ghost var t0, l0, k0 := trace, lines, clausesCount;
      CommentCnf();
      ghost var t1, l1, k1 := trace, lines, clausesCount;
      EmitNest(sh);
      GrownTrans(m, !disableComments, t0, l0, k0, [Remark], t1, l1, k1, NestAll(sh), trace, lines, clausesCount);
      CoherentGrown(m, !disableComments, countBase, t0, l0, k0, Section(sh), trace, lines, clausesCount);
    }

    // ---- Node families: one variable per node ----

    /** The declaring loop of a node family: createVar on the key of each
        node in its range, in ascending order. */
    method DeclareNodes(g: NodeFamily)
      requires Valid() && Below(m, NodeRank(g))
      modifies this`m
      ensures m == Extend(old(m), NodeDecl(cfg, g))
      ensures Valid() && NodesDeclared(cfg, g, m)
      ensures Below(m, NodeRank(g) + 1)
      ensures forall key :: key in old(m) ==> key in m
    {
      ghost var m0 := m;
      DeclareNodeRows(g);
      NodeDeclFacts(cfg, g, m0);
      CoherentExtend(m0, m, !disableComments, countBase, trace, lines, clausesCount);
    }

    method DeclareNodeRows(g: NodeFamily)
      requires cfg.n >= 2
      modifies this`m
      ensures m == Extend(old(m), NodeDecl(cfg, g))
    {
      ghost var m0 := m;
      var v := NodeLo(cfg, g);
      var hi := NodeHi(cfg, g);
      while v < hi
        invariant NodeLo(cfg, g) <= v <= hi
        invariant m == Extend(m0, NodeRows(cfg, g, v))
      {
        NodeRowsSnoc(cfg, g, v);
        ExtendSnoc(m0, NodeRows(cfg, g, v), NodeKey(g, v));
        var _ := CreateVar(NodeKey(g, v));
        v := v + 1;
      }
    }

    /** A node family's declaring loop, then its comment. */
    method DeclareNodeFamily(g: NodeFamily)
      requires Valid() && Below(m, NodeRank(g))
      modifies this`m, this`lines, this`trace
      ensures m == Extend(old(m), NodeDecl(cfg, g))
      ensures trace == old(trace) + [Remark]
      ensures Valid() && NodesDeclared(cfg, g, m)
      ensures Below(m, NodeRank(g) + 1)
      ensures forall key :: key in old(m) ==> key in m
    {
      DeclareNodes(g);
      CommentCnf();
    }

    // ---- The encoders of buildCNF ----

    /** addParentConstraints: every node but the root has exactly one parent. */
    method AddParentConstraints()
      requires Valid() && Below(m, FamRank(ParentF, 0))
      modifies this`m, this`lines, this`clausesCount, this`trace
      ensures m == Extend(old(m), ExactlyOneDecl(cfg, ParentF))
      ensures trace == old(trace) + ExactlyOnePhase(cfg, ParentF)
      ensures Valid() && FamilyDeclared(cfg, ParentF, m) && Below(m, FamRank(LeftRightF, 0))
      ensures forall key :: key in old(m) ==> key in m
    {
      var f := ParentF;
      AddExactlyOne(f, FamRank(LeftRightF, 0));
    }

    /** addLeftRightConstraints: every tree node has exactly one left and one right child. */
    method AddLeftRightConstraints()
      requires Valid() && Below(m, FamRank(LeftRightF, 0))
      modifies this`m, this`lines, this`clausesCount, this`trace
      ensures m == Extend(old(m), ExactlyOneDecl(cfg, LeftRightF))
      ensures trace == old(trace) + ExactlyOnePhase(cfg, LeftRightF)
      ensures Valid() && FamilyDeclared(cfg, LeftRightF, m) && Below(m, FamRank(ChF, 0))
      ensures forall key :: key in old(m) ==> key in m
    {
      var f := LeftRightF;
      AddExactlyOne(f, FamRank(ChF, 0));
    }

    /** addReticulationChildConstraints: every reticulation has exactly one child. */
    method AddReticulationChildConstraints()
      requires Valid() && Below(m, FamRank(ChF, 0))
      modifies this`m, this`lines, this`clausesCount, this`trace
      ensures m == Extend(old(m), ExactlyOneDecl(cfg, ChF))
      ensures trace == old(trace) + ExactlyOnePhase(cfg, ChF)
      ensures Valid() && FamilyDeclared(cfg, ChF, m) && Below(m, FamRank(LpRpF, 0))
      ensures forall key :: key in old(m) ==> key in m
    {
      var f := ChF;
      AddExactlyOne(f, FamRank(LpRpF, 0));
    }

    /** addReticulationParentConstraints: every reticulation has exactly one
        left and one right parent. */
    method AddReticulationParentConstraints()
      requires Valid() && Below(m, FamRank(LpRpF, 0))
      modifies this`m, this`lines, this`clausesCount, this`trace
      ensures m == Extend(old(m), ExactlyOneDecl(cfg, LpRpF))
      ensures trace == old(trace) + ExactlyOnePhase(cfg, LpRpF)
      ensures Valid() && FamilyDeclared(cfg, LpRpF, m) && Below(m, NodeRank(DirF(0)))
      ensures forall key :: key in old(m) ==> key in m
    {
      var f := LpRpF;
      AddExactlyOne(f, NodeRank(DirF(0)));
    }

    /** addChildParentConstraints: its three sections. It declares nothing,
        and its lookups are safe unless reticulations may be linked (ChildParentGap). */
    method AddChildParentConstraints()
      requires Valid() && GlobalsDeclared(cfg, m)
      requires !cfg.linkReticulations || cfg.k == 0
      modifies this`lines, this`clausesCount, this`trace
      ensures trace == old(trace) + Built(cfg, trees, StepOut(Wiring))
      ensures Valid()
    {
      ghost var t0 := trace;
      var a, b, c := ChildParentTree(cfg), ChildParentNet(cfg), ChildParentOrder(cfg);
      ChildParentTreeReady(cfg, m);
      EmitSection(a);
      ChildParentNetReady(cfg, m);
      EmitSection(b);
      EmitsAssoc(t0, Section(a), Section(b));
      ChildParentOrderReady(cfg, m);
      EmitSection(c);
      EmitsAssoc(t0, Section(a) + Section(b), Section(c));
      WiringOutput(cfg, trees);
    }

    /** addDirUsedConstraints: declares dir and used of tree t, then the dir-used section. */
    method AddDirUsedConstraints(t: int)
      requires Valid() && GlobalsDeclared(cfg, m) && Below(m, NodeRank(DirF(t)))
      modifies this`m, this`lines, this`clausesCount, this`trace
      ensures m == Extend(old(m), DirUsedDecl(cfg, t))
      ensures trace == old(trace) + DirUsedPhase(cfg, t)
      ensures Valid() && GlobalsDeclared(cfg, m)
      ensures NodesDeclared(cfg, DirF(t), m) && NodesDeclared(cfg, UsedF(t), m)
      ensures Below(m, NodeRank(RUsedF(t))) && Below(m, FamRank(UpF(t), 0))
      ensures forall key :: key in old(m) ==> key in m
    {
      ghost var m0, t0 := m, trace;
      DeclareDirUsed(t);
      BelowMono(m, NodeRank(RUsedF(t)), FamRank(UpF(t), 0));
      GlobalsGrow(cfg, m0, m);
      ConstrainDirUsed(t);
      EmitsAssoc(t0 + [Remark], [Remark], Section(DirUsedLoop(cfg, t)));
      EmitsAssoc(t0, [Remark], [Remark] + Section(DirUsedLoop(cfg, t)));
    }

    /** The dir-used section of addDirUsedConstraints. */
    method ConstrainDirUsed(t: int)
      requires Valid() && GlobalsDeclared(cfg, m)
      requires NodesDeclared(cfg, DirF(t), m) && NodesDeclared(cfg, UsedF(t), m)
      modifies this`lines, this`clausesCount, this`trace
      ensures trace == old(trace) + Section(DirUsedLoop(cfg, t))
      ensures Valid()
    {
      DirUsedReady(cfg, t, m);
      EmitSection(DirUsedLoop(cfg, t));
    }

    /** Declaring dir and then used of tree t is declaring DirUsedDecl. */
    static lemma DirUsedExtend(c: Config, t: int, m0: map<Key, int>, m1: map<Key, int>, m2: map<Key, int>)
      requires m1 == Extend(m0, NodeDecl(c, DirF(t))) && m2 == Extend(m1, NodeDecl(c, UsedF(t)))
      requires NodesDeclared(c, DirF(t), m1)
      requires (forall key :: key in m0 ==> key in m1) && (forall key :: key in m1 ==> key in m2)
      ensures m2 == Extend(m0, DirUsedDecl(c, t)) && NodesDeclared(c, DirF(t), m2)
      ensures forall key :: key in m0 ==> key in m2
    {
      ExtendAppend(m0, NodeDecl(c, DirF(t)), NodeDecl(c, UsedF(t)));
      NodesGrow(c, DirF(t), m1, m2);
    }

    /** The two declaring loops of addDirUsedConstraints, each with its comment. */
    method DeclareDirUsed(t: int)
      requires Valid() && Below(m, NodeRank(DirF(t)))
      modifies this`m, this`lines, this`trace
      ensures m == Extend(old(m), DirUsedDecl(cfg, t))
      ensures trace == old(trace) + [Remark] + [Remark]
      ensures Valid() && NodesDeclared(cfg, DirF(t), m) && NodesDeclared(cfg, UsedF(t), m)
      ensures Below(m, NodeRank(RUsedF(t)))
      ensures forall key :: key in old(m) ==> key in m
    {
      ghost var m0, t0 := m, trace;
      DeclareNodeFamily(DirF(t));
      ghost var m1 := m;
      DeclareNodeFamily(UsedF(t));
      DirUsedExtend(cfg, t, m0, m1, m);
      BelowMono(m, NodeRank(UsedF(t)) + 1, NodeRank(RUsedF(t)));
    }

    /** addRUsedConstraints: declares rused of tree t, then its two sections. */
    method AddRUsedConstraints(t: int)
      requires Valid() && GlobalsDeclared(cfg, m) && Below(m, NodeRank(RUsedF(t)))
      requires NodesDeclared(cfg, DirF(t), m) && NodesDeclared(cfg, UsedF(t), m)
      modifies this`m, this`lines, this`clausesCount, this`trace
      ensures m == Extend(old(m), NodeDecl(cfg, RUsedF(t)))
      ensures trace == old(trace) + RUsedPhase(cfg, t)
      ensures Valid() && GlobalsDeclared(cfg, m) && NodesDeclared(cfg, RUsedF(t), m)
      ensures NodesDeclared(cfg, DirF(t), m) && NodesDeclared(cfg, UsedF(t), m)
      ensures Below(m, FamRank(UpF(t), 0))
      ensures forall key :: key in old(m) ==> key in m
    {
      ghost var m0, t0 := m, trace;
      DeclareNodeFamily(RUsedF(t));
      BelowMono(m, NodeRank(RUsedF(t)) + 1, FamRank(UpF(t), 0));
      GlobalsGrow(cfg, m0, m);
      NodesGrow(cfg, DirF(t), m0, m);
      NodesGrow(cfg, UsedF(t), m0, m);
      ConstrainRUsed(t);
      var a, b := Section(RUsedChildren(cfg, t)), Section(RUsedParents(cfg, t));
      EmitsAssoc(t0, [Remark], a + b);
    }

    /** The two sections of addRUsedConstraints. */
    method ConstrainRUsed(t: int)
      requires Valid() && GlobalsDeclared(cfg, m)
      requires NodesDeclared(cfg, DirF(t), m) && NodesDeclared(cfg, UsedF(t), m) && NodesDeclared(cfg, RUsedF(t), m)
      modifies this`lines, this`clausesCount, this`trace
      ensures trace == old(trace) + (Section(RUsedChildren(cfg, t)) + Section(RUsedParents(cfg, t)))
      ensures Valid()
    {
      ghost var t0 := trace;
      RUsedChildrenReady(cfg, t, m);
      EmitSection(RUsedChildren(cfg, t));
      RUsedParentsReady(cfg, t, m);
      EmitSection(RUsedParents(cfg, t));
      EmitsAssoc(t0, Section(RUsedChildren(cfg, t)), Section(RUsedParents(cfg, t)));
    }

    /** addUpConstraints: the exactly-one choice of up for tree t, then its two sections. */
    method AddUpConstraints(t: int)
      requires Valid() && GlobalsDeclared(cfg, m) && Below(m, FamRank(UpF(t), 0))
      requires NodesDeclared(cfg, DirF(t), m) && NodesDeclared(cfg, UsedF(t), m)
      modifies this`m, this`lines, this`clausesCount, this`trace
      ensures m == Extend(old(m), ExactlyOneDecl(cfg, UpF(t)))
      ensures trace == old(trace) + UpPhase(cfg, t)
      ensures Valid() && FamilyDeclared(cfg, UpF(t), m)
      ensures Below(m, FamRank(XF(t), 0))
      ensures forall key :: key in old(m) ==> key in m
    {
      ghost var t0 := trace;
      DeclareUp(t);
      ConstrainUp(t);
      var a, b := Section(UpTree(cfg, t)), Section(UpNet(cfg, t));
      EmitsAssoc(t0, ExactlyOnePhase(cfg, UpF(t)), a + b);
    }

    /** The exactly-one choice of up for tree t, keeping every earlier family declared. */
    method DeclareUp(t: int)
      requires Valid() && GlobalsDeclared(cfg, m) && Below(m, FamRank(UpF(t), 0))
      requires NodesDeclared(cfg, DirF(t), m) && NodesDeclared(cfg, UsedF(t), m)
      modifies this`m, this`lines, this`clausesCount, this`trace
      ensures m == Extend(old(m), ExactlyOneDecl(cfg, UpF(t)))
      ensures trace == old(trace) + ExactlyOnePhase(cfg, UpF(t))
      ensures Valid() && FamilyDeclared(cfg, UpF(t), m) && GlobalsDeclared(cfg, m)
      ensures NodesDeclared(cfg, DirF(t), m) && NodesDeclared(cfg, UsedF(t), m)
      ensures Below(m, FamRank(XF(t), 0))
      ensures forall key :: key in old(m) ==> key in m
    {
      ghost var m0 := m;
      var f := UpF(t);
      AddExactlyOne(f, FamRank(XF(t), 0));
      GlobalsGrow(cfg, m0, m);
      NodesGrow(cfg, DirF(t), m0, m);
      NodesGrow(cfg, UsedF(t), m0, m);
    }

    /** The two sections of addUpConstraints that link up to parent and used. */
    method ConstrainUp(t: int)
      requires Valid() && GlobalsDeclared(cfg, m) && FamilyDeclared(cfg, UpF(t), m)
      requires NodesDeclared(cfg, DirF(t), m) && NodesDeclared(cfg, UsedF(t), m)
      modifies this`lines, this`clausesCount, this`trace
      ensures trace == old(trace) + (Section(UpTree(cfg, t)) + Section(UpNet(cfg, t)))
      ensures Valid()
    {
      ghost var t0 := trace;
      UpTreeReady(cfg, t, m);
      EmitSection(UpTree(cfg, t));
      UpNetReady(cfg, t, m);
      EmitSection(UpNet(cfg, t));
      EmitsAssoc(t0, Section(UpTree(cfg, t)), Section(UpNet(cfg, t)));
    }

    /** addXConstraints: the exactly-one choice of x for tree t, then its two sections. */
    method AddXConstraints(t: int)
      requires Valid() && Below(m, FamRank(XF(t), 0)) && NodesDeclared(cfg, UsedF(t), m)
      modifies this`m, this`lines, this`clausesCount, this`trace
      ensures m == Extend(old(m), ExactlyOneDecl(cfg, XF(t)))
      ensures trace == old(trace) + XPhase(cfg, t)
      ensures Valid() && FamilyDeclared(cfg, XF(t), m)
      ensures Below(m, NodeRank(DirF(t + 1)))
      ensures forall key :: key in old(m) ==> key in m
    {
      ghost var m0, t0 := m, trace;
      var f := XF(t);
      AddExactlyOne(f, NodeRank(DirF(t + 1)));
      NodesGrow(cfg, UsedF(t), m0, m);
      ConstrainX(t);
      var a, b := Section(XPointsTo(cfg, t)), Section(XUsed(cfg, t));
      EmitsAssoc(t0, ExactlyOnePhase(cfg, XF(t)), a + b);
    }

    /** The two sections of addXConstraints past its exactly-one choice. */
    method ConstrainX(t: int)
      requires Valid() && FamilyDeclared(cfg, XF(t), m) && NodesDeclared(cfg, UsedF(t), m)
      modifies this`lines, this`clausesCount, this`trace
      ensures trace == old(trace) + (Section(XPointsTo(cfg, t)) + Section(XUsed(cfg, t)))
      ensures Valid()
    {
      ghost var t0 := trace;
      XPointsToReady(cfg, t, m);
      EmitSection(XPointsTo(cfg, t));
      XUsedReady(cfg, t, m);
      EmitSection(XUsed(cfg, t));
      EmitsAssoc(t0, Section(XPointsTo(cfg, t)), Section(XUsed(cfg, t)));
    }

    /** addDataConstraints: the data section and the heap section of tree t. */
    method AddDataConstraints(t: int)
      requires 0 <= t < |trees| && WellFormed(trees[t], cfg.n)
      requires Valid() && FamilyDeclared(cfg, XF(t), m) && FamilyDeclared(cfg, UpF(t), m)
      modifies this`lines, this`clausesCount, this`trace
      ensures trace == old(trace) + DataPhase(cfg, t, trees[t])
      ensures Valid()
    {
      var tr := trees[t];
      ghost var t0 := trace;
      DataReady(cfg, t, tr, m);
      EmitSection(DataLoop(cfg, t, tr));
      HeapReady(cfg, t, tr, m);
      EmitSection(HeapLoop(cfg, t, tr));
      EmitsAssoc(t0, Section(DataLoop(cfg, t, tr)), Section(HeapLoop(cfg, t, tr)));
    }

    // ---- The tree loop of buildCNF ----

    /** The state after the dir, used and rused encoders of tree t, started
        from registry m0 and output t0. */
    ghost predicate TopologyDone(t: int, m0: map<Key, int>, t0: seq<Emit>)
      reads this
    {
      && m == Extend(m0, TopologyDecl(cfg, t)) && trace == t0 + TopologyPhase(cfg, t)
      && Valid() && GlobalsDeclared(cfg, m)
      && NodesDeclared(cfg, DirF(t), m) && NodesDeclared(cfg, UsedF(t), m)
      && (cfg.linkReticulations ==> NodesDeclared(cfg, RUsedF(t), m))
      && Below(m, FamRank(UpF(t), 0))
      && forall key :: key in m0 ==> key in m
    }

    /** The first two encoders of a tree: dir and used, then rused when
        reticulations may be linked. */
    method AddTreeTopology(t: int)
      requires Valid() && GlobalsDeclared(cfg, m) && Below(m, NodeRank(DirF(t)))
      modifies this`m, this`lines, this`clausesCount, this`trace
      ensures TopologyDone(t, old(m), old(trace))
    {
      ghost var m0, t0 := m, trace;
      AddDirUsedConstraints(t);
      if cfg.linkReticulations {
        AddRUsedConstraints(t);
        ExtendAppend(m0, DirUsedDecl(cfg, t), NodeDecl(cfg, RUsedF(t)));
        EmitsAssoc(t0, DirUsedPhase(cfg, t), RUsedPhase(cfg, t));
      }
    }

    /** The exactly-one encoders of a tree: up, then x. */
    method AddTreeChoices(t: int)
      requires Valid() && GlobalsDeclared(cfg, m) && Below(m, FamRank(UpF(t), 0))
      requires NodesDeclared(cfg, DirF(t), m) && NodesDeclared(cfg, UsedF(t), m)
      modifies this`m, this`lines, this`clausesCount, this`trace
      ensures m == Extend(old(m), ChoicesDecl(cfg, t))
      ensures trace == old(trace) + ChoicesPhase(cfg, t)
      ensures Valid() && FamilyDeclared(cfg, UpF(t), m) && FamilyDeclared(cfg, XF(t), m)
      ensures Below(m, NodeRank(DirF(t + 1)))
      ensures forall key :: key in old(m) ==> key in m
    {
      ghost var m0, t0 := m, trace;
      AddUpConstraints(t);
      ghost var m1 := m;
      NodesGrow(cfg, UsedF(t), m0, m);
      AddXConstraints(t);
      FamilyGrows(cfg, UpF(t), m1, m);
      ExtendAppend(m0, ExactlyOneDecl(cfg, UpF(t)), ExactlyOneDecl(cfg, XF(t)));
      EmitsAssoc(t0, UpPhase(cfg, t), XPhase(cfg, t));
    }

    /** One iteration of buildCNF's tree loop. */
    method AddTreeConstraints(t: int)
      requires 0 <= t < |trees| && WellFormed(trees[t], cfg.n)
      requires Valid() && GlobalsDeclared(cfg, m) && Below(m, NodeRank(DirF(t)))
      modifies this`m, this`lines, this`clausesCount, this`trace
      ensures m == Extend(old(m), TreeDecl(cfg, t))
      ensures trace == old(trace) + TreePhase(cfg, t, trees[t])
      ensures Valid() && GlobalsDeclared(cfg, m) && TreeFamiliesDeclared(cfg, t, m)
      ensures Below(m, NodeRank(DirF(t + 1)))
      ensures forall key :: key in old(m) ==> key in m
    {
      ghost var m0, t0 := m, trace;
      AddTreeTopology(t);
      ghost var m1 := m;
      AddTreeChoices(t);
      ExtendAppend(m0, TopologyDecl(cfg, t), ChoicesDecl(cfg, t));
      EmitsAssoc(t0, TopologyPhase(cfg, t), ChoicesPhase(cfg, t));
      AddDataConstraints(t);
      EmitsAssoc(t0, TopologyPhase(cfg, t) + ChoicesPhase(cfg, t), DataPhase(cfg, t, trees[t]));
      TopologyGrows(cfg, t, m1, m);
    }

    /** The state after the first i passes of buildCNF's tree loop, started
        from registry m0 and output t0. */
    ghost predicate TreesDone(i: nat, m0: map<Key, int>, t0: seq<Emit>)
      reads this
    {
      && i <= |trees|
      && m == Extend(m0, TreesDecl(cfg, i)) && trace == t0 + TreesPhase(cfg, trees, i)
      && Valid() && GlobalsDeclared(cfg, m) && TreesDeclared(cfg, i, m)
      && Below(m, NodeRank(DirF(i)))
      && forall key :: key in m0 ==> key in m
    }

    /** Before the tree loop, nothing has been done. */
    lemma TreesStart()
      requires Valid() && GlobalsDeclared(cfg, m) && Below(m, NodeRank(DirF(0)))
      ensures TreesDone(0, m, trace)
    {
      assert TreesPhase(cfg, trees, 0) == [];
      assert trace + [] == trace;
    }

    /** buildCNF's loop over the trees. */
    method AddAllTrees()
      requires AllWellFormed(trees, cfg.n)
      requires Valid() && GlobalsDeclared(cfg, m) && Below(m, NodeRank(DirF(0)))
      modifies this`m, this`lines, this`clausesCount, this`trace
      ensures TreesDone(|trees|, old(m), old(trace))
    {
      ghost var m0, t0 := m, trace;
      TreesStart();
      var i := 0;
      while i < |trees|
        invariant TreesDone(i, m0, t0)
      {
        AddTreeStep(i, m0, t0);
        i := i + 1;
      }
    }

    /** One pass of AddAllTrees. */
    method AddTreeStep(i: nat, ghost m0: map<Key, int>, ghost t0: seq<Emit>)
      requires i < |trees| && WellFormed(trees[i], cfg.n) && TreesDone(i, m0, t0)
      modifies this`m, this`lines, this`clausesCount, this`trace
      ensures TreesDone(i + 1, m0, t0)
    {
      ghost var mi := m;
      AddTreeConstraints(i);
      TreesGrow(cfg, i, mi, m);
      ExtendAppend(m0, TreesDecl(cfg, i), TreeDecl(cfg, i));
      EmitsAssoc(t0, TreesPhase(cfg, trees, i), TreePhase(cfg, i, trees[i]));
      TreesPhaseSnoc(cfg, trees, i);
    }

    // ---- The pair loops of buildCNF ----

    /** addEqualsNodesConstraints: its comment, the direct implications, then
        the subtree exclusions. */
    method AddEqualsNodesConstraints(t1: int, n1: int, t2: int, n2: int)
      requires 0 <= t1 < |trees| && 0 <= t2 < |trees| && SubtreesIn(trees[t1], cfg.n)
      requires cfg.n <= n1 < 2 * cfg.n - 1 && cfg.n <= n2 < 2 * cfg.n - 1
      requires FamilyDeclared(cfg, XF(t1), m) && FamilyDeclared(cfg, XF(t2), m)
      modifies this`lines, this`clausesCount, this`trace
      ensures GrownFrom(old(trace), old(lines), old(clausesCount), EqualsPhase(cfg, t1, trees[t1], n1, t2, trees[t2], n2))
    {
      var direct := EqualsDirect(cfg, t1, n1, t2, n2);
      var subtree := EqualsSubtree(cfg, t1, trees[t1], n1, t2, trees[t2], n2);
      ghost var t0, l0, k0 := trace, lines, clausesCount;
      CommentCnf();
      ghost var ta, la, ka := trace, lines, clausesCount;
      EqualsDirectReady(cfg, t1, n1, t2, n2, m);
      EmitNest(direct);
      GrownTrans(m, !disableComments, t0, l0, k0, [Remark], ta, la, ka, NestAll(direct), trace, lines, clausesCount);
      ghost var tb, lb, kb := trace, lines, clausesCount;
      EqualsSubtreeReady(cfg, t1, trees[t1], n1, t2, trees[t2], n2, m);
      EmitNest(subtree);
      GrownTrans(m, !disableComments, t0, l0, k0, [Remark] + NestAll(direct), tb, lb, kb, NestAll(subtree),
                 trace, lines, clausesCount);
    }

    /** addDifferentTaxaNodesConstraints: its comment and the exclusions. */
    method AddDifferentTaxaNodesConstraints(t1: int, n1: int, t2: int, n2: int)
      requires cfg.n <= n1 < 2 * cfg.n - 1 && cfg.n <= n2 < 2 * cfg.n - 1
      requires FamilyDeclared(cfg, XF(t1), m) && FamilyDeclared(cfg, XF(t2), m)
      modifies this`lines, this`clausesCount, this`trace
      ensures GrownFrom(old(trace), old(lines), old(clausesCount), DifferentPhase(cfg, t1, n1, t2, n2))
    {
      var sh := DifferentLoop(cfg, t1, n1, t2, n2);
      ghost var t0, l0, k0 := trace, lines, clausesCount;
      CommentCnf();
      ghost var ta, la, ka := trace, lines, clausesCount;
      DifferentReady(cfg, t1, n1, t2, n2, m);
      EmitNest(sh);
      GrownTrans(m, !disableComments, t0, l0, k0, [Remark], ta, la, ka, NestAll(sh), trace, lines, clausesCount);
    }

    /** The body of the inner node loop of addConstraintsForPairOfTrees: equal
        taxa give the equality constraints, disjoint taxa (for t1 < t2) the
        difference constraints. */
    method AddPairCell(t1: int, t2: int, n1: int, n2: int)
      requires 0 <= t1 < |trees| && 0 <= t2 < |trees| && SubtreesIn(trees[t1], cfg.n)
      requires cfg.n <= n1 < 2 * cfg.n - 1 && cfg.n <= n2 < 2 * cfg.n - 1
      requires FamilyDeclared(cfg, XF(t1), m) && FamilyDeclared(cfg, XF(t2), m)
      modifies this`lines, this`clausesCount, this`trace
      ensures GrownFrom(old(trace), old(lines), old(clausesCount), PairNodes(cfg, t1, trees[t1], t2, trees[t2], CellAt(n1, n2)))
    {
      var taxa1, taxa2 := At(trees[t1].taxa, n1), At(trees[t2].taxa, n2);
      ghost var t0, l0, k0 := trace, lines, clausesCount;
      if SameTaxa(taxa1, taxa2) {
        AddEqualsNodesConstraints(t1, n1, t2, n2);
      } else {
        GrownNothing(m, !disableComments, t0, l0, k0);
      }
      ghost var ta, la, ka := trace, lines, clausesCount;
      if Disjoint(taxa1, taxa2) && t1 < t2 {
        AddDifferentTaxaNodesConstraints(t1, n1, t2, n2);
      } else {
        GrownNothing(m, !disableComments, ta, la, ka);
      }
      GrownTrans(m, !disableComments, t0, l0, k0, PairNodes(cfg, t1, trees[t1], t2, trees[t2], EqualsAt(n1, n2)), ta, la, ka,
                 PairNodes(cfg, t1, trees[t1], t2, trees[t2], DifferentAt(n1, n2)), trace, lines, clausesCount);
    }

    /** The state after the inner node loop of addConstraintsForPairOfTrees
        has run below node2 j, from output (t0, l0, k0). */
    ghost predicate PairRowDone(t1: int, t2: int, n1: int, j: int, t0: seq<Emit>, l0: seq<Line>, k0: int)
      requires 0 <= t1 < |trees| && 0 <= t2 < |trees|
      reads this
    {
      cfg.n <= j <= 2 * cfg.n - 2 && GrownFrom(t0, l0, k0, PairNodes(cfg, t1, trees[t1], t2, trees[t2], RowBelow(n1, j)))
    }

    /** The inner node loop of addConstraintsForPairOfTrees, over node2. */
    method AddPairRow(t1: int, t2: int, n1: int)
      requires 0 <= t1 < |trees| && 0 <= t2 < |trees| && SubtreesIn(trees[t1], cfg.n)
      requires cfg.n <= n1 < 2 * cfg.n - 1
      requires FamilyDeclared(cfg, XF(t1), m) && FamilyDeclared(cfg, XF(t2), m)
      modifies this`lines, this`clausesCount, this`trace
      ensures PairRowDone(t1, t2, n1, 2 * cfg.n - 2, old(trace), old(lines), old(clausesCount))
    {
      ghost var t0, l0, k0 := trace, lines, clausesCount;
      GrownNothing(m, !disableComments, t0, l0, k0);
      var node2 := cfg.n;
      while node2 < 2 * cfg.n - 2
        invariant PairRowDone(t1, t2, n1, node2, t0, l0, k0)
      {
        AddPairCellStep(t1, t2, n1, node2, t0, l0, k0);
        node2 := node2 + 1;
      }
    }

    method AddPairCellStep(t1: int, t2: int, n1: int, n2: int, ghost t0: seq<Emit>, ghost l0: seq<Line>, ghost k0: int)
      requires 0 <= t1 < |trees| && 0 <= t2 < |trees| && SubtreesIn(trees[t1], cfg.n)
      requires cfg.n <= n1 < 2 * cfg.n - 1 && n2 < 2 * cfg.n - 2
      requires FamilyDeclared(cfg, XF(t1), m) && FamilyDeclared(cfg, XF(t2), m)
      requires PairRowDone(t1, t2, n1, n2, t0, l0, k0)
      modifies this`lines, this`clausesCount, this`trace
      ensures PairRowDone(t1, t2, n1, n2 + 1, t0, l0, k0)
    {
      ghost var t, l, k := trace, lines, clausesCount;
      AddPairCell(t1, t2, n1, n2);
      GrownTrans(m, !disableComments, t0, l0, k0, PairNodes(cfg, t1, trees[t1], t2, trees[t2], RowBelow(n1, n2)), t, l, k,
                 PairNodes(cfg, t1, trees[t1], t2, trees[t2], CellAt(n1, n2)), trace, lines, clausesCount);
    }

    /** The state after the outer node loop of addConstraintsForPairOfTrees
        has run below node1 i, from output (t0, l0, k0). */
    ghost predicate PairRowsDone(t1: int, t2: int, i: int, t0: seq<Emit>, l0: seq<Line>, k0: int)
      requires 0 <= t1 < |trees| && 0 <= t2 < |trees|
      reads this
    {
      cfg.n <= i <= 2 * cfg.n - 2 && GrownFrom(t0, l0, k0, PairNodes(cfg, t1, trees[t1], t2, trees[t2], RowsBelow(i)))
    }

    /** addConstraintsForPairOfTrees: the node loops, then the summary comment. */
    method AddConstraintsForPairOfTrees(t1: int, t2: int)
      requires cfg.n >= 2 && 0 <= t1 < |trees| && 0 <= t2 < |trees| && SubtreesIn(trees[t1], cfg.n)
      requires FamilyDeclared(cfg, XF(t1), m) && FamilyDeclared(cfg, XF(t2), m)
      modifies this`lines, this`clausesCount, this`trace
      ensures GrownFrom(old(trace), old(lines), old(clausesCount), PairPhase(cfg, t1, trees[t1], t2, trees[t2]))
    {
      ghost var t0, l0, k0 := trace, lines, clausesCount;
      AddPairRows(t1, t2);
      ghost var t, l, k := trace, lines, clausesCount;
      CommentCnf();
      GrownTrans(m, !disableComments, t0, l0, k0, PairNodes(cfg, t1, trees[t1], t2, trees[t2], RowsBelow(2 * cfg.n - 2)), t, l, k,
                 [Remark], trace, lines, clausesCount);
    }

    /** The two node loops of addConstraintsForPairOfTrees, over node1 and node2. */
    method AddPairRows(t1: int, t2: int)
      requires cfg.n >= 2 && 0 <= t1 < |trees| && 0 <= t2 < |trees| && SubtreesIn(trees[t1], cfg.n)
      requires FamilyDeclared(cfg, XF(t1), m) && FamilyDeclared(cfg, XF(t2), m)
      modifies this`lines, this`clausesCount, this`trace
      ensures PairRowsDone(t1, t2, 2 * cfg.n - 2, old(trace), old(lines), old(clausesCount))
    {
      ghost var t0, l0, k0 := trace, lines, clausesCount;
      GrownNothing(m, !disableComments, t0, l0, k0);
      var node1 := cfg.n;
      while node1 < 2 * cfg.n - 2
        invariant PairRowsDone(t1, t2, node1, t0, l0, k0)
      {
        AddPairRowStep(t1, t2, node1, t0, l0, k0);
        node1 := node1 + 1;
      }
    }

    method AddPairRowStep(t1: int, t2: int, n1: int, ghost t0: seq<Emit>, ghost l0: seq<Line>, ghost k0: int)
      requires 0 <= t1 < |trees| && 0 <= t2 < |trees| && SubtreesIn(trees[t1], cfg.n)
      requires n1 < 2 * cfg.n - 2
      requires FamilyDeclared(cfg, XF(t1), m) && FamilyDeclared(cfg, XF(t2), m)
      requires PairRowsDone(t1, t2, n1, t0, l0, k0)
      modifies this`lines, this`clausesCount, this`trace
      ensures PairRowsDone(t1, t2, n1 + 1, t0, l0, k0)
    {
      ghost var t, l, k := trace, lines, clausesCount;
      AddPairRow(t1, t2, n1);
      GrownTrans(m, !disableComments, t0, l0, k0, PairNodes(cfg, t1, trees[t1], t2, trees[t2], RowsBelow(n1)), t, l, k,
                 PairNodes(cfg, t1, trees[t1], t2, trees[t2], RowBelow(n1, 2 * cfg.n - 2)), trace, lines, clausesCount);
    }

    /** What the pair loops need: every tree's subtree lists name nodes of
        the tree and every x family is declared. */
    ghost predicate PairsReady()
      reads this
    {
      cfg.n >= 2 && forall t :: 0 <= t < |trees| ==> SubtreesIn(trees[t], cfg.n) && FamilyDeclared(cfg, XF(t), m)
    }

    /** The state after buildCNF's inner tree loop has run below otherTree j
        for treeNumber t1, from output (t0, l0, k0). */
    ghost predicate PairsRowDone(t1: nat, j: nat, t0: seq<Emit>, l0: seq<Line>, k0: int)
      requires t1 < |trees|
      reads this
    {
      j <= |trees| && GrownFrom(t0, l0, k0, PairTrees(cfg, trees, OthersBelow(t1, j)))
    }

    /** The inner tree loop of buildCNF's pair loops, over otherTree. */
    method AddPairsRow(t1: nat)
      requires t1 < |trees| && PairsReady()
      modifies this`lines, this`clausesCount, this`trace
      ensures PairsRowDone(t1, |trees|, old(trace), old(lines), old(clausesCount))
    {
      ghost var t0, l0, k0 := trace, lines, clausesCount;
      GrownNothing(m, !disableComments, t0, l0, k0);
      var other := 0;
      while other < |trees|
        invariant PairsRowDone(t1, other, t0, l0, k0)
      {
        AddPairsStep(t1, other, t0, l0, k0);
        other := other + 1;
      }
    }

    method AddPairsStep(t1: nat, other: nat, ghost t0: seq<Emit>, ghost l0: seq<Line>, ghost k0: int)
      requires t1 < |trees| && other < |trees| && PairsReady()
      requires PairsRowDone(t1, other, t0, l0, k0)
      modifies this`lines, this`clausesCount, this`trace
      ensures PairsRowDone(t1, other + 1, t0, l0, k0)
    {
      ghost var t, l, k := trace, lines, clausesCount;
      if t1 != other {
        AddConstraintsForPairOfTrees(t1, other);
        assert PairTrees(cfg, trees, PairIf(t1, other)) == PairPhase(cfg, t1, trees[t1], other, trees[other]);
      } else {
        GrownNothing(m, !disableComments, t, l, k);
        assert PairTrees(cfg, trees, PairIf(t1, other)) == [];
      }
      GrownTrans(m, !disableComments, t0, l0, k0, PairTrees(cfg, trees, OthersBelow(t1, other)), t, l, k,
                 PairTrees(cfg, trees, PairIf(t1, other)), trace, lines, clausesCount);
    }

    /** The state after buildCNF's pair loops have run below treeNumber i,
        from output (t0, l0, k0). */
    ghost predicate PairsDone(i: nat, t0: seq<Emit>, l0: seq<Line>, k0: int)
      reads this
    {
      i <= |trees| && GrownFrom(t0, l0, k0, PairTrees(cfg, trees, TreesBelow(i)))
    }

    /** buildCNF's pair loops, over treeNumber and otherTree. */
    method AddAllPairs()
      requires PairsReady()
      modifies this`lines, this`clausesCount, this`trace
      ensures PairsDone(|trees|, old(trace), old(lines), old(clausesCount))
    {
      ghost var t0, l0, k0 := trace, lines, clausesCount;
      GrownNothing(m, !disableComments, t0, l0, k0);
      var i := 0;
      while i < |trees|
        invariant PairsDone(i, t0, l0, k0)
      {
        AddPairsTreeStep(i, t0, l0, k0);
        i := i + 1;
      }
    }

    method AddPairsTreeStep(i: nat, ghost t0: seq<Emit>, ghost l0: seq<Line>, ghost k0: int)
      requires i < |trees| && PairsReady()
      requires PairsDone(i, t0, l0, k0)
      modifies this`lines, this`clausesCount, this`trace
      ensures PairsDone(i + 1, t0, l0, k0)
    {
      ghost var t, l, k := trace, lines, clausesCount;
      AddPairsRow(i);
      GrownTrans(m, !disableComments, t0, l0, k0, PairTrees(cfg, trees, TreesBelow(i)), t, l, k,
                 PairTrees(cfg, trees, OthersBelow(i, |trees|)), trace, lines, clausesCount);
    }

    // ---- buildCNF ----

    /** addParentConstraints, then addLeftRightConstraints. */
    method AddTreeChoicesGlobal()
      requires Valid() && Below(m, FamRank(ParentF, 0))
      modifies this`m, this`lines, this`clausesCount, this`trace
      ensures m == Extend(old(m), ExactlyOneDecl(cfg, ParentF) + ExactlyOneDecl(cfg, LeftRightF))
      ensures trace == old(trace) + (ExactlyOnePhase(cfg, ParentF) + ExactlyOnePhase(cfg, LeftRightF))
      ensures Valid() && FamilyDeclared(cfg, ParentF, m) && FamilyDeclared(cfg, LeftRightF, m)
      ensures Below(m, FamRank(ChF, 0))
      ensures forall key :: key in old(m) ==> key in m
    {
      ghost var m0, t0 := m, trace;
      AddParentConstraints();
      ghost var m1 := m;
      AddLeftRightConstraints();
      ExtendAppend(m0, ExactlyOneDecl(cfg, ParentF), ExactlyOneDecl(cfg, LeftRightF));
      FamilyGrows(cfg, ParentF, m1, m);
      EmitsAssoc(t0, ExactlyOnePhase(cfg, ParentF), ExactlyOnePhase(cfg, LeftRightF));
    }

    /** addReticulationChildConstraints, then addReticulationParentConstraints. */
    method AddNetChoicesGlobal()
      requires Valid() && Below(m, FamRank(ChF, 0))
      modifies this`m, this`lines, this`clausesCount, this`trace
      ensures m == Extend(old(m), ExactlyOneDecl(cfg, ChF) + ExactlyOneDecl(cfg, LpRpF))
      ensures trace == old(trace) + (ExactlyOnePhase(cfg, ChF) + ExactlyOnePhase(cfg, LpRpF))
      ensures Valid() && FamilyDeclared(cfg, ChF, m) && FamilyDeclared(cfg, LpRpF, m)
      ensures Below(m, NodeRank(DirF(0)))
      ensures forall key :: key in old(m) ==> key in m
    {
      ghost var m0, t0 := m, trace;
      AddReticulationChildConstraints();
      ghost var m1 := m;
      AddReticulationParentConstraints();
      ExtendAppend(m0, ExactlyOneDecl(cfg, ChF), ExactlyOneDecl(cfg, LpRpF));
      FamilyGrows(cfg, ChF, m1, m);
      EmitsAssoc(t0, ExactlyOnePhase(cfg, ChF), ExactlyOnePhase(cfg, LpRpF));
    }

    /** The four exactly-one encoders of buildCNF, on an empty registry. */
    method AddGlobalChoices()
      requires Valid() && m == map[]
      modifies this`m, this`lines, this`clausesCount, this`trace
      ensures m == Extend(map[], GlobalsDecl(cfg))
      ensures trace == old(trace) + Built(cfg, trees, StepOut(Globals))
      ensures Valid() && GlobalsDeclared(cfg, m) && Below(m, NodeRank(DirF(0)))
    {
      ghost var t0 := trace;
      AddTreeChoicesGlobal();
      ghost var m1 := m;
      AddNetChoicesGlobal();
      ExtendAppend(map[], ExactlyOneDecl(cfg, ParentF) + ExactlyOneDecl(cfg, LeftRightF),
                   ExactlyOneDecl(cfg, ChF) + ExactlyOneDecl(cfg, LpRpF));
      FamilyGrows(cfg, ParentF, m1, m);
      FamilyGrows(cfg, LeftRightF, m1, m);
      EmitsAssoc(t0, ExactlyOnePhase(cfg, ParentF) + ExactlyOnePhase(cfg, LeftRightF),
                 ExactlyOnePhase(cfg, ChF) + ExactlyOnePhase(cfg, LpRpF));
      GlobalsOutput(cfg, trees);
    }

    /** buildCNF up to its tree loop: the opening comment, the four
        exactly-one encoders and the child-parent sections, on an empty
        registry and an empty output. */
    method BuildGlobals()
      requires cfg.n >= 2 && (!cfg.linkReticulations || cfg.k == 0)
      requires m == map[] && trace == [] && lines == [] && clausesCount == countBase
      modifies this`m, this`lines, this`clausesCount, this`trace
      ensures m == Extend(map[], GlobalsDecl(cfg))
      ensures trace == Built(cfg, trees, UpTo(Wiring))
      ensures Valid() && GlobalsDeclared(cfg, m) && Below(m, NodeRank(DirF(0)))
    {
      OpenGlobals();
      AddChildParentConstraints();
      WiringAfterGlobals(cfg, trees);
    }

    /** buildCNF's opening comment and its four exactly-one encoders. */
    method OpenGlobals()
      requires cfg.n >= 2
      requires m == map[] && trace == [] && lines == [] && clausesCount == countBase
      modifies this`m, this`lines, this`clausesCount, this`trace
      ensures m == Extend(map[], GlobalsDecl(cfg))
      ensures trace == Built(cfg, trees, UpTo(Globals))
      ensures Valid() && GlobalsDeclared(cfg, m) && Below(m, NodeRank(DirF(0)))
    {
      CommentCnf();
      assert trace == [Remark];
      OpeningOutput(cfg, trees);
      AddGlobalChoices();
    }

    /** After the tree loop, the pair loops may run. */
    lemma PairsReadyAfterTrees()
      requires AllWellFormed(trees, cfg.n)
      requires cfg.n >= 2 && TreesDeclared(cfg, |trees|, m)
      ensures PairsReady()
    {
      forall t | 0 <= t < |trees|
        ensures SubtreesIn(trees[t], cfg.n) && FamilyDeclared(cfg, XF(t), m)
      {
        assert WellFormed(trees[t], cfg.n);
        assert TreeFamiliesDeclared(cfg, t, m);
      }
    }

    /** buildCNF up to its pair loops, on an empty registry and an empty output. */
    method BuildTrees()
      requires AllWellFormed(trees, cfg.n)
      requires cfg.n >= 2 && (!cfg.linkReticulations || cfg.k == 0)
      requires m == map[] && trace == [] && lines == [] && clausesCount == countBase
      modifies this`m, this`lines, this`clausesCount, this`trace
      ensures m == Extend(map[], BuildDecl(cfg, |trees|))
      ensures trace == Built(cfg, trees, UpTo(TreeLoop))
      ensures Valid() && TreesDeclared(cfg, |trees|, m)
    {
      BuildGlobals();
      AddAllTrees();
      ExtendAppend(map[], GlobalsDecl(cfg), TreesDecl(cfg, |trees|));
      BuiltThroughTrees(cfg, trees);
    }

    /** buildCNF's pair loops, after its tree loop: they complete BuildTrace. */
    method BuildPairs()
      requires AllWellFormed(trees, cfg.n)
      requires trace == Built(cfg, trees, UpTo(TreeLoop))
      requires Valid() && TreesDeclared(cfg, |trees|, m)
      modifies this`lines, this`clausesCount, this`trace
      ensures trace == BuildTrace(cfg, trees)
      ensures Valid()
    {
      ghost var t0, l0, k0 := trace, lines, clausesCount;
      PairsReadyAfterTrees();
      AddAllPairs();
      CoherentGrown(m, !disableComments, countBase, t0, l0, k0, PairTrees(cfg, trees, TreesBelow(|trees|)),
                    trace, lines, clausesCount);
      BuiltThroughPairs(cfg, trees);
    }

    /** The body of buildCNF on an empty map: the text starts afresh while
        the clause counter keeps counting from its current value. */
    method EncodeAll()
      requires AllWellFormed(trees, cfg.n)
      requires cfg.n >= 2 && (!cfg.linkReticulations || cfg.k == 0) && m == map[]
      modifies this`m, this`lines, this`clausesCount, this`trace, this`countBase
      ensures m == Extend(map[], BuildDecl(cfg, |trees|))
      ensures trace == BuildTrace(cfg, trees)
      ensures countBase == old(clausesCount) && Valid()
    {
      countBase := clausesCount;
      trace := [];
      lines := [];
      BuildTrees();
      BuildPairs();
    }

    /** buildCNF: fails on a non-empty translation map, changing nothing.
        Otherwise it declares BuildDecl's keys, in order, from the empty
        map, emits BuildTrace, and returns the header "p cnf |m| count"
        before the text, where count is the counter's value before the call
        plus the clauses emitted. */
    method BuildCnf() returns (r: Result<string, string>)
      requires AllWellFormed(trees, cfg.n)
      requires cfg.n >= 2 && (!cfg.linkReticulations || cfg.k == 0)
      modifies this`m, this`lines, this`clausesCount, this`trace, this`countBase
      ensures |old(m)| > 0 <==> r.Failure?
      ensures r.Failure? ==> m == old(m) && lines == old(lines) && clausesCount == old(clausesCount)
      ensures r.Success? ==> && m == Extend(map[], BuildDecl(cfg, |trees|))
                             && trace == BuildTrace(cfg, trees)
                             && lines == Tr(m, !disableComments, trace)
                             && clausesCount == old(clausesCount) + OrCount(trace)
                             && r.value == Document(|m|, clausesCount, lines)
                             && Valid()
    {
      if |m| > 0 {
        return Failure("Given translation map (variable -> int) is not empty");
      }
      EncodeAll();
      r := Success(Document(|m|, clausesCount, lines));
    }
  }
}
