/**
 * What the exactly-one encoding of a variable family means.
 *
 * For each node v of its range, a family's at-least-one clause of slot s
 * names key(v, u) for every candidate u, and its at-most-one loop adds
 * (-key(v, u) | -key(v, w)) for every pair u < w. Under an assignment of
 * the keys, those clauses hold exactly when one candidate per slot is
 * chosen. The at-most-one loop adds |L| * (|L| - 1) / 2 clauses per slot
 * for a list L.
 */
module Choice {
  import opened Topology
  import opened Registry
  import opened Formula
  import opened Families
  import opened Phases

  /** Candidate u is chosen for node v in slot s. */
  predicate Chosen(a: Key -> bool, f: Family, s: int, v: int, u: int) {
    a(FamKey(f, s, v, u))
  }

  predicate SomeChosen(a: Key -> bool, f: Family, s: int, v: int, cs: seq<int>) {
    exists i :: 0 <= i < |cs| && Chosen(a, f, s, v, cs[i])
  }

  /** Exactly one candidate of cs is chosen for node v in slot s. */
  predicate ExactlyOne(a: Key -> bool, f: Family, s: int, v: int, cs: seq<int>) {
    exists i :: 0 <= i < |cs| && Chosen(a, f, s, v, cs[i]) &&
      forall j :: 0 <= j < |cs| && Chosen(a, f, s, v, cs[j]) ==> j == i
  }

  /** Every slot of node v has exactly one of its candidates chosen. */
  predicate NodeChoice(a: Key -> bool, f: Family, v: int, cs: seq<int>) {
    forall s :: 0 <= s < Width(f) ==> ExactlyOne(a, f, s, v, cs)
  }

  /** Candidates u < w are not both chosen in any slot. */
  predicate PairOk(a: Key -> bool, f: Family, v: int, u: int, w: int) {
    u < w ==> forall s :: 0 <= s < Width(f) ==> !(Chosen(a, f, s, v, u) && Chosen(a, f, s, v, w))
  }

  /** Candidate u and each of the first j candidates of ws are not both
      chosen, where u is the lower. */
  predicate PairsOkBelow(a: Key -> bool, f: Family, v: int, u: int, ws: seq<int>, j: nat)
    requires j <= |ws|
  {
    forall q :: 0 <= q < j ==> PairOk(a, f, v, u, ws[q])
  }

  /** The same for each of the first i candidates of cs against all of cs. */
  predicate RowOkBelow(a: Key -> bool, f: Family, v: int, cs: seq<int>, i: nat)
    requires i <= |cs|
  {
    forall p :: 0 <= p < i ==> PairsOkBelow(a, f, v, cs[p], cs, |cs|)
  }

  /** No two candidates of cs are both chosen in any slot. */
  predicate RowPairsOk(a: Key -> bool, f: Family, v: int, cs: seq<int>) {
    RowOkBelow(a, f, v, cs, |cs|)
  }

  /** Unless skipped, node v has some candidate chosen in every slot. */
  predicate RowSome(a: Key -> bool, c: Config, f: Family, v: int, cs: seq<int>) {
    !AloSkip(c, f, v) ==> AllSome(a, f, v, cs)
  }

  /** The first i rows of the table, node lo + p holding candidates tbl[p],
      have some candidate chosen per slot (unless skipped) ... */
  predicate SomeRowsBelow(a: Key -> bool, c: Config, f: Family, lo: int, tbl: seq<seq<int>>, i: nat)
    requires i <= |tbl|
  {
    forall p :: 0 <= p < i ==> RowSome(a, c, f, lo + p, tbl[p])
  }

  /** ... and no two candidates chosen in the same slot. */
  predicate PairRowsBelow(a: Key -> bool, f: Family, lo: int, tbl: seq<seq<int>>, i: nat)
    requires i <= |tbl|
  {
    forall p :: 0 <= p < i ==> RowPairsOk(a, f, lo + p, tbl[p])
  }

  // ---- At least one ----

  lemma AloHolds(a: Key -> bool, f: Family, s: int, v: int, cs: seq<int>)
    ensures Holds(a, [Or(AloLits(f, s, v, cs))]) <==> SomeChosen(a, f, s, v, cs)
  {
    var ls := AloLits(f, s, v, cs);
    assert [Or(ls)][0] == Or(ls);
    if SomeChosen(a, f, s, v, cs) {
      var i :| 0 <= i < |cs| && Chosen(a, f, s, v, cs[i]);
      assert LitHolds(a, ls[i]);
    }
    if Holds(a, [Or(ls)]) {
      var j :| 0 <= j < |ls| && LitHolds(a, ls[j]);
      assert Chosen(a, f, s, v, cs[j]);
    }
  }

  lemma AloClausesHold(a: Key -> bool, f: Family, v: int, cs: seq<int>)
    ensures Holds(a, AloClauses(f, v, cs)) <==> AllSome(a, f, v, cs)
  {
    AloHolds(a, f, 0, v, cs);
    AloHolds(a, f, 1, v, cs);
    SatAppend(a, [Or(AloLits(f, 0, v, cs))], if Width(f) == 2 then [Or(AloLits(f, 1, v, cs))] else []);
    assert Holds(a, []);
  }

  // ---- At most one ----

  lemma AmoCellHolds(a: Key -> bool, f: Family, v: int, u: int, w: int)
    ensures Holds(a, AmoCell(f, v, u, w)) <==> PairOk(a, f, v, u, w)
  {
    SatAppend(a, AmoLooks(f, v, u, w), AmoPair(f, v, u, w));
    assert Holds(a, AmoLooks(f, v, u, w));
    if u < w {
      var c0 := Or([Neg(FamKey(f, 0, v, u)), Neg(FamKey(f, 0, v, w))]);
      var c1 := Or([Neg(FamKey(f, 1, v, u)), Neg(FamKey(f, 1, v, w))]);
      assert EmitHolds(a, c0) <==> !(Chosen(a, f, 0, v, u) && Chosen(a, f, 0, v, w)) by {
        assert c0.lits[0] == Neg(FamKey(f, 0, v, u)) && c0.lits[1] == Neg(FamKey(f, 0, v, w));
      }
      assert EmitHolds(a, c1) <==> !(Chosen(a, f, 1, v, u) && Chosen(a, f, 1, v, w)) by {
        assert c1.lits[0] == Neg(FamKey(f, 1, v, u)) && c1.lits[1] == Neg(FamKey(f, 1, v, w));
      }
      SatAppend(a, [c0], if Width(f) == 2 then [c1] else []);
      assert [c0][0] == c0 && [c1][0] == c1;
    } else {
      assert Holds(a, []);
    }
  }

  lemma PairsOkSnoc(a: Key -> bool, f: Family, v: int, u: int, ws: seq<int>, j: nat)
    requires 0 < j <= |ws|
    ensures PairsOkBelow(a, f, v, u, ws, j) <==> PairsOkBelow(a, f, v, u, ws, j - 1) && PairOk(a, f, v, u, ws[j - 1])
  {
  }

  lemma {:induction false} AmoPairsHold(a: Key -> bool, f: Family, v: int, u: int, ws: seq<int>, j: nat)
    requires j <= |ws|
    ensures Holds(a, Amo(f, AmoPairsBelow(v, u, ws, j))) <==> PairsOkBelow(a, f, v, u, ws, j)
    decreases j
  {
    if j == 0 {
      assert Holds(a, []);
    } else {
      var x, y := Amo(f, AmoPairsBelow(v, u, ws, j - 1)), Amo(f, AmoAt(v, u, ws[j - 1]));
      assert Amo(f, AmoPairsBelow(v, u, ws, j)) == x + y;
      assert Holds(a, x + y) <==> Holds(a, x) && Holds(a, y) by {
        SatAppend(a, x, y);
      }
      assert Holds(a, y) <==> PairOk(a, f, v, u, ws[j - 1]) by {
        AmoAtCell(f, v, u, ws[j - 1]);
        AmoCellHolds(a, f, v, u, ws[j - 1]);
      }
      assert Holds(a, x) <==> PairsOkBelow(a, f, v, u, ws, j - 1) by {
        AmoPairsHold(a, f, v, u, ws, j - 1);
      }
      PairsOkSnoc(a, f, v, u, ws, j);
    }
  }

  lemma RowOkSnoc(a: Key -> bool, f: Family, v: int, cs: seq<int>, i: nat)
    requires 0 < i <= |cs|
    ensures RowOkBelow(a, f, v, cs, i) <==> RowOkBelow(a, f, v, cs, i - 1) && PairsOkBelow(a, f, v, cs[i - 1], cs, |cs|)
  {
  }

  lemma {:induction false} AmoRowHolds(a: Key -> bool, f: Family, v: int, cs: seq<int>, i: nat)
    requires i <= |cs|
    ensures Holds(a, Amo(f, AmoRowBelow(v, cs, i))) <==> RowOkBelow(a, f, v, cs, i)
    decreases i
  {
    if i == 0 {
      assert Holds(a, []);
    } else {
      var x, y := Amo(f, AmoRowBelow(v, cs, i - 1)), Amo(f, AmoPairsBelow(v, cs[i - 1], cs, |cs|));
      assert Amo(f, AmoRowBelow(v, cs, i)) == x + y;
      assert Holds(a, x + y) <==> Holds(a, x) && Holds(a, y) by {
        SatAppend(a, x, y);
      }
      assert Holds(a, y) <==> PairsOkBelow(a, f, v, cs[i - 1], cs, |cs|) by {
        AmoPairsHold(a, f, v, cs[i - 1], cs, |cs|);
      }
      assert Holds(a, x) <==> RowOkBelow(a, f, v, cs, i - 1) by {
        AmoRowHolds(a, f, v, cs, i - 1);
      }
      RowOkSnoc(a, f, v, cs, i);
    }
  }

  /** At most one candidate of cs is chosen for node v in slot s. */
  predicate Unique(a: Key -> bool, f: Family, s: int, v: int, cs: seq<int>) {
    forall i, j :: 0 <= i < |cs| && 0 <= j < |cs| && Chosen(a, f, s, v, cs[i]) && Chosen(a, f, s, v, cs[j]) ==> i == j
  }

  predicate AllSome(a: Key -> bool, f: Family, v: int, cs: seq<int>) {
    forall s :: 0 <= s < Width(f) ==> SomeChosen(a, f, s, v, cs)
  }

  predicate AllUnique(a: Key -> bool, f: Family, v: int, cs: seq<int>) {
    forall s :: 0 <= s < Width(f) ==> Unique(a, f, s, v, cs)
  }

  /** Over an ascending list, the pairwise clauses of u < w say that no two
      distinct candidates share a slot. */
  lemma RowPairsOkMeans(a: Key -> bool, f: Family, v: int, cs: seq<int>)
    requires Increasing(cs)
    ensures RowPairsOk(a, f, v, cs) <==> AllUnique(a, f, v, cs)
  {
    if RowPairsOk(a, f, v, cs) {
      forall s | 0 <= s < Width(f)
        ensures Unique(a, f, s, v, cs)
      {
        forall i, j | 0 <= i < |cs| && 0 <= j < |cs| && Chosen(a, f, s, v, cs[i]) && Chosen(a, f, s, v, cs[j])
          ensures i == j
        {
          assert PairsOkBelow(a, f, v, cs[i], cs, |cs|) && PairsOkBelow(a, f, v, cs[j], cs, |cs|);
        }
      }
    } else {
      var p :| 0 <= p < |cs| && !PairsOkBelow(a, f, v, cs[p], cs, |cs|);
      var q :| 0 <= q < |cs| && !PairOk(a, f, v, cs[p], cs[q]);
      var s :| 0 <= s < Width(f) && Chosen(a, f, s, v, cs[p]) && Chosen(a, f, s, v, cs[q]);
      assert !Unique(a, f, s, v, cs) by {
        assert cs[p] < cs[q];
      }
    }
  }

  /** Exactly one is some and at most one. */
  lemma ExactlyOneSplit(a: Key -> bool, f: Family, s: int, v: int, cs: seq<int>)
    ensures ExactlyOne(a, f, s, v, cs) <==> SomeChosen(a, f, s, v, cs) && Unique(a, f, s, v, cs)
  {
  }

  lemma NodeChoiceSplit(a: Key -> bool, f: Family, v: int, cs: seq<int>)
    ensures NodeChoice(a, f, v, cs) <==> AllSome(a, f, v, cs) && AllUnique(a, f, v, cs)
  {
    forall s | 0 <= s < Width(f)
      ensures ExactlyOne(a, f, s, v, cs) <==> SomeChosen(a, f, s, v, cs) && Unique(a, f, s, v, cs)
    {
      ExactlyOneSplit(a, f, s, v, cs);
    }
  }

  // ---- Exactly one ----

  /** The clauses of one node: its at-least-one clauses and its at-most-one
      row hold exactly when each slot has exactly one candidate chosen. */
  lemma NodeExactlyOne(a: Key -> bool, f: Family, v: int, cs: seq<int>)
    requires Increasing(cs)
    ensures Holds(a, AloClauses(f, v, cs) + Amo(f, AmoRowBelow(v, cs, |cs|))) <==> NodeChoice(a, f, v, cs)
  {
    var x, y := AloClauses(f, v, cs), Amo(f, AmoRowBelow(v, cs, |cs|));
    assert Holds(a, x + y) <==> Holds(a, x) && Holds(a, y) by {
      SatAppend(a, x, y);
    }
    assert Holds(a, x) <==> AllSome(a, f, v, cs) by {
      AloClausesHold(a, f, v, cs);
    }
    assert Holds(a, y) <==> AllUnique(a, f, v, cs) by {
      AmoRowHolds(a, f, v, cs, |cs|);
      RowPairsOkMeans(a, f, v, cs);
    }
    NodeChoiceSplit(a, f, v, cs);
  }

  // ---- A whole family ----

  lemma {:induction false} AloRowsHold(a: Key -> bool, c: Config, f: Family, lo: int, tbl: seq<seq<int>>, i: nat)
    requires i <= |tbl|
    ensures Holds(a, AloRows(c, f, lo, tbl, i)) <==> SomeRowsBelow(a, c, f, lo, tbl, i)
    decreases i
  {
    if i == 0 {
      assert Holds(a, []);
    } else {
      var x, y := AloRows(c, f, lo, tbl, i - 1), AloNode(c, f, lo + i - 1, tbl[i - 1]);
      assert AloRows(c, f, lo, tbl, i) == x + y;
      assert Holds(a, x + y) <==> Holds(a, x) && Holds(a, y) by {
        SatAppend(a, x, y);
      }
      assert Holds(a, y) <==> RowSome(a, c, f, lo + i - 1, tbl[i - 1]) by {
        AloClausesHold(a, f, lo + i - 1, tbl[i - 1]);
        assert Holds(a, []);
      }
      assert Holds(a, x) <==> SomeRowsBelow(a, c, f, lo, tbl, i - 1) by {
        AloRowsHold(a, c, f, lo, tbl, i - 1);
      }
      assert SomeRowsBelow(a, c, f, lo, tbl, i) <==>
             SomeRowsBelow(a, c, f, lo, tbl, i - 1) && RowSome(a, c, f, lo + i - 1, tbl[i - 1]);
    }
  }

  lemma {:induction false} AmoRowsHold(a: Key -> bool, f: Family, lo: int, tbl: seq<seq<int>>, i: nat)
    requires i <= |tbl|
    ensures Holds(a, Amo(f, AmoRowsBelow(lo, tbl, i))) <==> PairRowsBelow(a, f, lo, tbl, i)
    decreases i
  {
    if i == 0 {
      assert Holds(a, []);
    } else {
      var x, y := Amo(f, AmoRowsBelow(lo, tbl, i - 1)), Amo(f, AmoRowBelow(lo + i - 1, tbl[i - 1], |tbl[i - 1]|));
      assert Amo(f, AmoRowsBelow(lo, tbl, i)) == x + y;
      assert Holds(a, x + y) <==> Holds(a, x) && Holds(a, y) by {
        SatAppend(a, x, y);
      }
      assert Holds(a, y) <==> RowPairsOk(a, f, lo + i - 1, tbl[i - 1]) by {
        AmoRowHolds(a, f, lo + i - 1, tbl[i - 1], |tbl[i - 1]|);
      }
      assert Holds(a, x) <==> PairRowsBelow(a, f, lo, tbl, i - 1) by {
        AmoRowsHold(a, f, lo, tbl, i - 1);
      }
      assert PairRowsBelow(a, f, lo, tbl, i) <==>
             PairRowsBelow(a, f, lo, tbl, i - 1) && RowPairsOk(a, f, lo + i - 1, tbl[i - 1]);
    }
  }

  /** The one node the source skips, the root in up_t, has no candidates. */
  lemma SkippedHasNoCandidates(c: Config, f: Family, v: int)
    requires c.n >= 1 && AloSkip(c, f, v)
    ensures Cands(c, f, v) == []
  {
    ParentsMembers(c, v, 0);
    UpsMembers(c, v, 0);
  }

  /** The remarks hold trivially: the phase's clauses are its two loops'. */
  lemma ClausesSplit(a: Key -> bool, c: Config, f: Family)
    ensures Holds(a, ExactlyOneClauses(c, f)) <==> Holds(a, AloAll(c, f)) && Holds(a, AmoAll(c, f))
  {
    var x, y := AloAll(c, f), AmoAll(c, f);
    assert Holds(a, [Remark]) && Holds(a, Notes(f));
    SatAppend(a, [Remark], x);
    SatAppend(a, [Remark] + x, Notes(f));
    SatAppend(a, [Remark] + x + Notes(f), y);
  }

  /** One row of the table: its clauses say exactly one per slot, except
      for a skipped node, which has no candidates. */
  lemma RowMeaning(a: Key -> bool, c: Config, f: Family, v: int, cs: seq<int>)
    requires Increasing(cs) && (AloSkip(c, f, v) ==> cs == [])
    ensures RowOk(a, c, f, v, cs) <==> RowChoice(a, c, f, v, cs)
  {
    NodeChoiceSplit(a, f, v, cs);
    RowPairsOkMeans(a, f, v, cs);
  }

  /** What row v's clauses say, and what they are meant to say. */
  predicate RowOk(a: Key -> bool, c: Config, f: Family, v: int, cs: seq<int>) {
    RowSome(a, c, f, v, cs) && RowPairsOk(a, f, v, cs)
  }

  predicate RowChoice(a: Key -> bool, c: Config, f: Family, v: int, cs: seq<int>) {
    !AloSkip(c, f, v) ==> NodeChoice(a, f, v, cs)
  }

  predicate RowsOk(a: Key -> bool, c: Config, f: Family, lo: int, tbl: seq<seq<int>>) {
    forall p :: 0 <= p < |tbl| ==> RowOk(a, c, f, lo + p, tbl[p])
  }

  predicate RowsChoice(a: Key -> bool, c: Config, f: Family, lo: int, tbl: seq<seq<int>>) {
    forall p :: 0 <= p < |tbl| ==> RowChoice(a, c, f, lo + p, tbl[p])
  }

  /** Every node of the family's range that the source does not skip has
      exactly one candidate chosen in each slot. */
  predicate FamilyChoice(a: Key -> bool, c: Config, f: Family) {
    forall v :: FamLo(c, f) <= v < FamHi(c, f) ==> RowChoice(a, c, f, v, Cands(c, f, v))
  }

  lemma RowsSplit(a: Key -> bool, c: Config, f: Family, lo: int, tbl: seq<seq<int>>)
    ensures SomeRowsBelow(a, c, f, lo, tbl, |tbl|) && PairRowsBelow(a, f, lo, tbl, |tbl|) <==> RowsOk(a, c, f, lo, tbl)
  {
  }

  /** Row by row, the clauses say what they are meant to. */
  lemma RowsMeaning(a: Key -> bool, c: Config, f: Family, lo: int, tbl: seq<seq<int>>)
    requires ListsIncreasing(tbl)
    requires forall p :: 0 <= p < |tbl| && AloSkip(c, f, lo + p) ==> tbl[p] == []
    ensures RowsOk(a, c, f, lo, tbl) <==> RowsChoice(a, c, f, lo, tbl)
  {
    forall p | 0 <= p < |tbl|
      ensures RowOk(a, c, f, lo + p, tbl[p]) <==> RowChoice(a, c, f, lo + p, tbl[p])
    {
      RowMeaning(a, c, f, lo + p, tbl[p]);
    }
  }

  /** The table's rows are the family's nodes. */
  lemma TableRows(a: Key -> bool, c: Config, f: Family)
    requires c.n >= 1
    ensures RowsChoice(a, c, f, FamLo(c, f), Table(c, f)) <==> FamilyChoice(a, c, f)
  {
    var lo, tbl := FamLo(c, f), Table(c, f);
    TableEntries(c, f);
    if RowsChoice(a, c, f, lo, tbl) {
      forall v | lo <= v < FamHi(c, f)
        ensures RowChoice(a, c, f, v, Cands(c, f, v))
      {
        assert tbl[v - lo] == Cands(c, f, v);
        assert RowChoice(a, c, f, lo + (v - lo), tbl[v - lo]);
      }
    }
    if FamilyChoice(a, c, f) {
      forall p | 0 <= p < |tbl|
        ensures RowChoice(a, c, f, lo + p, tbl[p])
      {
        assert tbl[p] == Cands(c, f, lo + p);
      }
    }
  }

  /** The skipped row is empty. */
  lemma TableSkips(c: Config, f: Family)
    requires c.n >= 1
    ensures forall p :: 0 <= p < |Table(c, f)| && AloSkip(c, f, FamLo(c, f) + p) ==> Table(c, f)[p] == []
  {
    TableEntries(c, f);
    forall p | 0 <= p < |Table(c, f)| && AloSkip(c, f, FamLo(c, f) + p)
      ensures Table(c, f)[p] == []
    {
      SkippedHasNoCandidates(c, f, FamLo(c, f) + p);
    }
  }

  /** The clauses of an exactly-one phase hold exactly when every node of
      the family's range that the source does not skip has exactly one
      candidate chosen in each slot. */
  lemma FamilyExactlyOne(a: Key -> bool, c: Config, f: Family)
    requires c.n >= 1
    ensures Holds(a, ExactlyOneClauses(c, f)) <==> FamilyChoice(a, c, f)
  {
    var lo, tbl := FamLo(c, f), Table(c, f);
    ClausesSplit(a, c, f);
    AloRowsHold(a, c, f, lo, tbl, |tbl|);
    AmoRowsHold(a, f, lo, tbl, |tbl|);
    RowsSplit(a, c, f, lo, tbl);
    TableIncreasing(c, f);
    TableSkips(c, f);
    RowsMeaning(a, c, f, lo, tbl);
    TableRows(a, c, f);
  }
}
