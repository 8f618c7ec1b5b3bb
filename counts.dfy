/**
 * How many clauses the exactly-one encoding emits: for a node with an
 * ascending candidate list L, one at-least-one clause and |L|(|L|-1)/2
 * pairwise clauses per slot.
 */
module Counts {
  import opened Topology
  import opened Registry
  import opened Formula
  import opened Families

  /** The number of unordered pairs of n things, summed up one at a time. */
  function Pairs(n: nat): (r: nat) {
    if n == 0 then 0 else Pairs(n - 1) + (n - 1)
  }

  lemma {:induction false} PairsClosed(n: nat)
    ensures 2 * Pairs(n) == n * (n - 1)
  {
    if n > 0 {
      PairsClosed(n - 1);
      assert n * (n - 1) == (n - 1) * (n - 2) + 2 * (n - 1);
    }
  }

  /** n(n-1) is even, so the closed form divides exactly. */
  lemma PairsFormula(n: nat)
    ensures Pairs(n) == n * (n - 1) / 2
  {
    PairsClosed(n);
  }

  /** How many of the first j entries of ws lie above u. */
  function Above(u: int, ws: seq<int>, j: nat): (r: nat)
    requires j <= |ws|
  {
    if j == 0 then 0 else Above(u, ws, j - 1) + (if u < ws[j - 1] then 1 else 0)
  }

  lemma TwoCount(x: Emit, y: Emit)
    ensures OrCount([x, y]) == (if x.Or? then 1 else 0) + (if y.Or? then 1 else 0)
  {
    assert [x, y][..1] == [x];
    assert [x, y][1] == y;
    OneCount(x);
  }

  lemma OneCount(x: Emit)
    ensures OrCount([x]) == if x.Or? then 1 else 0
  {
    assert [x][..0] == [];
  }

  /** The at-least-one clauses of a node: one per slot. */
  lemma AloCount(f: Family, v: int, cs: seq<int>)
    ensures OrCount(AloClauses(f, v, cs)) == Width(f)
  {
    var x := Or(AloLits(f, 0, v, cs));
    if Width(f) == 2 {
      assert AloClauses(f, v, cs) == [x, Or(AloLits(f, 1, v, cs))];
      TwoCount(x, Or(AloLits(f, 1, v, cs)));
    } else {
      assert AloClauses(f, v, cs) == [x];
      OneCount(x);
    }
  }

  /** A pair of candidates yields one clause per slot when ordered, none otherwise. */
  lemma AmoCellCount(f: Family, v: int, u: int, w: int)
    ensures OrCount(Amo(f, AmoAt(v, u, w))) == if u < w then Width(f) else 0
  {
    AmoAtCell(f, v, u, w);
    OrCountAppend(AmoLooks(f, v, u, w), AmoPair(f, v, u, w));
    if f.LpRpF? {
      var looks := AmoLooks(f, v, u, w);
      assert looks == [Look(Lp(v, u)), Look(Lp(v, w))] + [Look(Rp(v, u)), Look(Rp(v, w))];
      OrCountAppend([Look(Lp(v, u)), Look(Lp(v, w))], [Look(Rp(v, u)), Look(Rp(v, w))]);
      TwoCount(Look(Lp(v, u)), Look(Lp(v, w)));
      TwoCount(Look(Rp(v, u)), Look(Rp(v, w)));
    }
    if u < w {
      var x := Or([Neg(FamKey(f, 0, v, u)), Neg(FamKey(f, 0, v, w))]);
      if Width(f) == 2 {
        var y := Or([Neg(FamKey(f, 1, v, u)), Neg(FamKey(f, 1, v, w))]);
        assert AmoPair(f, v, u, w) == [x, y];
        TwoCount(x, y);
      } else {
        assert AmoPair(f, v, u, w) == [x];
        OneCount(x);
      }
    }
  }

  lemma {:induction false} AmoPairsCount(f: Family, v: int, u: int, ws: seq<int>, j: nat)
    requires j <= |ws|
    ensures OrCount(Amo(f, AmoPairsBelow(v, u, ws, j))) == Width(f) * Above(u, ws, j)
    decreases j
  {
    if j > 0 {
      var x, y := Amo(f, AmoPairsBelow(v, u, ws, j - 1)), Amo(f, AmoAt(v, u, ws[j - 1]));
      var b := if u < ws[j - 1] then 1 else 0;
      assert Amo(f, AmoPairsBelow(v, u, ws, j)) == x + y;
      assert OrCount(x + y) == OrCount(x) + OrCount(y) by {
        OrCountAppend(x, y);
      }
      assert OrCount(x) == Width(f) * Above(u, ws, j - 1) by {
        AmoPairsCount(f, v, u, ws, j - 1);
      }
      assert OrCount(y) == Width(f) * b by {
        AmoCellCount(f, v, u, ws[j - 1]);
      }
      assert Above(u, ws, j) == Above(u, ws, j - 1) + b;
      assert Width(f) * (Above(u, ws, j - 1) + b) == Width(f) * Above(u, ws, j - 1) + Width(f) * b;
    }
  }

  /** In an ascending list, the entries above the i-th are exactly those after it. */
  lemma {:induction false} AboveIncreasing(ws: seq<int>, i: nat, j: nat)
    requires Increasing(ws) && i < |ws| && j <= |ws|
    ensures Above(ws[i], ws, j) == if j > i + 1 then j - i - 1 else 0
    decreases j
  {
    if j > 0 {
      AboveIncreasing(ws, i, j - 1);
      assert ws[i] < ws[j - 1] <==> i < j - 1;
    }
  }

  /** The pairs u < w of n ascending candidates whose u is among the first i:
      candidate q has n - 1 - q later ones. */
  function Rows(n: nat, i: nat): (r: int) {
    if i == 0 then 0 else Rows(n, i - 1) + (n - i)
  }

  lemma {:induction false} RowsPairs(n: nat, i: nat)
    requires i <= n
    ensures Rows(n, i) + Pairs(n - i) == Pairs(n)
    decreases i
  {
    if i > 0 {
      RowsPairs(n, i - 1);
      assert Pairs(n - i + 1) == Pairs(n - i) + (n - i);
    }
  }

  lemma Distribute(w: int, x: int, y: int)
    ensures w * (x + y) == w * x + w * y
  {
  }

  lemma {:induction false} AmoRowCount(f: Family, v: int, cs: seq<int>, i: nat)
    requires Increasing(cs) && i <= |cs|
    ensures OrCount(Amo(f, AmoRowBelow(v, cs, i))) == Width(f) * Rows(|cs|, i)
    decreases i
  {
    if i > 0 {
      var n := |cs|;
      var x, y := Amo(f, AmoRowBelow(v, cs, i - 1)), Amo(f, AmoPairsBelow(v, cs[i - 1], cs, n));
      assert Amo(f, AmoRowBelow(v, cs, i)) == x + y;
      assert OrCount(x + y) == OrCount(x) + OrCount(y) by {
        OrCountAppend(x, y);
      }
      assert OrCount(x) == Width(f) * Rows(n, i - 1) by {
        AmoRowCount(f, v, cs, i - 1);
      }
      assert OrCount(y) == Width(f) * (n - i) by {
        AmoPairsCount(f, v, cs[i - 1], cs, n);
        AboveIncreasing(cs, i - 1, n);
      }
      Distribute(Width(f), Rows(n, i - 1), n - i);
    }
  }

  /** The at-most-one clauses of a node with ascending candidates L: one per
      slot for each of the |L|(|L|-1)/2 pairs. */
  lemma AmoNodeCount(f: Family, v: int, cs: seq<int>)
    requires Increasing(cs)
    ensures OrCount(Amo(f, AmoRowBelow(v, cs, |cs|))) == Width(f) * Pairs(|cs|)
  {
    AmoRowCount(f, v, cs, |cs|);
    RowsPairs(|cs|, |cs|);
  }

  /** Exactly-one over ascending candidates L: 1 + |L|(|L|-1)/2 clauses per slot. */
  lemma ExactlyOneCount(f: Family, v: int, cs: seq<int>)
    requires Increasing(cs)
    ensures OrCount(AloClauses(f, v, cs) + Amo(f, AmoRowBelow(v, cs, |cs|))) == Width(f) * (1 + Pairs(|cs|))
  {
    OrCountAppend(AloClauses(f, v, cs), Amo(f, AmoRowBelow(v, cs, |cs|)));
    AloCount(f, v, cs);
    AmoNodeCount(f, v, cs);
  }
}
