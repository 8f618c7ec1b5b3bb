/**
 * The DIMACS CNF text the builder produces: a "p cnf V C" header, then one
 * line per comment or clause, each clause its literals separated by blanks
 * and closed by "0". Variables are the ids 1..V; literal -x is "not x".
 */
module Cnf {
  import opened Decimal

  /** A line of the body: a comment (its text is not modelled) or a clause. */
  datatype Line = Comment | Clause(lits: seq<int>)

  function ClauseCount(ls: seq<Line>): (r: nat) {
    if ls == [] then 0
    else ClauseCount(ls[..|ls| - 1]) + (if ls[|ls| - 1].Clause? then 1 else 0)
  }

  /** Every literal names one of the ids 1..vars. */
  predicate LinesOk(ls: seq<Line>, vars: int) {
    forall i, j :: 0 <= i < |ls| && ls[i].Clause? && 0 <= j < |ls[i].lits| ==>
      ls[i].lits[j] != 0 && -vars <= ls[i].lits[j] <= vars
  }

  // ---- Semantics: an assignment gives each variable id a truth value ----

  predicate LitTrue(assign: int -> bool, l: int) {
    (l > 0 && assign(l)) || (l < 0 && !assign(-l))
  }

  predicate LineHolds(assign: int -> bool, line: Line) {
    line.Clause? ==> exists j :: 0 <= j < |line.lits| && LitTrue(assign, line.lits[j])
  }

  predicate Satisfies(assign: int -> bool, ls: seq<Line>) {
    forall i :: 0 <= i < |ls| ==> LineHolds(assign, ls[i])
  }

  // ---- Rendering ----

  /** addClause(int...): every literal followed by one blank. */
  function LitsText(lits: seq<int>): (r: string) {
    if lits == [] then "" else IntToString(lits[0]) + (" " + LitsText(lits[1..]))
  }

  /** addClause(String): a blank unless the text ends in one, then "0\n". */
  function ClauseText(s: string): (r: string) {
    (if |s| > 0 && s[|s| - 1] == ' ' then s else s + " ") + "0\n"
  }

  function LineText(line: Line): (r: string) {
    match line
    case Comment => "c \n"
    case Clause(lits) => ClauseText(LitsText(lits))
  }

  function BodyText(ls: seq<Line>): (r: string) {
    if ls == [] then "" else LineText(ls[0]) + BodyText(ls[1..])
  }

  /** The problem line buildCNF puts in front of the body. */
  function Header(vars: int, clauses: int): (r: string) {
    "p cnf " + (IntToString(vars) + (" " + (IntToString(clauses) + "\n")))
  }

  function Document(vars: int, clauses: int, ls: seq<Line>): (r: string) {
    Header(vars, clauses) + BodyText(ls)
  }

  // ---- Facts about the rendering ----

  /** A non-empty literal list renders as tokens each closed by a blank. */
  lemma LitsTextShape(lits: seq<int>)
    ensures lits == [] <==> LitsText(lits) == ""
    ensures lits != [] ==> |LitsText(lits)| >= 2 && LitsText(lits)[|LitsText(lits)| - 1] == ' '
    ensures LitsText(lits) == [] || LitsText(lits)[0] != ' '
  {
    if lits != [] {
      IntToStringShape(lits[0], ' ');
      var rest := LitsText(lits[1..]);
      var text := LitsText(lits);
      assert text == IntToString(lits[0]) + (" " + rest);
      if rest != [] {
        LitsTextShape(lits[1..]);
        assert text[|text| - 1] == rest[|rest| - 1];
      }
    }
  }

  /** A clause line is its literal tokens then "0\n"; the empty clause is " 0\n". */
  lemma ClauseLine(lits: seq<int>)
    ensures ClauseText(LitsText(lits)) == if lits == [] then " 0\n" else LitsText(lits) + "0\n"
  {
    LitsTextShape(lits);
  }

  /** The literals can be read back from their rendering. */
  lemma {:induction false} LitsTextInjective(a: seq<int>, b: seq<int>)
    requires LitsText(a) == LitsText(b)
    ensures a == b
  {
    LitsTextShape(a);
    LitsTextShape(b);
    if a != [] {
      IntToStringShape(a[0], ' ');
      IntToStringShape(b[0], ' ');
      SplitAt(' ', IntToString(a[0]), " " + LitsText(a[1..]), IntToString(b[0]), " " + LitsText(b[1..]));
      IntToStringInjective(a[0], b[0]);
      assert LitsText(a[1..]) == (" " + LitsText(a[1..]))[1..];
      assert LitsText(b[1..]) == (" " + LitsText(b[1..]))[1..];
      LitsTextInjective(a[1..], b[1..]);
      assert a == [a[0]] + a[1..];
      assert b == [b[0]] + b[1..];
    }
  }

  /** Distinct clauses render as distinct lines. */
  lemma ClauseTextInjective(a: seq<int>, b: seq<int>)
    requires ClauseText(LitsText(a)) == ClauseText(LitsText(b))
    ensures a == b
  {
    ClauseLine(a);
    ClauseLine(b);
    LitsTextShape(a);
    LitsTextShape(b);
    assert a == [] <==> |ClauseText(LitsText(a))| == 3;
    assert b == [] <==> |ClauseText(LitsText(b))| == 3;
    if a != [] {
      var ta, tb := LitsText(a), LitsText(b);
      assert ta == (ta + "0\n")[..|ta|];
      assert tb == (tb + "0\n")[..|tb|];
      LitsTextInjective(a, b);
    }
  }

  /** A leading integer token closed by a blank can be read back. */
  lemma LeadingToken(x: int, y: int, s: string, t: string)
    requires IntToString(x) + (" " + s) == IntToString(y) + (" " + t)
    ensures x == y && s == t
  {
    IntToStringShape(x, ' ');
    IntToStringShape(y, ' ');
    SplitAt(' ', IntToString(x), " " + s, IntToString(y), " " + t);
    IntToStringInjective(x, y);
    assert s == (" " + s)[1..];
    assert t == (" " + t)[1..];
  }

  /** An integer token closed by a newline can be read back. */
  lemma LastToken(x: int, y: int)
    requires IntToString(x) + "\n" == IntToString(y) + "\n"
    ensures x == y
  {
    var u, w := IntToString(x) + "\n", IntToString(y) + "\n";
    assert IntToString(x) == u[..|u| - 1];
    assert IntToString(y) == w[..|w| - 1];
    IntToStringInjective(x, y);
  }

  /** The header can be read back: it determines both counts. */
  lemma HeaderInjective(v1: int, c1: int, v2: int, c2: int)
    requires Header(v1, c1) == Header(v2, c2)
    ensures v1 == v2 && c1 == c2
  {
    var t1 := IntToString(v1) + (" " + (IntToString(c1) + "\n"));
    var t2 := IntToString(v2) + (" " + (IntToString(c2) + "\n"));
    assert t1 == Header(v1, c1)[6..];
    assert t2 == Header(v2, c2)[6..];
    LeadingToken(v1, v2, IntToString(c1) + "\n", IntToString(c2) + "\n");
    LastToken(c1, c2);
  }
}
