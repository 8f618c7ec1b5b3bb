/**
 * What the builder emits, named by variable keys instead of ids.
 *
 * An encoder's output is a list of Emits: Remark for a commentCNF call,
 * Or(lits) for an addClause call, each literal naming the key whose id
 * getVar returned, and Look(key) for a getVar whose id is kept for later
 * clauses (or for none: the lookup must still find the key). Tr turns such a list into the numbered lines of the
 * output under a registry; the semantics of the keyed list and of its
 * numbered image agree whenever every key is registered.
 */
module Formula {
  import opened Registry
  import opened Cnf

  datatype Lit = Pos(key: Key) | Neg(key: Key)

  datatype Emit = Remark | Look(probe: Key) | Or(lits: seq<Lit>)

  /** The id a key has in the registry; 0, which no variable has, if absent. */
  function Id(m: map<Key, int>, key: Key): (r: int) {
    if key in m then m[key] else 0
  }

  function LitValue(m: map<Key, int>, l: Lit): (r: int) {
    match l
    case Pos(key) => Id(m, key)
    case Neg(key) => -Id(m, key)
  }

  function LitValues(m: map<Key, int>, ls: seq<Lit>): (r: seq<int>)
    ensures |r| == |ls|
  {
    seq(|ls|, i requires 0 <= i < |ls| => LitValue(m, ls[i]))
  }

  /** One emit as lines; a Remark is a comment line only when comments are on. */
  function TrEmit(m: map<Key, int>, comments: bool, e: Emit): (r: seq<Line>) {
    match e
    case Remark => if comments then [Comment] else []
    case Look(_) => []
    case Or(ls) => [Clause(LitValues(m, ls))]
  }

  function Tr(m: map<Key, int>, comments: bool, es: seq<Emit>): (r: seq<Line>) {
    if es == [] then []
    else Tr(m, comments, es[..|es| - 1]) + TrEmit(m, comments, es[|es| - 1])
  }

  /** Every key the literals mention is registered. */
  ghost predicate LitsIn(ls: seq<Lit>, m: map<Key, int>) {
    forall j :: 0 <= j < |ls| ==> ls[j].key in m
  }

  /** Every key the emits mention is registered. */
  ghost predicate KeysIn(es: seq<Emit>, m: map<Key, int>) {
    es == [] || (KeysIn(es[..|es| - 1], m) && EmitIn(es[|es| - 1], m))
  }

  /** Every emit of the list is registered, one by one. */
  ghost predicate AllIn(es: seq<Emit>, m: map<Key, int>) {
    forall i :: 0 <= i < |es| ==> EmitIn(es[i], m)
  }

  /** Every key the emit mentions is registered. */
  ghost predicate EmitIn(e: Emit, m: map<Key, int>) {
    match e
    case Remark => true
    case Look(key) => key in m
    case Or(ls) => LitsIn(ls, m)
  }

  function OrCount(es: seq<Emit>): (r: nat) {
    if es == [] then 0
    else OrCount(es[..|es| - 1]) + (if es[|es| - 1].Or? then 1 else 0)
  }

  // ---- Semantics over keys ----

  predicate LitHolds(a: Key -> bool, l: Lit) {
    match l
    case Pos(key) => a(key)
    case Neg(key) => !a(key)
  }

  predicate EmitHolds(a: Key -> bool, e: Emit) {
    e.Or? ==> exists j :: 0 <= j < |e.lits| && LitHolds(a, e.lits[j])
  }

  predicate Holds(a: Key -> bool, es: seq<Emit>) {
    forall i :: 0 <= i < |es| ==> EmitHolds(a, es[i])
  }

  /** The key assignment an id assignment induces through the registry. */
  function Pull(assign: int -> bool, m: map<Key, int>): (r: Key -> bool) {
    key => assign(Id(m, key))
  }

  // ---- Output states ----

  /** The output state (trace, lines, count) is coherent under registry m:
      ids run 1..|m|, every key of the trace is registered, the lines are the
      trace numbered and the count counts its clauses from base. */
  ghost predicate Coherent(m: map<Key, int>, comments: bool, base: int, t: seq<Emit>, l: seq<Line>, k: int) {
    && RegistryValid(m)
    && KeysIn(t, m)
    && l == Tr(m, comments, t)
    && k == base + OrCount(t)
  }

  /** The state (t, l, k) is (t0, l0, k0) followed by the emits x: x is
      appended to the trace, its numbered lines to the text and its clauses
      to the count, and all its keys are registered. */
  ghost predicate Grown(m: map<Key, int>, comments: bool, t0: seq<Emit>, l0: seq<Line>, k0: int,
                        x: seq<Emit>, t: seq<Emit>, l: seq<Line>, k: int) {
    && t == t0 + x
    && l == l0 + Tr(m, comments, x)
    && k == k0 + OrCount(x)
    && KeysIn(x, m)
  }

  // ---- Lemmas ----

  lemma TrSnoc(m: map<Key, int>, comments: bool, es: seq<Emit>, e: Emit)
    ensures Tr(m, comments, es + [e]) == Tr(m, comments, es) + TrEmit(m, comments, e)
  {
    assert (es + [e])[..|es|] == es;
  }

  lemma {:induction false} TrAppend(m: map<Key, int>, comments: bool, a: seq<Emit>, b: seq<Emit>)
    ensures Tr(m, comments, a + b) == Tr(m, comments, a) + Tr(m, comments, b)
    decreases |b|
  {
    if b == [] {
      assert a + b == a;
    } else {
      var b', e := b[..|b| - 1], b[|b| - 1];
      var x, y, z := Tr(m, comments, a), Tr(m, comments, b'), TrEmit(m, comments, e);
      assert a + b == (a + b') + [e];
      assert b == b' + [e];
      TrSnoc(m, comments, a + b', e);
      TrAppend(m, comments, a, b');
      TrSnoc(m, comments, b', e);
      LinesAssoc(x, y, z);
    }
  }

  lemma EmitsAssoc(x: seq<Emit>, y: seq<Emit>, z: seq<Emit>)
    ensures (x + y) + z == x + (y + z)
  {
  }

  lemma LinesAssoc(x: seq<Line>, y: seq<Line>, z: seq<Line>)
    ensures (x + y) + z == x + (y + z)
  {
  }

  lemma {:induction false} OrCountAppend(a: seq<Emit>, b: seq<Emit>)
    ensures OrCount(a + b) == OrCount(a) + OrCount(b)
    decreases |b|
  {
    if b == [] {
      assert a + b == a;
    } else {
      var b' := b[..|b| - 1];
      OrCountAppend(a, b');
      assert (a + b)[..|a + b| - 1] == a + b';
      assert (a + b)[|a + b| - 1] == b[|b| - 1];
    }
  }

  lemma {:induction false} KeysInAppend(a: seq<Emit>, b: seq<Emit>, m: map<Key, int>)
    ensures KeysIn(a + b, m) <==> KeysIn(a, m) && KeysIn(b, m)
    decreases |b|
  {
    if b == [] {
      assert a + b == a;
    } else {
      var b' := b[..|b| - 1];
      KeysInAppend(a, b', m);
      assert (a + b)[..|a + b| - 1] == a + b';
      assert (a + b)[|a + b| - 1] == b[|b| - 1];
    }
  }

  /** Each emit of a registered list is registered. */
  lemma {:induction false} KeysInIndex(es: seq<Emit>, i: int, m: map<Key, int>)
    requires KeysIn(es, m) && 0 <= i < |es|
    ensures EmitIn(es[i], m)
    decreases |es|
  {
    if i < |es| - 1 {
      KeysInIndex(es[..|es| - 1], i, m);
    }
  }

  /** A list is registered when each of its emits is. */
  lemma {:induction false} KeysInEach(es: seq<Emit>, m: map<Key, int>)
    requires forall i :: 0 <= i < |es| ==> EmitIn(es[i], m)
    ensures KeysIn(es, m)
    decreases |es|
  {
    if es != [] {
      KeysInEach(es[..|es| - 1], m);
    }
  }

  /** The numbered lines depend only on the ids of the keys mentioned: a
      registry that keeps those ids numbers the emits alike. */
  lemma {:induction false} TrMono(m: map<Key, int>, m': map<Key, int>, comments: bool, es: seq<Emit>)
    requires KeysIn(es, m)
    requires forall key :: key in m ==> key in m' && m'[key] == m[key]
    ensures Tr(m', comments, es) == Tr(m, comments, es)
    decreases |es|
  {
    if es != [] {
      var init, e := es[..|es| - 1], es[|es| - 1];
      assert es == init + [e];
      KeysInAppend(init, [e], m);
      TrMono(m, m', comments, init);
      if e.Or? {
        assert forall j :: 0 <= j < |e.lits| ==> e.lits[j].key in m by {
          forall j | 0 <= j < |e.lits| ensures e.lits[j].key in m {
            assert es[|es| - 1] == e;
          }
        }
        assert LitValues(m', e.lits) == LitValues(m, e.lits);
      }
    }
  }

  /** Growing the registry without renumbering keeps the trace's keys
      registered and its numbered image unchanged. */
  lemma Recohere(m: map<Key, int>, m': map<Key, int>, comments: bool, es: seq<Emit>)
    requires KeysIn(es, m)
    requires forall key :: key in m ==> key in m' && m'[key] == m[key]
    ensures KeysIn(es, m')
    ensures Tr(m', comments, es) == Tr(m, comments, es)
  {
    TrMono(m, m', comments, es);
  }

  /** Exactly the Or emits become clauses. */
  lemma {:induction false} TrCount(m: map<Key, int>, comments: bool, es: seq<Emit>)
    ensures ClauseCount(Tr(m, comments, es)) == OrCount(es)
    decreases |es|
  {
    if es != [] {
      var init, e := es[..|es| - 1], es[|es| - 1];
      TrCount(m, comments, init);
      ClauseCountAppend(Tr(m, comments, init), TrEmit(m, comments, e));
    }
  }

  lemma {:induction false} ClauseCountAppend(a: seq<Line>, b: seq<Line>)
    ensures ClauseCount(a + b) == ClauseCount(a) + ClauseCount(b)
    decreases |b|
  {
    if b == [] {
      assert a + b == a;
    } else {
      var b' := b[..|b| - 1];
      ClauseCountAppend(a, b');
      assert (a + b)[..|a + b| - 1] == a + b';
      assert (a + b)[|a + b| - 1] == b[|b| - 1];
    }
  }

  /** With every key registered, every literal is a registered id or its negation. */
  lemma {:induction false} TrLinesOk(m: map<Key, int>, comments: bool, es: seq<Emit>)
    requires RegistryValid(m) && KeysIn(es, m)
    ensures LinesOk(Tr(m, comments, es), |m|)
    decreases |es|
  {
    if es != [] {
      var init, e := es[..|es| - 1], es[|es| - 1];
      assert es == init + [e];
      KeysInAppend(init, [e], m);
      TrLinesOk(m, comments, init);
      var a, b := Tr(m, comments, init), TrEmit(m, comments, e);
      if e.Or? {
        forall j | 0 <= j < |e.lits| ensures LitValue(m, e.lits[j]) != 0 && -|m| <= LitValue(m, e.lits[j]) <= |m| {
          assert es[|es| - 1].lits[j].key in m;
        }
      }
      assert forall i :: 0 <= i < |a| ==> (a + b)[i] == a[i];
      assert forall i :: 0 <= i < |b| ==> (a + b)[|a| + i] == b[i];
    }
  }

  lemma SatAppend(a: Key -> bool, x: seq<Emit>, y: seq<Emit>)
    ensures Holds(a, x + y) <==> Holds(a, x) && Holds(a, y)
  {
    assert forall i :: 0 <= i < |x| ==> (x + y)[i] == x[i];
    assert forall i :: 0 <= i < |y| ==> (x + y)[|x| + i] == y[i];
  }

  lemma LineHoldsAppend(assign: int -> bool, x: seq<Line>, y: seq<Line>)
    ensures Satisfies(assign, x + y) <==> Satisfies(assign, x) && Satisfies(assign, y)
  {
    assert forall i :: 0 <= i < |x| ==> (x + y)[i] == x[i];
    assert forall i :: 0 <= i < |y| ==> (x + y)[|x| + i] == y[i];
  }

  /** An assignment of ids satisfies the numbered lines exactly when the key
      assignment it induces satisfies the keyed emits. */
  lemma {:induction false} TrSatisfies(assign: int -> bool, m: map<Key, int>, comments: bool, es: seq<Emit>)
    requires RegistryValid(m) && KeysIn(es, m)
    ensures Satisfies(assign, Tr(m, comments, es)) <==> Holds(Pull(assign, m), es)
    decreases |es|
  {
    if es != [] {
      var init, e := es[..|es| - 1], es[|es| - 1];
      assert es == init + [e];
      KeysInAppend(init, [e], m);
      TrSatisfies(assign, m, comments, init);
      SatAppend(Pull(assign, m), init, [e]);
      LineHoldsAppend(assign, Tr(m, comments, init), TrEmit(m, comments, e));
      if e.Or? {
        var vals := LitValues(m, e.lits);
        forall j | 0 <= j < |e.lits|
          ensures LitTrue(assign, vals[j]) <==> LitHolds(Pull(assign, m), e.lits[j])
        {
          assert es[|es| - 1].lits[j].key in m;
        }
        assert LineHolds(assign, Clause(vals)) <==> EmitHolds(Pull(assign, m), e);
        assert [Clause(vals)][0] == Clause(vals);
        assert [e][0] == e;
      }
    }
  }

  lemma GrownNothing(m: map<Key, int>, comments: bool, t: seq<Emit>, l: seq<Line>, k: int)
    ensures Grown(m, comments, t, l, k, [], t, l, k)
  {
    assert t + [] == t && l + [] == l;
  }

  /** One emit grows the state by its numbered image. */
  lemma GrownOne(m: map<Key, int>, comments: bool, t0: seq<Emit>, l0: seq<Line>, k0: int, e: Emit)
    requires EmitIn(e, m)
    ensures Grown(m, comments, t0, l0, k0, [e], t0 + [e], l0 + TrEmit(m, comments, e),
                  k0 + (if e.Or? then 1 else 0))
  {
    TrSnoc(m, comments, [], e);
    assert [] + [e] == [e];
    assert [e][..0] == [];
  }

  /** Growing by x and then by y is growing by x + y. */
  lemma GrownTrans(m: map<Key, int>, comments: bool, t0: seq<Emit>, l0: seq<Line>, k0: int,
                   x: seq<Emit>, t1: seq<Emit>, l1: seq<Line>, k1: int,
                   y: seq<Emit>, t2: seq<Emit>, l2: seq<Line>, k2: int)
    requires Grown(m, comments, t0, l0, k0, x, t1, l1, k1)
    requires Grown(m, comments, t1, l1, k1, y, t2, l2, k2)
    ensures Grown(m, comments, t0, l0, k0, x + y, t2, l2, k2)
  {
    EmitsAssoc(t0, x, y);
    TrAppend(m, comments, x, y);
    LinesAssoc(l0, Tr(m, comments, x), Tr(m, comments, y));
    OrCountAppend(x, y);
    KeysInAppend(x, y, m);
  }

  /** A coherent state grown by registered emits is coherent. */
  lemma CoherentGrown(m: map<Key, int>, comments: bool, base: int, t0: seq<Emit>, l0: seq<Line>, k0: int,
                      x: seq<Emit>, t: seq<Emit>, l: seq<Line>, k: int)
    requires Coherent(m, comments, base, t0, l0, k0)
    requires Grown(m, comments, t0, l0, k0, x, t, l, k)
    ensures Coherent(m, comments, base, t, l, k)
  {
    TrAppend(m, comments, t0, x);
    OrCountAppend(t0, x);
    KeysInAppend(t0, x, m);
  }

  /** Registering more keys, without renumbering, keeps a state coherent. */
  lemma CoherentExtend(m: map<Key, int>, m': map<Key, int>, comments: bool, base: int,
                       t: seq<Emit>, l: seq<Line>, k: int)
    requires Coherent(m, comments, base, t, l, k)
    requires RegistryValid(m')
    requires forall key :: key in m ==> key in m' && m'[key] == m[key]
    ensures Coherent(m', comments, base, t, l, k)
  {
    Recohere(m, m', comments, t);
  }
}
