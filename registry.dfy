/**
 * Variable keys and the registry that numbers them.
 *
 * The source names a variable by a string "role_p1_p2..." built by getKey;
 * here a key is a value with one constructor per role, and GetKey renders the
 * source's string, proved injective so that both ways of keying the map agree.
 */
module Registry {
  import opened Decimal

  datatype Key =
    | Parent(v: int, u: int)     // u is the parent of network node v
    | Left(v: int, u: int)       // u is the left child of tree node v
    | Right(v: int, u: int)      // u is the right child of tree node v
    | Ch(v: int, u: int)         // u is the child of reticulation v
    | Lp(v: int, u: int)         // u is the left parent of reticulation v
    | Rp(v: int, u: int)         // u is the right parent of reticulation v
    | Dir(t: int, v: int)        // tree t enters reticulation v from its left parent
    | Used(t: int, v: int)       // tree t uses tree node v
    | RUsed(t: int, v: int)      // tree t routes through reticulation v
    | Up(t: int, v: int, u: int) // in tree t the nearest used ancestor of v is u
    | X(t: int, tv: int, v: int) // node tv of input tree t is realised by network node v

  function Name(key: Key): (r: string) {
    match key
    case Parent(_, _) => "parent"
    case Left(_, _) => "left"
    case Right(_, _) => "right"
    case Ch(_, _) => "ch"
    case Lp(_, _) => "lp"
    case Rp(_, _) => "rp"
    case Dir(_, _) => "dir"
    case Used(_, _) => "used"
    case RUsed(_, _) => "rused"
    case Up(_, _, _) => "up"
    case X(_, _, _) => "x"
  }

  function Params(key: Key): (r: seq<int>) {
    match key
    case Parent(v, u) => [v, u]
    case Left(v, u) => [v, u]
    case Right(v, u) => [v, u]
    case Ch(v, u) => [v, u]
    case Lp(v, u) => [v, u]
    case Rp(v, u) => [v, u]
    case Dir(t, v) => [t, v]
    case Used(t, v) => [t, v]
    case RUsed(t, v) => [t, v]
    case Up(t, v, u) => [t, v, u]
    case X(t, tv, v) => [t, tv, v]
  }

  /** The "_p1_p2..." tail getKey appends to the role name. */
  function Suffix(ps: seq<int>): (r: string) {
    if ps == [] then "" else "_" + (IntToString(ps[0]) + Suffix(ps[1..]))
  }

  /** The string the source uses as map key. */
  function GetKey(key: Key): (r: string) {
    Name(key) + Suffix(Params(key))
  }

  lemma {:induction false} SuffixInjective(p: seq<int>, q: seq<int>)
    requires Suffix(p) == Suffix(q)
    ensures p == q
  {
    assert |Suffix(p)| == 0 <==> p == [];
    assert |Suffix(q)| == 0 <==> q == [];
    if p != [] {
      var sp, sq := IntToString(p[0]), IntToString(q[0]);
      IntToStringShape(p[0], '_');
      IntToStringShape(q[0], '_');
      var tp, tq := sp + Suffix(p[1..]), sq + Suffix(q[1..]);
      assert Suffix(p) == "_" + tp;
      assert Suffix(q) == "_" + tq;
      assert tp == Suffix(p)[1..];
      assert tq == Suffix(q)[1..];
      SuffixStart(p[1..]);
      SuffixStart(q[1..]);
      SplitAt('_', sp, Suffix(p[1..]), sq, Suffix(q[1..]));
      IntToStringInjective(p[0], q[0]);
      SuffixInjective(p[1..], q[1..]);
      assert p == [p[0]] + p[1..];
      assert q == [q[0]] + q[1..];
    }
  }

  lemma SuffixStart(p: seq<int>)
    ensures Suffix(p) == [] || Suffix(p)[0] == '_'
  {
  }

  lemma NameShape(key: Key)
    ensures NoChar(Name(key), '_')
  {
  }

  /** Distinct keys give distinct strings: getKey never makes two variables collide. */
  lemma GetKeyInjective(a: Key, b: Key)
    requires GetKey(a) == GetKey(b)
    ensures a == b
  {
    NameShape(a);
    NameShape(b);
    SuffixStart(Params(a));
    SuffixStart(Params(b));
    SplitAt('_', Name(a), Suffix(Params(a)), Name(b), Suffix(Params(b)));
    SuffixInjective(Params(a), Params(b));
    NamesDistinct(a, b);
  }

  lemma NamesDistinct(a: Key, b: Key)
    requires Name(a) == Name(b) && Params(a) == Params(b)
    ensures a == b
  {
    match a
    case Parent(_, _) =>
    case Left(_, _) => assert Name(a)[0] == 'l';
    case Right(_, _) => assert Name(a)[1] == 'i';
    case Ch(_, _) => assert Name(a)[0] == 'c';
    case Lp(_, _) => assert Name(a)[0] == 'l';
    case Rp(_, _) => assert Name(a)[0] == 'r';
    case Dir(_, _) =>
    case Used(_, _) => assert Name(a)[0] == 'u';
    case RUsed(_, _) => assert Name(a)[1] == 'u';
    case Up(_, _, _) => assert Name(a)[0] == 'u';
    case X(_, _, _) =>
  }

  /** An append-only registry: ids are 1..|m|, one per key. */
  ghost predicate RegistryValid(m: map<Key, int>) {
    && (forall key :: key in m ==> 1 <= m[key] <= |m|)
    && (forall a, b :: a in m && b in m && m[a] == m[b] ==> a == b)
  }

  /** No key occurs twice. */
  predicate Distinct(keys: seq<Key>) {
    forall i, j :: 0 <= i < j < |keys| ==> keys[i] != keys[j]
  }

  lemma DistinctAppend(a: seq<Key>, b: seq<Key>)
    requires Distinct(a) && Distinct(b)
    requires forall key :: key in a ==> key !in b
    ensures Distinct(a + b)
  {
    forall i, j | 0 <= i < j < |a + b|
      ensures (a + b)[i] != (a + b)[j]
    {
      if j < |a| {
        assert (a + b)[i] == a[i] && (a + b)[j] == a[j];
      } else if i >= |a| {
        assert (a + b)[i] == b[i - |a|] && (a + b)[j] == b[j - |a|];
      } else {
        assert (a + b)[i] == a[i] && (a + b)[j] == b[j - |a|];
        assert a[i] in a && b[j - |a|] in b;
      }
    }
  }

  /** The map after createVar ran on each key in turn: every call puts
      key -> |m| + 1, overwriting the value of a key already present. */
  function Extend(m: map<Key, int>, keys: seq<Key>): (r: map<Key, int>)
    decreases |keys|
  {
    if keys == [] then m
    else
      var prior := Extend(m, keys[..|keys| - 1]);
      prior[keys[|keys| - 1] := |prior| + 1]
  }

  /** Declaring a list is declaring its parts one after the other. */
  lemma {:induction false} ExtendAppend(m: map<Key, int>, a: seq<Key>, b: seq<Key>)
    ensures Extend(m, a + b) == Extend(Extend(m, a), b)
    decreases |b|
  {
    if b != [] {
      var b' := b[..|b| - 1];
      ExtendAppend(m, a, b');
      var last := b[|b| - 1];
      assert (a + b)[..|a + b| - 1] == a + b';
      assert (a + b)[|a + b| - 1] == last;
      var p := Extend(m, a + b');
      assert Extend(m, a + b) == p[last := |p| + 1];
      var q := Extend(Extend(m, a), b');
      assert Extend(Extend(m, a), b) == q[last := |q| + 1];
    } else {
      assert a + b == a;
    }
  }

  /** Declaring one more key is one more put. */
  lemma ExtendSnoc(m: map<Key, int>, keys: seq<Key>, key: Key)
    ensures Extend(m, keys + [key]) == Extend(m, keys)[key := |Extend(m, keys)| + 1]
  {
    assert (keys + [key])[..|keys|] == keys;
  }

  /** The keys of the extended map are the old keys and the declared ones. */
  lemma {:induction false} ExtendDomain(m: map<Key, int>, keys: seq<Key>)
    ensures forall key :: key in Extend(m, keys) <==> key in m || key in keys
    decreases |keys|
  {
    if keys != [] {
      var init := keys[..|keys| - 1];
      ExtendDomain(m, init);
      assert keys == init + [keys[|keys| - 1]];
    }
  }

  /** One createVar on a fresh key: the key gets id |m| + 1 and the
      registry stays valid. */
  lemma PutFresh(m: map<Key, int>, key: Key)
    requires RegistryValid(m) && key !in m
    ensures |m[key := |m| + 1]| == |m| + 1
    ensures RegistryValid(m[key := |m| + 1])
  {
  }

  /** Declaring distinct fresh keys keeps every old id and keeps the
      registry valid. */
  lemma {:induction false} ExtendFresh(m: map<Key, int>, keys: seq<Key>)
    requires RegistryValid(m)
    requires Distinct(keys)
    requires forall i :: 0 <= i < |keys| ==> keys[i] !in m
    ensures RegistryValid(Extend(m, keys))
    ensures |Extend(m, keys)| == |m| + |keys|
    ensures forall key :: key in m ==> key in Extend(m, keys) && Extend(m, keys)[key] == m[key]
    decreases |keys|
  {
    if keys != [] {
      var init := keys[..|keys| - 1];
      var last := keys[|keys| - 1];
      assert Distinct(init);
      ExtendFresh(m, init);
      var prior := Extend(m, init);
      LastIsFresh(m, keys);
      PutFresh(prior, last);
    }
  }

  /** The last of distinct fresh keys is not in the map the others built. */
  lemma LastIsFresh(m: map<Key, int>, keys: seq<Key>)
    requires keys != [] && Distinct(keys)
    requires forall i :: 0 <= i < |keys| ==> keys[i] !in m
    ensures keys[|keys| - 1] !in Extend(m, keys[..|keys| - 1])
  {
    var init := keys[..|keys| - 1];
    var last := keys[|keys| - 1];
    ExtendDomain(m, init);
    forall i | 0 <= i < |init| ensures init[i] != last {
      assert init[i] == keys[i];
    }
  }

  /** Declaring distinct fresh keys numbers them |m| + 1, |m| + 2, ... in order. */
  lemma {:induction false} ExtendIds(m: map<Key, int>, keys: seq<Key>)
    requires RegistryValid(m)
    requires Distinct(keys)
    requires forall i :: 0 <= i < |keys| ==> keys[i] !in m
    ensures forall i :: 0 <= i < |keys| ==> keys[i] in Extend(m, keys) && Extend(m, keys)[keys[i]] == |m| + i + 1
    decreases |keys|
  {
    if keys != [] {
      var init := keys[..|keys| - 1];
      var last := keys[|keys| - 1];
      assert Distinct(init);
      ExtendIds(m, init);
      ExtendFresh(m, init);
      forall i | 0 <= i < |keys|
        ensures keys[i] in Extend(m, keys) && Extend(m, keys)[keys[i]] == |m| + i + 1
      {
        if i < |keys| - 1 {
          assert keys[i] == init[i] && keys[i] != last;
        }
      }
    }
  }

  /** createVar on a key that is already present breaks the numbering: the
      map keeps its size while the key's new id exceeds it. */
  lemma RedeclareBreaksNumbering(m: map<Key, int>, key: Key)
    requires RegistryValid(m) && key in m
    ensures !RegistryValid(m[key := |m| + 1])
  {
    var m' := m[key := |m| + 1];
    assert |m'| == |m|;
    assert key in m' && m'[key] == |m'| + 1;
  }
}
