/** Go's sort.Strings over the keys of a map: the one strictly increasing listing of a set. */
module SortedKeys {
  import opened Prelude

  predicate StrictlySorted(s: seq<Bytes>) {
    forall i, j :: 0 <= i < j < |s| ==> Lex(s[i], s[j])
  }

  lemma Least(s: set<Bytes>) returns (m: Bytes)
    requires s != {}
    ensures m in s && forall x :: x in s && x != m ==> Lex(m, x)
  {
    m :| m in s;
    var todo := s - {m};
    while todo != {}
      invariant m in s && todo <= s && m !in todo
      invariant forall x :: x in s && x !in todo && x != m ==> Lex(m, x)
      decreases todo
    {
      var x :| x in todo;
      todo := todo - {x};
      LexTotal(m, x);
      if Lex(x, m) {
        forall y | y in s && y !in todo && y != x ensures Lex(x, y) {
          if y != m { LexTransitive(x, m, y); }
        }
        m := x;
      }
    }
  }

  predicate IsLeast(m: Bytes, s: set<Bytes>) {
    m in s && forall x :: x in s && x != m ==> Lex(m, x)
  }

  lemma LeastExists(s: set<Bytes>)
    requires s != {}
    ensures exists m :: IsLeast(m, s)
  {
    var m := Least(s);
    assert IsLeast(m, s);
  }

  lemma LeastUnique(s: set<Bytes>, a: Bytes, b: Bytes)
    requires IsLeast(a, s) && IsLeast(b, s)
    ensures a == b
  {
    hide Lex;
    if a != b {
      LexTransitive(a, b, a);
      LexIrreflexive(a);
    }
  }

  function Sorted(s: set<Bytes>): seq<Bytes> {
    if s == {} then [] else
      assert exists m :: m in s && IsLeast(m, s) by { LeastExists(s); }
      assert forall a, b :: IsLeast(a, s) && IsLeast(b, s) ==> a == b by {
        forall a, b | IsLeast(a, s) && IsLeast(b, s) ensures a == b { LeastUnique(s, a, b); }
      }
      var m :| m in s && IsLeast(m, s);
      [m] + Sorted(s - {m})
  }

  lemma {:induction false} SortedCorrect(s: set<Bytes>)
    ensures ToSet(Sorted(s)) == s && |Sorted(s)| == |s| && StrictlySorted(Sorted(s))
    decreases s
  {
    hide Lex;
    if s != {} {
      var r := Sorted(s);
      var m, rest := r[0], r[1..];
      assert IsLeast(m, s) && rest == Sorted(s - {m});
      SortedCorrect(s - {m});
      assert forall x :: x in rest <==> x in s - {m} by {
        assert forall x :: x in rest <==> x in ToSet(rest);
      }
      assert forall x :: x in r <==> x == m || x in rest;
      forall j | 0 < j < |r| ensures Lex(r[0], r[j]) {
        assert r[j] == rest[j - 1] && r[j] in rest;
      }
    }
  }

  lemma {:induction false} SortedUnique(a: seq<Bytes>, b: seq<Bytes>)
    requires StrictlySorted(a) && StrictlySorted(b) && ToSet(a) == ToSet(b)
    ensures a == b
    decreases |a|
  {
    assert forall x :: x in a <==> x in ToSet(a);
    assert forall x :: x in b <==> x in ToSet(b);
    assert a == [] ==> b == [] by { if b != [] { assert b[0] in b; } }
    assert b == [] ==> a == [] by { if a != [] { assert a[0] in a; } }
    if a != [] {
      assert a[0] in b && b[0] in a;
      if a[0] != b[0] {
        assert Lex(b[0], a[0]) && Lex(a[0], b[0]);
        LexTransitive(a[0], b[0], a[0]);
        LexIrreflexive(a[0]);
      }
      forall x ensures x in a[1..] <==> x in b[1..] {
        assert x in a[1..] ==> x in ToSet(a) && x != a[0] by {
          LexIrreflexive(a[0]);
        }
        assert x in b[1..] ==> x in ToSet(b) && x != b[0] by {
          LexIrreflexive(b[0]);
        }
      }
      assert ToSet(a[1..]) == ToSet(b[1..]);
      SortedUnique(a[1..], b[1..]);
      assert a == [a[0]] + a[1..] && b == [b[0]] + b[1..];
    }
  }

  method Insert(s: seq<Bytes>, k: Bytes) returns (r: seq<Bytes>)
    requires StrictlySorted(s) && k !in s
    ensures StrictlySorted(r) && ToSet(r) == ToSet(s) + {k}
  {
    var i := 0;
    while i < |s| && Lex(s[i], k)
      invariant i <= |s| && forall j :: 0 <= j < i ==> Lex(s[j], k)
    {
      i := i + 1;
    }
    r := s[..i] + [k] + s[i..];
    forall j | i <= j < |s| ensures Lex(k, s[j]) {
      LexTotal(k, s[i]);
      if j > i { LexTransitive(k, s[i], s[j]); }
    }
    forall x ensures x in r <==> x in s || x == k {
      assert s == s[..i] + s[i..];
    }
  }

  /** The keys collected in whatever order the map yields them, then sorted. */
  method SortKeys<V>(m: map<Bytes, V>) returns (keys: seq<Bytes>)
    ensures keys == Sorted(m.Keys)
  {
    keys := [];
    var todo := m.Keys;
    while todo != {}
      invariant todo <= m.Keys && ToSet(keys) == m.Keys - todo && StrictlySorted(keys)
      decreases todo
    {
      var k :| k in todo;
      assert k !in ToSet(keys);
      keys := Insert(keys, k);
      todo := todo - {k};
    }
    SortedCorrect(m.Keys);
    SortedUnique(keys, Sorted(m.Keys));
  }
}
