/** Values shared by every module: bytes, optional values, results, and Go's string order. */
module Prelude {

  datatype Option<+T> = None | Some(value: T)

  datatype Result<+T, +E> = Ok(value: T) | Err(error: E)

  type byte = b: nat | b < 256

  type Bytes = seq<byte>

  const TWO_63 := 0x8000_0000_0000_0000
  const TWO_64 := 0x1_0000_0000_0000_0000

  /** The strict order of Go's `<` on strings: bytewise, a proper prefix comes first. */
  predicate Lex(a: Bytes, b: Bytes) {
    b != [] && (a == [] || a[0] < b[0] || (a[0] == b[0] && Lex(a[1..], b[1..])))
  }

  lemma {:induction false} LexIrreflexive(a: Bytes)
    ensures !Lex(a, a)
  {
    if a != [] { LexIrreflexive(a[1..]); }
  }

  lemma {:induction false} LexTransitive(a: Bytes, b: Bytes, c: Bytes)
    requires Lex(a, b) && Lex(b, c)
    ensures Lex(a, c)
  {
    if a != [] && a[0] == b[0] == c[0] { LexTransitive(a[1..], b[1..], c[1..]); }
  }

  lemma {:induction false} LexTotal(a: Bytes, b: Bytes)
    ensures a == b || Lex(a, b) || Lex(b, a)
  {
    if a != [] && b != [] && a[0] == b[0] {
      LexTotal(a[1..], b[1..]);
      assert a == [a[0]] + a[1..] && b == [b[0]] + b[1..];
    }
  }

  lemma {:induction false} LexAppend(a: Bytes, b: Bytes, x: Bytes, y: Bytes)
    requires |a| == |b|
    ensures Lex(a + x, b + y) <==> Lex(a, b) || (a == b && Lex(x, y))
  {
    if a == [] {
      assert a + x == x && b + y == y;
    } else {
      assert (a + x)[1..] == a[1..] + x && (b + y)[1..] == b[1..] + y;
      assert a == [a[0]] + a[1..] && b == [b[0]] + b[1..];
      LexAppend(a[1..], b[1..], x, y);
    }
  }

  /** The first difference decides; without one, the shorter string comes first. */
  lemma {:induction false} LexMeans(a: Bytes, b: Bytes)
    ensures Lex(a, b) <==> a < b || exists i :: FirstDiffers(a, b, i) && a[i] < b[i]
  {
    if a == [] || b == [] {
    } else if a[0] != b[0] {
      assert a[0] < b[0] ==> FirstDiffers(a, b, 0);
    } else {
      LexMeans(a[1..], b[1..]);
      assert a == [a[0]] + a[1..] && b == [b[0]] + b[1..];
      assert a < b <==> a[1..] < b[1..];
      if i :| FirstDiffers(a[1..], b[1..], i) && a[1..][i] < b[1..][i] {
        DiffersAfter(a, b, i);
      }
      if i :| FirstDiffers(a, b, i) && a[i] < b[i] {
        DiffersAfter(a, b, i - 1);
      }
    }
  }

  predicate FirstDiffers(a: Bytes, b: Bytes, i: int) {
    0 <= i < |a| && i < |b| && a[i] != b[i] && a[..i] == b[..i]
  }

  lemma DiffersAfter(a: Bytes, b: Bytes, i: int)
    requires a != [] && b != [] && a[0] == b[0]
    ensures FirstDiffers(a[1..], b[1..], i) <==> i >= 0 && FirstDiffers(a, b, i + 1)
  {
    if 0 <= i < |a| - 1 && i < |b| - 1 {
      assert a[..i + 1] == [a[0]] + a[1..][..i] && b[..i + 1] == [b[0]] + b[1..][..i];
      assert a[1..][..i] == a[..i + 1][1..] && b[1..][..i] == b[..i + 1][1..];
    }
  }

  predicate NoDup<T(==)>(s: seq<T>) {
    forall i, j :: 0 <= i < j < |s| ==> s[i] != s[j]
  }

  function ToSet<T>(s: seq<T>): set<T> {
    set x | x in s
  }
}
