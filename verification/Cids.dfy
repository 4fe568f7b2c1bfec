/**
 * Unsigned varints (Go's encoding/binary) and the binary form of version-1 content identifiers.
 */
module Cids {
  import opened Prelude

  /** What reading a prefix of a byte string gives: a value and the bytes after it, or an error. */
  datatype Parsed<+T> = Fail | Got(value: T, rest: Bytes)

  // ----- varints -----

  function Uvarint(n: nat): (s: Bytes)
    ensures s != []
  {
    if n < 128 then [n] else [n % 128 + 128] + Uvarint(n / 128)
  }

  /** binary.ReadUvarint after i bytes: at most ten bytes, and the tenth at most 1. */
  function ReadUvarintFrom(s: Bytes, i: nat): (r: Parsed<nat>)
    requires i <= 10
    ensures r.Got? ==> |r.rest| < |s|
    decreases 10 - i
  {
    if i == 10 || s == [] then Fail
    else if s[0] < 128 then (if i == 9 && s[0] > 1 then Fail else Got(s[0], s[1..]))
    else
      match ReadUvarintFrom(s[1..], i + 1)
      case Fail => Fail
      case Got(high, rest) => Got(s[0] - 128 + 128 * high, rest)
  }

  function ReadUvarint(s: Bytes): (r: Parsed<nat>)
    ensures r.Got? ==> |r.rest| < |s|
  {
    ReadUvarintFrom(s, 0)
  }

  /** What still fits in a uint64 once i varint bytes have been read. */
  function Room(i: nat): nat
    requires i <= 9
    decreases 9 - i
  {
    if i == 9 then 2 else 128 * Room(i + 1)
  }

  lemma {:induction false} UvarintFrom(n: nat, rest: Bytes, i: nat)
    requires i <= 9 && n < Room(i)
    ensures ReadUvarintFrom(Uvarint(n) + rest, i) == Got(n, rest)
    decreases 9 - i
  {
    var s := Uvarint(n) + rest;
    if n < 128 {
      assert s[1..] == rest;
    } else {
      assert s[1..] == Uvarint(n / 128) + rest;
      UvarintFrom(n / 128, rest, i + 1);
    }
  }

  /** The number seven-bit groups stand for, the least significant first. */
  function Groups(s: Bytes): nat {
    if s == [] then 0 else s[0] % 128 + 128 * Groups(s[1..])
  }

  /** Every group but the last has the high bit set, and no group is wasted. */
  lemma {:induction false} UvarintMeans(n: nat)
    ensures var s := Uvarint(n);
            && s != [] && Groups(s) == n && (|s| > 1 ==> s[|s| - 1] != 0)
            && forall i :: 0 <= i < |s| ==> (s[i] >= 128 <==> i < |s| - 1)
  {
    if n >= 128 {
      UvarintMeans(n / 128);
      var s := Uvarint(n);
      assert s[1..] == Uvarint(n / 128);
    } else {
      assert Uvarint(n)[1..] == [];
    }
  }

  lemma UvarintRoundTrip(n: nat, rest: Bytes)
    requires n < TWO_64
    ensures ReadUvarint(Uvarint(n) + rest) == Got(n, rest)
  {
    assert Room(0) == 128 * 128 * 128 * Room(3) && Room(3) == 128 * 128 * 128 * Room(6) && Room(6) == 128 * 128 * 128 * Room(9);
    UvarintFrom(n, rest, 0);
  }

  // ----- content identifiers -----

  const DAG_CBOR := 0x71
  const RAW := 0x55

  type Code = n: nat | n < TWO_63
  type Digest = d: Bytes | |d| < 128

  datatype Cid = Cid(codec: Code, hash: Code, digest: Digest)

  function CidBytes(c: Cid): (s: Bytes)
    ensures s != []
  {
    Uvarint(1) + Uvarint(c.codec) + Uvarint(c.hash) + Uvarint(|c.digest|) + c.digest
  }

  /** cid.CidFromBytes, for version 1: the identifier at the head of s and the bytes after it. */
  function ReadCidBytes(s: Bytes): Parsed<Cid> {
    match ReadUvarint(s)
    case Fail => Fail
    case Got(version, s1) =>
      if version != 1 then Fail else
      match ReadUvarint(s1)
      case Fail => Fail
      case Got(codec, s2) =>
        match ReadUvarint(s2)
        case Fail => Fail
        case Got(hash, s3) =>
          match ReadUvarint(s3)
          case Fail => Fail
          case Got(len, s4) =>
            if codec < TWO_63 && hash < TWO_63 && len < 128 && len <= |s4|
            then Got(Cid(codec, hash, s4[..len]), s4[len..]) else Fail
  }

  lemma CidRoundTrip(c: Cid, rest: Bytes)
    ensures ReadCidBytes(CidBytes(c) + rest) == Got(c, rest)
  {
    hide Uvarint, ReadUvarint;
    var s4 := c.digest + rest;
    var s3 := Uvarint(|c.digest|) + s4;
    var s2 := Uvarint(c.hash) + s3;
    var s1 := Uvarint(c.codec) + s2;
    assert CidBytes(c) + rest == Uvarint(1) + s1;
    UvarintRoundTrip(1, s1);
    UvarintRoundTrip(c.codec, s2);
    UvarintRoundTrip(c.hash, s3);
    UvarintRoundTrip(|c.digest|, s4);
  }

  lemma CidBytesInjective(a: Cid, b: Cid)
    requires CidBytes(a) == CidBytes(b)
    ensures a == b
  {
    CidRoundTrip(a, []);
    CidRoundTrip(b, []);
  }

  lemma UvarintLength(n: nat)
    ensures n < 128 ==> |Uvarint(n)| == 1
    ensures n < TWO_63 ==> |Uvarint(n)| <= 9
  {
    if 128 <= n < TWO_63 {
      UvarintShort(n, 9);
    }
  }

  function Pow128(k: nat): nat { if k == 0 then 1 else 128 * Pow128(k - 1) }

  lemma {:induction false} UvarintShort(n: nat, k: nat)
    requires k > 0 && n < Pow128(k)
    ensures |Uvarint(n)| <= k
    decreases k
  {
    if n >= 128 { UvarintShort(n / 128, k - 1); }
  }

  lemma CidBytesShort(c: Cid)
    ensures |CidBytes(c)| < 150
  {
    UvarintLength(c.codec);
    UvarintLength(c.hash);
  }

  /** A varint may be padded, never shorter than the form Uvarint writes. */
  lemma {:induction false} ReadUvarintLength(s: Bytes, i: nat)
    requires i <= 10
    ensures var r := ReadUvarintFrom(s, i); r.Got? ==> |Uvarint(r.value)| + |r.rest| <= |s|
    decreases 10 - i
  {
    if i < 10 && s != [] && s[0] >= 128 {
      ReadUvarintLength(s[1..], i + 1);
      var r := ReadUvarintFrom(s, i);
      if r.Got? {
        var high := ReadUvarintFrom(s[1..], i + 1).value;
        assert r.value >= 128 ==> r.value / 128 == high;
      }
    }
  }

  /** Writing an identifier again takes no more bytes than were read for it. */
  lemma ReadCidLength(s: Bytes)
    ensures var r := ReadCidBytes(s); r.Got? ==> |CidBytes(r.value)| + |r.rest| <= |s|
  {
    hide Uvarint;
    ReadUvarintLength(s, 0);
    if ReadUvarint(s).Got? {
      var s1 := ReadUvarint(s).rest;
      ReadUvarintLength(s1, 0);
      if ReadUvarint(s1).Got? {
        var s2 := ReadUvarint(s1).rest;
        ReadUvarintLength(s2, 0);
        if ReadUvarint(s2).Got? { ReadUvarintLength(ReadUvarint(s2).rest, 0); }
      }
    }
  }
}
