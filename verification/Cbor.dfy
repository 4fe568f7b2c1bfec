/**
 * The CBOR data items the generated codecs read and write: RFC 8949 sections 3 and 3.1, in the
 * canonical form that whyrusleeping/cbor-gen writes and insists on when reading.
 */
module Cbor {
  import opened Prelude
  import opened Cids

  const MAJ_UINT := 0
  const MAJ_NEGINT := 1
  const MAJ_BYTES := 2
  const MAJ_TEXT := 3
  const MAJ_ARRAY := 4
  const MAJ_MAP := 5
  const MAJ_TAG := 6
  const MAJ_OTHER := 7

  /** The encoded null. */
  const NULL: byte := 0xf6

  /** The tag of a content identifier. */
  const CID_TAG := 42

  type Major = m: nat | m < 8

  // ----- big-endian integers -----

  function Pow256(k: nat): nat {
    if k == 0 then 1 else 256 * Pow256(k - 1)
  }

  function BigEndian(n: nat, k: nat): (s: Bytes)
    ensures |s| == k
  {
    if k == 0 then [] else BigEndian(n / 256, k - 1) + [n % 256]
  }

  function Value(s: Bytes): nat {
    if s == [] then 0 else 256 * Value(s[..|s| - 1]) + s[|s| - 1]
  }

  lemma {:induction false} BigEndianValue(n: nat, k: nat)
    requires n < Pow256(k)
    ensures Value(BigEndian(n, k)) == n
    decreases k
  {
    if k > 0 {
      BigEndianValue(n / 256, k - 1);
      assert BigEndian(n, k)[..k - 1] == BigEndian(n / 256, k - 1);
    }
  }

  lemma {:induction false} ValueBigEndian(s: Bytes)
    ensures Value(s) < Pow256(|s|) && BigEndian(Value(s), |s|) == s
  {
    if s != [] {
      var high, low := s[..|s| - 1], s[|s| - 1];
      ValueBigEndian(high);
      assert Value(s) / 256 == Value(high) && Value(s) % 256 == low;
      assert s == high + [low];
    }
  }

  // ----- headers -----

  /** How many bytes after the first one hold the argument n. */
  function ArgBytes(n: nat): nat {
    if n < 24 then 0 else if n < 0x100 then 1 else if n < 0x1_0000 then 2 else if n < 0x1_0000_0000 then 4 else 8
  }

  /** The argument n can be held by k bytes after the first one, or in the first one. */
  predicate Holds(k: nat, n: nat) {
    k in {0, 1, 2, 4, 8} && if k == 0 then n < 24 else n < Pow256(k)
  }

  /** The shortest form there is for the argument is taken (RFC 8949, section 3). */
  lemma ArgBytesLeast(n: nat, k: nat)
    requires n < TWO_64
    ensures Holds(ArgBytes(n), n) && (Holds(k, n) ==> ArgBytes(n) <= k)
  {
    assert Pow256(1) == 0x100 && Pow256(2) == 0x1_0000;
    assert Pow256(4) == 256 * 256 * Pow256(2) == 0x1_0000_0000;
    assert Pow256(8) == 256 * 256 * 256 * 256 * Pow256(4);
  }

  /** The bytes of an argument are ordered as the numbers are: the most significant comes first. */
  lemma {:induction false} BigEndianOrder(m: nat, n: nat, k: nat)
    requires m < Pow256(k) && n < Pow256(k)
    ensures Lex(BigEndian(m, k), BigEndian(n, k)) <==> m < n
    decreases k
  {
    if k > 0 {
      var a, b := BigEndian(m / 256, k - 1), BigEndian(n / 256, k - 1);
      var x, y: byte := m % 256, n % 256;
      BigEndianOrder(m / 256, n / 256, k - 1);
      LexAppend(a, b, [x], [y]);
      if a == b {
        BigEndianValue(m / 256, k - 1);
        BigEndianValue(n / 256, k - 1);
      }
      assert Lex([x], [y]) <==> x < y;
    }
  }

  /** The additional-information bits that announce k argument bytes. */
  function Info(k: nat): nat {
    if k == 1 then 24 else if k == 2 then 25 else if k == 4 then 26 else 27
  }

  function Header(maj: Major, n: nat): (s: Bytes)
    requires n < TWO_64
    ensures s != []
  {
    var k := ArgBytes(n);
    if k == 0 then [maj * 32 + n] else [maj * 32 + Info(k)] + BigEndian(n, k)
  }

  lemma HeaderLength(maj: Major, n: nat)
    requires n < TWO_64
    ensures |Header(maj, n)| <= 9
  {
    hide BigEndian;
  }

  function MajorOf(b: byte): Major { b / 32 }

  function InfoOf(b: byte): nat { b % 32 }

  /** How many argument bytes the additional-information bits announce; None when they are reserved. */
  function ArgLength(info: nat): Option<nat> {
    if info < 24 then Some(0) else if info == 24 then Some(1) else if info == 25 then Some(2)
    else if info == 26 then Some(4) else if info == 27 then Some(8) else None
  }

  /** CborReadHeader: an argument that would fit in fewer bytes is an error. */
  function ReadHeader(s: Bytes): (r: Parsed<(Major, nat)>)
    ensures r.Got? ==> |r.rest| < |s| && r.value.1 < TWO_64
  {
    if s == [] then Fail else
      match ArgLength(InfoOf(s[0]))
      case None => Fail
      case Some(k) =>
        if k == 0 then Got((MajorOf(s[0]), InfoOf(s[0])), s[1..])
        else if |s| <= k then Fail
        else
          var arg := s[1..1 + k];
          ValueBound(arg, k);
          if ArgBytes(Value(arg)) != k then Fail else Got((MajorOf(s[0]), Value(arg)), s[1 + k..])
  }

  lemma ValueBound(s: Bytes, k: nat)
    requires |s| == k <= 8
    ensures Value(s) < TWO_64
  {
    ValueBigEndian(s);
    Pow256Values();
    if k < 8 { Pow256Monotone(k, 8); }
  }

  lemma Pow256Values()
    ensures Pow256(1) == 0x100 && Pow256(2) == 0x1_0000 && Pow256(4) == 0x1_0000_0000 && Pow256(8) == TWO_64
  {
    assert Pow256(4) == 256 * 256 * Pow256(2);
    assert Pow256(8) == 256 * 256 * 256 * 256 * Pow256(4);
  }

  lemma {:induction false} Pow256Monotone(i: nat, j: nat)
    requires i <= j
    ensures Pow256(i) <= Pow256(j)
    decreases j - i
  {
    if i < j { Pow256Monotone(i, j - 1); }
  }

  lemma ArgFits(n: nat)
    requires 24 <= n < TWO_64
    ensures n < Pow256(ArgBytes(n))
  {
    Pow256Values();
  }

  lemma FirstByte(maj: Major, info: nat)
    requires info < 32
    ensures MajorOf(maj * 32 + info) == maj && InfoOf(maj * 32 + info) == info
  {
  }

  lemma HeaderRoundTrip(maj: Major, n: nat, rest: Bytes)
    requires n < TWO_64
    ensures ReadHeader(Header(maj, n) + rest) == Got((maj, n), rest)
  {
    hide MajorOf, InfoOf, Value, BigEndian, Pow256;
    var k := ArgBytes(n);
    var s := Header(maj, n) + rest;
    FirstByte(maj, if k == 0 then n else Info(k));
    if k == 0 {
      assert s[1..] == rest;
    } else {
      ArgFits(n);
      BigEndianValue(n, k);
      assert s[1..1 + k] == BigEndian(n, k) && s[1 + k..] == rest;
    }
  }

  /** Only the canonical header is accepted: what was read is exactly what would be written. */
  lemma HeaderCanonical(s: Bytes)
    requires ReadHeader(s).Got?
    ensures var r := ReadHeader(s); s == Header(r.value.0, r.value.1) + r.rest
  {
    hide Value, BigEndian;
    var r := ReadHeader(s);
    var k := ArgLength(InfoOf(s[0])).value;
    assert s[0] == MajorOf(s[0]) * 32 + InfoOf(s[0]);
    assert r.rest == s[1 + k..] && r.value.0 == MajorOf(s[0]) && ArgBytes(r.value.1) == k;
    if k == 0 {
      assert s == [s[0]] + s[1..];
    } else {
      var arg := s[1..1 + k];
      assert BigEndian(r.value.1, k) == arg by { ValueBigEndian(arg); }
      assert Info(k) == InfoOf(s[0]);
      assert Header(r.value.0, r.value.1) == [s[0]] + arg;
      assert s == [s[0]] + arg + s[1 + k..];
    }
  }

  // ----- strings and identifiers -----

  const MAX_STRING := 1000000

  function Text(t: Bytes): Bytes
    requires |t| < TWO_64
  {
    Header(MAJ_TEXT, |t|) + t
  }

  /** ReadStringWithMax. */
  function ReadText(s: Bytes): (r: Parsed<Bytes>)
    ensures r.Got? ==> |r.rest| < |s|
  {
    match ReadHeader(s)
    case Fail => Fail
    case Got(h, rest) =>
      if h.0 != MAJ_TEXT || h.1 > MAX_STRING || h.1 > |rest| then Fail else Got(rest[..h.1], rest[h.1..])
  }

  lemma TextRoundTrip(t: Bytes, rest: Bytes)
    requires |t| <= MAX_STRING
    ensures ReadText(Text(t) + rest) == Got(t, rest)
  {
    hide Header, ReadHeader;
    assert Text(t) + rest == Header(MAJ_TEXT, |t|) + (t + rest);
    HeaderRoundTrip(MAJ_TEXT, |t|, t + rest);
  }

  function ByteString(b: Bytes): Bytes
    requires |b| < TWO_64
  {
    Header(MAJ_BYTES, |b|) + b
  }

  function ReadByteString(s: Bytes, max: nat): (r: Parsed<Bytes>)
    ensures r.Got? ==> |r.rest| < |s|
  {
    match ReadHeader(s)
    case Fail => Fail
    case Got(h, rest) =>
      if h.1 > max || h.0 != MAJ_BYTES || h.1 > |rest| then Fail else Got(rest[..h.1], rest[h.1..])
  }

  lemma ByteStringRoundTrip(b: Bytes, max: nat, rest: Bytes)
    requires |b| <= max < TWO_64
    ensures ReadByteString(ByteString(b) + rest, max) == Got(b, rest)
  {
    hide Header, ReadHeader;
    assert ByteString(b) + rest == Header(MAJ_BYTES, |b|) + (b + rest);
    HeaderRoundTrip(MAJ_BYTES, |b|, b + rest);
  }

  /** The longest byte string cbor-gen's ReadCid accepts. */
  const MAX_CID_ITEM := 512

  /** WriteCid: the tag, then a byte string starting with the multibase identity prefix 0. */
  function CidItem(c: Cid): Bytes {
    CidBytesShort(c);
    Header(MAJ_TAG, CID_TAG) + ByteString([0] + CidBytes(c))
  }

  /** ReadCid. */
  function ReadCidItem(s: Bytes): Parsed<Cid> {
    match ReadHeader(s)
    case Fail => Fail
    case Got(h, s1) =>
      if h != (MAJ_TAG, CID_TAG) then Fail else
      match ReadByteString(s1, MAX_CID_ITEM)
      case Fail => Fail
      case Got(b, rest) =>
        if b == [] || b[0] != 0 then Fail else
        match ReadCidBytes(b[1..])
        case Fail => Fail
        case Got(c, left) => if left == [] then Got(c, rest) else Fail
  }

  lemma CidItemRoundTrip(c: Cid, rest: Bytes)
    ensures ReadCidItem(CidItem(c) + rest) == Got(c, rest)
  {
    hide Header, ReadHeader, ByteString, ReadByteString, CidBytes, ReadCidBytes;
    CidBytesShort(c);
    var b := [0] + CidBytes(c);
    assert CidItem(c) + rest == Header(MAJ_TAG, CID_TAG) + (ByteString(b) + rest);
    HeaderRoundTrip(MAJ_TAG, CID_TAG, ByteString(b) + rest);
    ByteStringRoundTrip(b, MAX_CID_ITEM, rest);
    assert b[1..] == CidBytes(c) == CidBytes(c) + [];
    CidRoundTrip(c, []);
  }

  // ----- scanning one item for links -----

  /** The longest link ScanForLinks accepts. */
  const MAX_LINK := 100

  /**
   * ScanForLinks with `remaining` items still to read: skips them, whatever they are, and
   * collects the content identifiers in them in order.
   */
  function Scan(s: Bytes, remaining: nat): Parsed<seq<Cid>>
    decreases |s|
  {
    if remaining == 0 then Got([], s) else
    match ReadHeader(s)
    case Fail => Fail
    case Got(h, rest) =>
      var (maj, n) := h;
      if maj == MAJ_BYTES || maj == MAJ_TEXT then
        if n > |rest| then Fail else Scan(rest[n..], remaining - 1)
      else if maj == MAJ_TAG && n == CID_TAG then
        match ReadByteString(rest, MAX_LINK)
        case Fail => Fail
        case Got(b, rest2) =>
          if b == [] then Fail else
          match ReadCidBytes(b[1..])
          case Fail => Fail
          case Got(c, left) =>
            if left != [] then Fail else
            match Scan(rest2, remaining - 1)
            case Fail => Fail
            case Got(cs, end) => Got([c] + cs, end)
      else if maj == MAJ_TAG then Scan(rest, remaining)
      else if maj == MAJ_ARRAY then Scan(rest, remaining - 1 + n)
      else if maj == MAJ_MAP then Scan(rest, remaining - 1 + 2 * n)
      else Scan(rest, remaining - 1)
  }

  lemma HeaderExtends(s: Bytes, t: Bytes)
    requires ReadHeader(s).Got?
    ensures ReadHeader(s + t) == Got(ReadHeader(s).value, ReadHeader(s).rest + t)
  {
    hide Value, ArgBytes;
    var k := ArgLength(InfoOf(s[0])).value;
    assert (s + t)[1..] == s[1..] + t;
    if k > 0 {
      assert (s + t)[1..1 + k] == s[1..1 + k] && (s + t)[1 + k..] == s[1 + k..] + t;
    }
  }

  lemma ByteStringExtends(s: Bytes, t: Bytes, max: nat)
    requires ReadByteString(s, max).Got?
    ensures ReadByteString(s + t, max) == Got(ReadByteString(s, max).value, ReadByteString(s, max).rest + t)
  {
    hide ReadHeader;
    HeaderExtends(s, t);
    var n, rest := ReadHeader(s).value.1, ReadHeader(s).rest;
    assert (rest + t)[..n] == rest[..n] && (rest + t)[n..] == rest[n..] + t;
  }

  /** Scanning well-formed items stops after them, whatever follows. */
  lemma {:induction false} ScanExtends(s: Bytes, t: Bytes, remaining: nat)
    requires Scan(s, remaining).Got?
    ensures Scan(s + t, remaining) == Got(Scan(s, remaining).value, Scan(s, remaining).rest + t)
    decreases |s|
  {
    hide ReadHeader, ReadByteString, ReadCidBytes;
    if remaining > 0 {
      HeaderExtends(s, t);
      var (maj, n) := ReadHeader(s).value;
      var rest := ReadHeader(s).rest;
      if maj == MAJ_BYTES || maj == MAJ_TEXT {
        assert (rest + t)[n..] == rest[n..] + t;
        ScanExtends(rest[n..], t, remaining - 1);
      } else if maj == MAJ_TAG && n == CID_TAG {
        ByteStringExtends(rest, t, MAX_LINK);
        ScanExtends(ReadByteString(rest, MAX_LINK).rest, t, remaining - 1);
      } else if maj == MAJ_TAG {
        ScanExtends(rest, t, remaining);
      } else if maj == MAJ_ARRAY {
        ScanExtends(rest, t, remaining - 1 + n);
      } else if maj == MAJ_MAP {
        ScanExtends(rest, t, remaining - 1 + 2 * n);
      } else {
        ScanExtends(rest, t, remaining - 1);
      }
    }
  }

  /** The links of a block, when its first item is well formed. */
  function ScanForLinks(data: Bytes): Option<seq<Cid>> {
    match Scan(data, 1)
    case Fail => None
    case Got(cs, _) => Some(cs)
  }
}
