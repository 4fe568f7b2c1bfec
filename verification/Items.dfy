/**
 * CBOR data items as trees (RFC 8949, section 3), and what cbor-gen's ScanForLinks finds in their
 * encodings: the links in them, in the order they are written.
 */
module Items {
  import opened Prelude
  import opened Cids
  import opened Cbor

  datatype Item =
    | Uint(n: nat)
    | Negint(n: nat)       // the number -1 - n
    | Simple(n: nat)       // false, true, null and the like
    | Octets(bytes: Bytes)
    | Words(text: Bytes)
    | Link(cid: Cid)
    | List(items: seq<Item>)
    | Dict(entries: seq<Pair>)
    | Tagged(tag: nat, item: Item)

  datatype Pair = Pair(key: Item, val: Item)

  /** Arguments and lengths are of 64 bits; the tag of a link is only for links. */
  predicate WellFormed(i: Item) {
    match i
    case Uint(n) => n < TWO_64
    case Negint(n) => n < TWO_64
    case Simple(n) => n < TWO_64
    case Octets(b) => |b| < TWO_64
    case Words(t) => |t| < TWO_64
    case Link(_) => true
    case List(items) => |items| < TWO_64 && forall x :: x in items ==> WellFormed(x)
    case Dict(entries) => |entries| < TWO_64 && forall e :: e in entries ==> WellFormedPair(e)
    case Tagged(tag, x) => tag < TWO_64 && tag != CID_TAG && WellFormed(x)
  }

  predicate WellFormedPair(e: Pair) { WellFormed(e.key) && WellFormed(e.val) }

  function Encode(i: Item): Bytes
    requires WellFormed(i)
    decreases i
  {
    match i
    case Uint(n) => Header(MAJ_UINT, n)
    case Negint(n) => Header(MAJ_NEGINT, n)
    case Simple(n) => Header(MAJ_OTHER, n)
    case Octets(b) => ByteString(b)
    case Words(t) => Text(t)
    case Link(c) => CidItem(c)
    case List(items) => Header(MAJ_ARRAY, |items|) + EncodeList(items)
    case Dict(entries) => Header(MAJ_MAP, |entries|) + EncodeEntries(entries)
    case Tagged(tag, x) => Header(MAJ_TAG, tag) + Encode(x)
  }

  function EncodeList(items: seq<Item>): Bytes
    requires forall x :: x in items ==> WellFormed(x)
    decreases items
  {
    if items == [] then [] else Encode(items[0]) + EncodeList(items[1..])
  }

  function EncodeEntries(entries: seq<Pair>): Bytes
    requires forall e :: e in entries ==> WellFormedPair(e)
    decreases entries
  {
    if entries == [] then [] else EncodePair(entries[0]) + EncodeEntries(entries[1..])
  }

  function EncodePair(e: Pair): Bytes
    requires WellFormedPair(e)
    decreases e
  {
    Encode(e.key) + Encode(e.val)
  }

  /** The links in an item, in the order they are written. */
  function LinksIn(i: Item): seq<Cid>
    decreases i
  {
    match i
    case Link(c) => [c]
    case List(items) => ListLinks(items)
    case Dict(entries) => EntryLinks(entries)
    case Tagged(_, x) => LinksIn(x)
    case _ => []
  }

  function ListLinks(items: seq<Item>): seq<Cid>
    decreases items
  {
    if items == [] then [] else LinksIn(items[0]) + ListLinks(items[1..])
  }

  function EntryLinks(entries: seq<Pair>): seq<Cid>
    decreases entries
  {
    if entries == [] then [] else LinksOfPair(entries[0]) + EntryLinks(entries[1..])
  }

  function LinksOfPair(e: Pair): seq<Cid>
    decreases e
  {
    LinksIn(e.key) + LinksIn(e.val)
  }

  /** A link that ScanForLinks reads; on a longer one it fails. */
  predicate Short(c: Cid) { |CidBytes(c)| < MAX_LINK }

  predicate AllShort(cs: seq<Cid>) {
    forall i :: 0 <= i < |cs| ==> Short(cs[i])
  }

  /** The scan of what follows, once these links have been found. */
  function After(cs: seq<Cid>, p: Parsed<seq<Cid>>): Parsed<seq<Cid>> {
    if !AllShort(cs) || p.Fail? then Fail else Got(cs + p.value, p.rest)
  }

  lemma AfterBoth(a: seq<Cid>, b: seq<Cid>, p: Parsed<seq<Cid>>)
    ensures After(a, After(b, p)) == After(a + b, p)
  {
    hide Short;
    var c := a + b;
    assert forall i :: 0 <= i < |a| ==> c[i] == a[i];
    assert forall i :: 0 <= i < |b| ==> c[|a| + i] == b[i];
    if p.Got? { assert a + (b + p.value) == c + p.value; }
  }

  lemma AfterNone(p: Parsed<seq<Cid>>)
    ensures After([], p) == p
  {
    if p.Got? { assert [] + p.value == p.value; }
  }

  /** Scanning an item finds its links and goes on with what follows, or fails on a link too long. */
  lemma {:induction false} ScanItem(i: Item, rest: Bytes, k: nat)
    requires WellFormed(i)
    ensures Scan(Encode(i) + rest, k + 1) == After(LinksIn(i), Scan(rest, k))
    decreases i
  {
    hide Header, ReadHeader, CidBytes, ReadCidBytes, After, Scan;
    AfterNone(Scan(rest, k));
    match i {
      case Uint(n) => ScanNumber(MAJ_UINT, n, rest, k);
      case Negint(n) => ScanNumber(MAJ_NEGINT, n, rest, k);
      case Simple(n) => ScanNumber(MAJ_OTHER, n, rest, k);
      case Octets(b) => ScanString(MAJ_BYTES, b, rest, k);
      case Words(t) => ScanString(MAJ_TEXT, t, rest, k);
      case Link(c) => ScanLink(c, rest, k);
      case List(items) =>
        ScanList(items, rest, k);
        var body := EncodeList(items) + rest;
        assert Encode(i) + rest == Header(MAJ_ARRAY, |items|) + body;
        ScanHead(MAJ_ARRAY, |items|, body, k);
      case Dict(entries) =>
        ScanEntries(entries, rest, k);
        var body := EncodeEntries(entries) + rest;
        assert Encode(i) + rest == Header(MAJ_MAP, |entries|) + body;
        ScanHead(MAJ_MAP, |entries|, body, k);
      case Tagged(tag, x) =>
        ScanItem(x, rest, k);
        var body := Encode(x) + rest;
        assert Encode(i) + rest == Header(MAJ_TAG, tag) + body;
        ScanHead(MAJ_TAG, tag, body, k);
    }
  }

  lemma {:induction false} ScanList(items: seq<Item>, rest: Bytes, k: nat)
    requires forall x :: x in items ==> WellFormed(x)
    ensures Scan(EncodeList(items) + rest, |items| + k) == After(ListLinks(items), Scan(rest, k))
    decreases items
  {
    hide Scan, After, WellFormed;
    if items == [] {
      assert EncodeList(items) + rest == rest;
      AfterNone(Scan(rest, k));
    } else {
      var more := EncodeList(items[1..]) + rest;
      assert EncodeList(items) + rest == Encode(items[0]) + more;
      ScanItem(items[0], more, |items| - 1 + k);
      ScanList(items[1..], rest, k);
      AfterBoth(LinksIn(items[0]), ListLinks(items[1..]), Scan(rest, k));
    }
  }

  lemma {:induction false} ScanEntries(entries: seq<Pair>, rest: Bytes, k: nat)
    requires forall e :: e in entries ==> WellFormedPair(e)
    ensures Scan(EncodeEntries(entries) + rest, |entries| + |entries| + k) == After(EntryLinks(entries), Scan(rest, k))
    decreases entries
  {
    hide Scan, After, WellFormedPair;
    if entries == [] {
      assert EncodeEntries(entries) + rest == rest;
      AfterNone(Scan(rest, k));
    } else {
      var more := EncodeEntries(entries[1..]) + rest;
      assert EncodeEntries(entries) + rest == EncodePair(entries[0]) + more;
      ScanPair(entries[0], more, 2 * (|entries| - 1) + k);
      ScanEntries(entries[1..], rest, k);
      AfterBoth(LinksOfPair(entries[0]), EntryLinks(entries[1..]), Scan(rest, k));
    }
  }

  /** A key and its value are two items. */
  lemma {:induction false} ScanPair(e: Pair, rest: Bytes, k: nat)
    requires WellFormedPair(e)
    ensures Scan(EncodePair(e) + rest, k + 2) == After(LinksOfPair(e), Scan(rest, k))
    decreases e
  {
    hide Scan, After, WellFormed;
    assert EncodePair(e) + rest == Encode(e.key) + (Encode(e.val) + rest);
    ScanItem(e.key, Encode(e.val) + rest, k + 1);
    ScanItem(e.val, rest, k);
    AfterBoth(LinksIn(e.key), LinksIn(e.val), Scan(rest, k));
  }

  lemma ScanNumber(maj: Major, n: nat, rest: Bytes, k: nat)
    requires n < TWO_64 && maj in {MAJ_UINT, MAJ_NEGINT, MAJ_OTHER}
    ensures Scan(Header(maj, n) + rest, k + 1) == Scan(rest, k)
  {
    hide Header, ReadHeader;
    HeaderRoundTrip(maj, n, rest);
  }

  lemma ScanString(maj: Major, b: Bytes, rest: Bytes, k: nat)
    requires |b| < TWO_64 && maj in {MAJ_BYTES, MAJ_TEXT}
    ensures Scan((Header(maj, |b|) + b) + rest, k + 1) == Scan(rest, k)
  {
    hide Header, ReadHeader;
    assert (Header(maj, |b|) + b) + rest == Header(maj, |b|) + (b + rest);
    HeaderRoundTrip(maj, |b|, b + rest);
    assert (b + rest)[|b|..] == rest;
  }

  /** A container of n items counts as n more to read, or 2n for a map; a tag counts as none. */
  lemma ScanHead(maj: Major, n: nat, body: Bytes, k: nat)
    requires n < TWO_64 && maj in {MAJ_ARRAY, MAJ_MAP, MAJ_TAG} && (maj == MAJ_TAG ==> n != CID_TAG)
    ensures Scan(Header(maj, n) + body, k + 1) ==
            Scan(body, if maj == MAJ_ARRAY then n + k else if maj == MAJ_MAP then n + n + k else k + 1)
  {
    hide Header, ReadHeader;
    HeaderRoundTrip(maj, n, body);
  }

  lemma ScanLink(c: Cid, rest: Bytes, k: nat)
    ensures Scan(CidItem(c) + rest, k + 1) == After([c], Scan(rest, k))
  {
    hide Header, ReadHeader, CidBytes, ReadCidBytes;
    CidBytesShort(c);
    var b := [0] + CidBytes(c);
    var tail := ByteString(b) + rest;
    assert CidItem(c) + rest == Header(MAJ_TAG, CID_TAG) + tail;
    HeaderRoundTrip(MAJ_TAG, CID_TAG, tail);
    assert tail == Header(MAJ_BYTES, |b|) + (b + rest);
    HeaderRoundTrip(MAJ_BYTES, |b|, b + rest);
    assert (b + rest)[..|b|] == b && (b + rest)[|b|..] == rest;
    assert b[1..] == CidBytes(c) == CidBytes(c) + [];
    CidRoundTrip(c, []);
    assert [c][0] == c;
  }

  /** The links of a block are those of its item. */
  lemma LinksFound(i: Item)
    requires WellFormed(i)
    ensures ScanForLinks(Encode(i)) == if AllShort(LinksIn(i)) then Some(LinksIn(i)) else None
  {
    hide Encode, LinksIn, AllShort;
    ScanItem(i, [], 0);
    assert Encode(i) + [] == Encode(i);
    assert LinksIn(i) + [] == LinksIn(i);
  }
}
