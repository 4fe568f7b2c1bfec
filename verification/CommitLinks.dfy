/**
 * The header of a shard file and a commit block as CBOR data items, and what the traversals find in
 * a commit block: for ScanForLinks, it is its tree and the commit before it.
 */
module CommitLinks {
  import opened Prelude
  import opened Cids
  import opened Cbor
  import opened Items
  import opened Records
  import opened CommitCodec
  import opened Graph
  import opened Traversals
  import CarFile

  // ----- the header of a shard file -----

  /** The header is one CBOR map: the roots, of which there is one, and version 1 of the format. */
  function HeaderMap(root: Cid): Item {
    Dict([Pair(Words(CarFile.ROOTS), List([Link(root)])), Pair(Words(CarFile.VERSION), Uint(1))])
  }

  lemma HeaderItem(root: Cid)
    ensures WellFormed(HeaderMap(root)) && CarFile.HeaderCbor(root) == Encode(HeaderMap(root))
  {
    HeaderFits(root);
    hide CarFile.ROOTS, CarFile.VERSION, HeaderMap, WellFormed, Encode, Header, Text, CidItem;
    Regroup(CarFile.HeaderCbor(root), Encode(HeaderMap(root)),
            Header(MAJ_MAP, 2), Text(CarFile.ROOTS), Header(MAJ_ARRAY, 1), CidItem(root), Text(CarFile.VERSION), Header(MAJ_UINT, 1));
  }

  lemma HeaderFits(root: Cid)
    ensures |CarFile.ROOTS| == 5 && |CarFile.VERSION| == 7
    ensures WellFormed(HeaderMap(root))
    ensures Encode(HeaderMap(root)) == Header(MAJ_MAP, 2) +
            ((Text(CarFile.ROOTS) + (Header(MAJ_ARRAY, 1) + CidItem(root))) + (Text(CarFile.VERSION) + Header(MAJ_UINT, 1)))
  {
    hide Header, Text, CidItem;
    var roots, version := Pair(Words(CarFile.ROOTS), List([Link(root)])), Pair(Words(CarFile.VERSION), Uint(1));
    assert WellFormed(Words(CarFile.ROOTS)) && WellFormed(Words(CarFile.VERSION)) && WellFormed(Uint(1));
    hide CarFile.ROOTS, CarFile.VERSION;
    assert WellFormed(Link(root)) && WellFormed(List([Link(root)]));
    assert WellFormedPair(roots) && WellFormedPair(version);
    HeaderEntries(root, roots, version);
    hide EncodeEntries;
  }

  lemma HeaderEntries(root: Cid, roots: Pair, version: Pair)
    requires roots == Pair(Words(CarFile.ROOTS), List([Link(root)])) && version == Pair(Words(CarFile.VERSION), Uint(1))
    requires WellFormedPair(roots) && WellFormedPair(version)
    ensures EncodeEntries([roots, version]) ==
            (Text(CarFile.ROOTS) + (Header(MAJ_ARRAY, 1) + CidItem(root))) + (Text(CarFile.VERSION) + Header(MAJ_UINT, 1))
  {
    hide Header, Text, CidItem, CarFile.ROOTS, CarFile.VERSION;
    var link := [Link(root)];
    assert EncodeList(link) == CidItem(root) by { assert link[1..] == []; }
    assert EncodePair(roots) == Text(CarFile.ROOTS) + (Header(MAJ_ARRAY, 1) + CidItem(root));
    assert EncodePair(version) == Text(CarFile.VERSION) + Header(MAJ_UINT, 1);
    hide EncodePair;
    assert EncodeEntries([version]) == EncodePair(version) by { assert [version][1..] == []; }
    assert EncodeEntries([roots, version]) == EncodePair(roots) + EncodePair(version) by { assert [roots, version][1..] == [version]; }
  }

  lemma Regroup(s: Bytes, t: Bytes, a: Bytes, b: Bytes, c: Bytes, d: Bytes, e: Bytes, f: Bytes)
    requires s == a + b + c + d + e + f && t == a + ((b + (c + d)) + (e + f))
    ensures s == t
  {
  }

  // ----- commits -----

  /** A value of a commit's field as a data item. */
  function ItemOf(v: Val): Item {
    match v
    case VText(t) => Words(t)
    case VBytes(b) => Octets(b)
    case VInt(n) => if n >= 0 then Uint(n) else Negint(-1 - n)
    case VCid(c) => Link(c)
    case _ => Simple(22)
  }

  /** The kinds of field a commit has. */
  predicate Plain(k: FieldKind) {
    k.KText? || k.KBytes? || k.KInt? || k.KCid? || k.KNullableCid?
  }

  lemma ValueItem(k: FieldKind, v: Val)
    requires Plain(k) && Records.Fits(k, v)
    ensures WellFormed(ItemOf(v)) && Write(k, v) == Encode(ItemOf(v))
  {
    if v.VInt? { IntBytes(v.num); }
  }

  function EntriesOf(fs: seq<Field>): seq<Pair> {
    if fs == [] then [] else [Pair(Words(fs[0].name), ItemOf(fs[0].val))] + EntriesOf(fs[1..])
  }

  lemma {:induction false} FieldsItem(fs: seq<Field>)
    requires FieldsFit(SIGNED, fs)
    ensures |EntriesOf(fs)| == |fs| && forall e :: e in EntriesOf(fs) ==> WellFormedPair(e)
    ensures WriteFields(SIGNED, fs) == EncodeEntries(EntriesOf(fs))
    decreases |fs|
  {
    hide Text, Write, Encode, WellFormed;
    if fs != [] {
      FieldsItem(fs[1..]);
      FieldItem(fs[0]);
      var es := EntriesOf(fs);
      assert es[1..] == EntriesOf(fs[1..]);
    }
  }

  lemma FieldItem(f: Field)
    requires FieldFits(SIGNED, f)
    ensures var e := Pair(Words(f.name), ItemOf(f.val)); WellFormedPair(e) && WriteField(SIGNED, f) == EncodePair(e)
  {
    hide Write, ItemOf;
    ValueItem(SIGNED(f.name).value, f.val);
  }

  /** A commit block is one CBOR map: its fields, in the order they are written. */
  lemma CommitItem(t: SignedCommit) returns (i: Item)
    requires EncodableSigned(t)
    ensures i == Dict(EntriesOf(SignedFields(t))) && WellFormed(i) && EncodeSigned(t) == Encode(i)
  {
    hide Header, EntriesOf, SignedFields, WriteFields, EncodeEntries;
    SignedFit(t);
    FieldsItem(SignedFields(t));
    i := Dict(EntriesOf(SignedFields(t)));
  }

  /** The tree, and the commit before, if there is one. */
  function LinksOfCommit(t: SignedCommit): seq<Cid>
    requires t.data.Some?
  {
    [t.data.value] + if t.prev.Some? then [t.prev.value] else []
  }

  lemma FieldLinks(f: Field, fs: seq<Field>)
    ensures EntryLinks(EntriesOf([f] + fs)) == LinksIn(ItemOf(f.val)) + EntryLinks(EntriesOf(fs))
  {
    hide ItemOf;
    assert ([f] + fs)[1..] == fs;
    var es := EntriesOf([f] + fs);
    assert es[1..] == EntriesOf(fs);
    assert LinksOfPair(es[0]) == LinksIn(Words(f.name)) + LinksIn(ItemOf(f.val));
    assert [] + LinksIn(ItemOf(f.val)) == LinksIn(ItemOf(f.val));
  }

  /** From the signature on. */
  lemma TailLinks(t: SignedCommit, sig: Field, data: Field, prev: Field, version: Field)
    requires t.data.Some? && sig.val.VBytes? && data.val == VCid(t.data.value) && prev.val == NullableCid(t.prev) && version.val.VInt?
    ensures EntryLinks(EntriesOf([sig, data, prev, version])) == LinksOfCommit(t)
  {
    hide EntriesOf, EntryLinks;
    NoLinks();
    assert [version] + [] == [version] && [prev, version] == [prev] + [version];
    assert [data, prev, version] == [data] + [prev, version] && [sig, data, prev, version] == [sig] + [data, prev, version];
    FieldLinks(version, []);
    FieldLinks(prev, [version]);
    FieldLinks(data, [prev, version]);
    FieldLinks(sig, [data, prev, version]);
  }

  lemma SignedLinks(t: SignedCommit)
    requires t.data.Some?
    ensures EntryLinks(EntriesOf(SignedFields(t))) == LinksOfCommit(t)
  {
    var did, rev := Field(DID, VText(t.did)), Field(REV, VText(t.rev));
    var sig, data := Field(SIG, VBytes(t.sig)), Field(DATA, VCid(t.data.value));
    var prev, version := Field(PREV, NullableCid(t.prev)), Field(VERSION, VInt(t.version));
    var tail := [sig, data, prev, version];
    assert SignedFields(t) == if t.rev == [] then [did] + tail else [did] + ([rev] + tail);
    TailLinks(t, sig, data, prev, version);
    hide EntriesOf, EntryLinks, LinksOfCommit, SignedFields;
    FieldLinks(did, tail);
    FieldLinks(rev, tail);
    FieldLinks(did, [rev] + tail);
    assert LinksIn(ItemOf(did.val)) == LinksIn(ItemOf(rev.val)) == [];
  }

  lemma NoLinks()
    ensures EntryLinks(EntriesOf([])) == []
  {
  }

  /** A scan of a commit block finds its tree and its predecessor, unless a link is too long to scan. */
  lemma CommitScan(t: SignedCommit)
    requires EncodableSigned(t)
    ensures ScanForLinks(EncodeSigned(t)) == if AllShort(LinksOfCommit(t)) then Some(LinksOfCommit(t)) else None
  {
    hide EncodeSigned, Encode, SignedFields, EntriesOf, EntryLinks, AllShort, ScanForLinks;
    var i := CommitItem(t);
    LinksFound(i);
    SignedLinks(t);
  }

  /** So the walk of an import gets from a commit to its tree, and a copy does, too. */
  lemma TreeReached(bs: map<Cid, Bytes>, c: Cid, t: SignedCommit)
    requires EncodableSigned(t) && c in bs && bs[c] == EncodeSigned(t) && AllShort(LinksOfCommit(t))
    ensures Readable(bs, c) && LinksOf(bs, c) == LinksOfCommit(t)
    ensures t.data.value.codec != RAW ==> Reaches(TreeGraph(bs), c, t.data.value)
  {
    hide EncodeSigned, ScanForLinks, AllShort, Reaches;
    CommitScan(t);
    var g := TreeGraph(bs);
    assert t.data.value == LinksOfCommit(t)[0];
    if t.data.value.codec != RAW {
      assert Edge(g, c, t.data.value);
      ReachesEdge(g, c, t.data.value);
    }
  }

  /** Any data item whose links can be scanned may stand under a name that is not a field's. */
  lemma UnknownItem(schema: Schema, name: Bytes, i: Item)
    requires FitsText(name) && schema(name).None? && WellFormed(i) && AllShort(LinksIn(i))
    ensures SlotFits(schema, Unknown(name, Encode(i)))
  {
    hide Encode, LinksIn, AllShort;
    ScanItem(i, [], 0);
    assert Encode(i) + [] == Encode(i);
    assert LinksIn(i) + [] == LinksIn(i);
  }
}
