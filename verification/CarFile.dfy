/**
 * Shard files: a header section, then one length-delimited section per block, each an
 * identifier followed by its data (the CARv1 format). Written by LdWrite and writeCarHeader of
 * user_service/internal/car/utils.go and by writeNewShard of user_service/internal/car/store.go;
 * read back block by block, or from a recorded offset.
 */
module CarFile {
  import opened Prelude
  import opened Cids
  import opened Cbor

  datatype Block = Block(cid: Cid, data: Bytes)

  /**
   * What the surroundings decide: the largest section the CAR reader accepts, whether some data
   * passes the check of an identifier, whether a response body can seek, how a one-root header is
   * dumped, and whether requests may fail.
   */
  datatype Env = Env(limit: nat, check: (Cid, Bytes) -> bool, seekable: bool, header: Cid -> Bytes, faulty: bool) {
    ghost predicate Valid() {
      256 <= limit < MAX_SECTION && forall root {:trigger HeaderCbor(root)} :: header(root) == HeaderCbor(root)
    }
  }

  /** Does the next request fail? */
  method Fails(env: Env) returns (fails: bool)
    ensures fails ==> env.faulty
  {
    fails := *;
    fails := fails && env.faulty;
  }

  /** Beyond 2^56 - 1 bytes a length no longer fits LdWrite's 8-byte buffer, and it panics. */
  const MAX_SECTION := 0x100_0000_0000_0000

  // ----- sections -----

  function Section(body: Bytes): Bytes {
    Uvarint(|body|) + body
  }

  datatype Read<+T> = Eof | Bad | Item(value: T, rest: Bytes)

  /** util.LdRead: a file that ends right after a length reads as a clean end, too. */
  function LdRead(s: Bytes, limit: nat): (r: Read<Bytes>)
    ensures r.Item? ==> |r.rest| < |s|
  {
    if s == [] then Eof else
    match ReadUvarint(s)
    case Fail => Bad
    case Got(len, rest) =>
      if len > limit then Bad
      else if len <= |rest| then Item(rest[..len], rest[len..])
      else if rest == [] then Eof else Bad
  }

  lemma SectionRead(body: Bytes, rest: Bytes, limit: nat)
    requires |body| < MAX_SECTION
    ensures LdRead(Section(body) + rest, limit) == if |body| <= limit then Item(body, rest) else Bad
  {
    assert Section(body) + rest == Uvarint(|body|) + (body + rest);
    UvarintRoundTrip(|body|, body + rest);
    assert (body + rest)[..|body|] == body && (body + rest)[|body|..] == rest;
  }

  function Concat(ds: seq<Bytes>): Bytes {
    if ds == [] then [] else ds[0] + Concat(ds[1..])
  }

  lemma {:induction false} ConcatSnoc(ds: seq<Bytes>, d: Bytes)
    ensures Concat(ds + [d]) == Concat(ds) + d
  {
    if ds == [] {
      assert ds + [d] == [d];
    } else {
      assert (ds + [d])[1..] == ds[1..] + [d];
      ConcatSnoc(ds[1..], d);
    }
  }

  class Buffer {
    var bytes: Bytes
    constructor () ensures bytes == [] { bytes := []; }
  }

  /** LdWrite: one section holding the concatenation of the slices. */
  method LdWrite(w: Buffer, ds: seq<Bytes>) returns (written: nat)
    requires |Concat(ds)| < MAX_SECTION
    modifies w
    ensures w.bytes == old(w.bytes) + Section(Concat(ds))
    ensures written == |Section(Concat(ds))|
  {
    var sum := 0;
    for i := 0 to |ds|
      invariant sum == |Concat(ds[..i])| && w.bytes == old(w.bytes)
    {
      sum := sum + |ds[i]|;
      assert ds[..i + 1] == ds[..i] + [ds[i]];
      ConcatSnoc(ds[..i], ds[i]);
    }
    assert ds[..|ds|] == ds;
    var length := Uvarint(sum);
    w.bytes := w.bytes + length;
    written := |length|;
    ghost var head := w.bytes;
    assert ds[..0] == [];
    for i := 0 to |ds|
      invariant w.bytes == head + Concat(ds[..i])
      invariant written == |length| + |Concat(ds[..i])|
    {
      w.bytes := w.bytes + ds[i];
      written := written + |ds[i]|;
      assert ds[..i + 1] == ds[..i] + [ds[i]];
      ConcatSnoc(ds[..i], ds[i]);
    }
    assert ds[..|ds|] == ds;
    assert old(w.bytes) + length + Concat(ds) == old(w.bytes) + (length + Concat(ds));
  }

  // ----- block sections -----

  function Body(b: Block): Bytes {
    CidBytes(b.cid) + b.data
  }

  function Frame(b: Block): Bytes {
    Section(Body(b))
  }

  function Frames(bs: seq<Block>): Bytes {
    if bs == [] then [] else Frame(bs[0]) + Frames(bs[1..])
  }

  /** util.ReadNode. */
  function ReadNode(s: Bytes, limit: nat): (r: Read<Block>)
    ensures r.Item? ==> |r.rest| < |s|
  {
    match LdRead(s, limit)
    case Eof => Eof
    case Bad => Bad
    case Item(body, rest) =>
      match ReadCidBytes(body)
      case Fail => Bad
      case Got(c, data) => Item(Block(c, data), rest)
  }

  predicate Writable(b: Block) { |Body(b)| < MAX_SECTION }

  lemma FrameRead(b: Block, rest: Bytes, limit: nat)
    requires Writable(b)
    ensures ReadNode(Frame(b) + rest, limit) == if |Body(b)| <= limit then Item(b, rest) else Bad
  {
    hide LdRead, Section, CidBytes, ReadCidBytes;
    SectionRead(Body(b), rest, limit);
    CidRoundTrip(b.cid, b.data);
  }

  lemma {:induction false} FramesConcat(a: seq<Block>, b: seq<Block>)
    ensures Frames(a + b) == Frames(a) + Frames(b)
  {
    hide Frame;
    if a == [] {
      assert a + b == b;
    } else {
      assert (a + b)[1..] == a[1..] + b;
      FramesConcat(a[1..], b);
    }
  }

  // ----- reading a whole file -----

  /** What the Next loop of a CAR reader yields: blocks, and whether it ended with a clean EOF. */
  datatype Blocks = Blocks(blocks: seq<Block>, clean: bool)

  function ReadAll(env: Env, s: Bytes): Blocks
    decreases |s|
  {
    match ReadNode(s, env.limit)
    case Eof => Blocks([], true)
    case Bad => Blocks([], false)
    case Item(b, rest) =>
      if !env.check(b.cid, b.data) then Blocks([], false) else
      var more := ReadAll(env, rest);
      Blocks([b] + more.blocks, more.clean)
  }

  /** The reader takes the block back: its section is not too long and its content matches. */
  predicate Fits(env: Env, b: Block) {
    |Body(b)| <= env.limit && env.check(b.cid, b.data)
  }

  predicate AllFit(env: Env, bs: seq<Block>) {
    forall i :: 0 <= i < |bs| ==> Fits(env, bs[i])
  }

  /** How many blocks there are before the first that does not fit. */
  function FitPrefix(env: Env, bs: seq<Block>): (n: nat)
    ensures n <= |bs|
  {
    if bs == [] || !Fits(env, bs[0]) then 0 else 1 + FitPrefix(env, bs[1..])
  }

  /** Reading frames back gives the blocks up to the first that does not fit, cleanly iff all do. */
  lemma {:induction false} FramesRead(env: Env, bs: seq<Block>)
    requires forall i :: 0 <= i < |bs| ==> Writable(bs[i])
    ensures var n := FitPrefix(env, bs);
            ReadAll(env, Frames(bs)) == Blocks(bs[..n], n == |bs|)
    ensures FitPrefix(env, bs) == |bs| <==> AllFit(env, bs)
    decreases |bs|
  {
    hide ReadNode, Frame, Fits, Writable;
    if bs == [] {
      assert ReadNode([], env.limit) == Eof by { EmptyRead(env.limit); }
    } else {
      var b, more := bs[0], bs[1..];
      assert Writable(b);
      FrameRead(b, Frames(more), env.limit);
      FrameLength(b);
      FramesRead(env, more);
      FitsMeans(env, b);
      assert forall i :: 0 <= i < |more| ==> more[i] == bs[i + 1];
      assert bs == [b] + more;
      if Fits(env, b) {
        var n := FitPrefix(env, more);
        assert bs[..n + 1] == [b] + more[..n];
      }
    }
  }

  lemma EmptyRead(limit: nat)
    ensures ReadNode([], limit) == Eof
  {
  }

  lemma FitsMeans(env: Env, b: Block)
    ensures Fits(env, b) <==> |Body(b)| <= env.limit && env.check(b.cid, b.data)
  {
  }

  lemma FrameLength(b: Block)
    ensures |Frame(b)| > |Body(b)| > 0
  {
  }

  // ----- the header -----

  const ROOTS: Bytes := [0x72, 0x6f, 0x6f, 0x74, 0x73]                   // "roots"
  const VERSION: Bytes := [0x76, 0x65, 0x72, 0x73, 0x69, 0x6f, 0x6e]     // "version"

  function HeaderCbor(root: Cid): Bytes {
    Header(MAJ_MAP, 2) + Text(ROOTS) + Header(MAJ_ARRAY, 1) + CidItem(root) + Text(VERSION) + Header(MAJ_UINT, 1)
  }

  function FileHeader(env: Env, root: Cid): Bytes {
    Section(env.header(root))
  }

  /** The one root of a version-1 header, fields in the order writeCarHeader produces. */
  function ParseHeaderCbor(s: Bytes): Option<Cid> {
    match ReadHeader(s)
    case Fail => None
    case Got(h1, s1) =>
      if h1 != (MAJ_MAP, 2) then None else
      match ReadText(s1)
      case Fail => None
      case Got(name1, s2) =>
        if name1 != ROOTS then None else
        match ReadHeader(s2)
        case Fail => None
        case Got(h3, s3) =>
          if h3 != (MAJ_ARRAY, 1) then None else
          match ReadCidItem(s3)
          case Fail => None
          case Got(root, s4) =>
            match ReadText(s4)
            case Fail => None
            case Got(name2, s5) =>
              if name2 != VERSION then None else
              match ReadHeader(s5)
              case Fail => None
              case Got(h6, _) => if h6 == (MAJ_UINT, 1) then Some(root) else None
  }

  function ParseHeader(s: Bytes, limit: nat): Parsed<Cid> {
    match LdRead(s, limit)
    case Eof | Bad => Fail
    case Item(h, rest) =>
      match ParseHeaderCbor(h)
      case None => Fail
      case Some(root) => Got(root, rest)
  }

  lemma HeaderShort(root: Cid)
    ensures |HeaderCbor(root)| < 256
  {
    hide Header, CidBytes;
    CidBytesShort(root);
    HeaderLength(MAJ_MAP, 2);
    HeaderLength(MAJ_TEXT, 5);
    HeaderLength(MAJ_ARRAY, 1);
    HeaderLength(MAJ_TAG, CID_TAG);
    HeaderLength(MAJ_BYTES, |[0] + CidBytes(root)|);
    HeaderLength(MAJ_TEXT, 7);
    HeaderLength(MAJ_UINT, 1);
  }

  lemma HeaderCborRoundTrip(root: Cid)
    ensures ParseHeaderCbor(HeaderCbor(root)) == Some(root)
  {
    hide Header, ReadHeader, Text, ReadText, CidItem, ReadCidItem;
    var s5 := Header(MAJ_UINT, 1) + [];
    var s4 := Text(VERSION) + s5;
    var s3 := CidItem(root) + s4;
    var s2 := Header(MAJ_ARRAY, 1) + s3;
    var s1 := Text(ROOTS) + s2;
    assert HeaderCbor(root) == Header(MAJ_MAP, 2) + s1;
    HeaderRoundTrip(MAJ_MAP, 2, s1);
    TextRoundTrip(ROOTS, s2);
    HeaderRoundTrip(MAJ_ARRAY, 1, s3);
    CidItemRoundTrip(root, s4);
    TextRoundTrip(VERSION, s5);
    HeaderRoundTrip(MAJ_UINT, 1, []);
  }

  lemma HeaderRoundTripFile(env: Env, root: Cid, rest: Bytes)
    requires env.Valid()
    ensures ParseHeader(FileHeader(env, root) + rest, env.limit) == Got(root, rest)
  {
    hide HeaderCbor, ParseHeaderCbor, LdRead, Section;
    HeaderShort(root);
    SectionRead(HeaderCbor(root), rest, env.limit);
    HeaderCborRoundTrip(root);
  }

  // ----- whole shard files -----

  function ShardFile(env: Env, root: Cid, bs: seq<Block>): Bytes {
    FileHeader(env, root) + Frames(bs)
  }

  /** Where the section after these blocks starts. */
  function EndOf(env: Env, root: Cid, bs: seq<Block>): nat {
    |FileHeader(env, root)| + |Frames(bs)|
  }

  /** A ranged read of one block; past the end of the file there is nothing. */
  function ReadFrom(file: Bytes, offset: nat, limit: nat): Read<Block> {
    if offset > |file| then Eof else ReadNode(file[offset..], limit)
  }

  /** A recorded offset is the start of its own block's section: reading there gives that block. */
  lemma ReadAtOffset(env: Env, root: Cid, bs: seq<Block>, i: nat)
    requires i < |bs| && Fits(env, bs[i]) && Writable(bs[i])
    ensures EndOf(env, root, bs[..i]) > 0
    ensures ReadFrom(ShardFile(env, root, bs), EndOf(env, root, bs[..i]), env.limit) == Item(bs[i], Frames(bs[i + 1..]))
  {
    hide FileHeader, Frame, ReadNode;
    var rest := Frames(bs[i + 1..]);
    assert bs == bs[..i] + [bs[i]] + bs[i + 1..];
    FramesConcat(bs[..i] + [bs[i]], bs[i + 1..]);
    FramesConcat(bs[..i], [bs[i]]);
    assert Frames([bs[i]]) == Frame(bs[i]);
    assert ShardFile(env, root, bs) == FileHeader(env, root) + Frames(bs[..i]) + (Frame(bs[i]) + rest);
    HeaderNotEmpty(env, root);
    FrameRead(bs[i], rest, env.limit);
  }

  lemma HeaderNotEmpty(env: Env, root: Cid)
    ensures |FileHeader(env, root)| > 0
  {
  }

  /** The content the block list records. */
  function Contents(bs: seq<Block>): map<Cid, Bytes> {
    if bs == [] then map[] else Contents(bs[..|bs| - 1])[bs[|bs| - 1].cid := bs[|bs| - 1].data]
  }

  predicate Distinct(bs: seq<Block>) {
    forall i, j :: 0 <= i < j < |bs| ==> bs[i].cid != bs[j].cid
  }

  function CidsIn(bs: seq<Block>): set<Cid> {
    set i | 0 <= i < |bs| :: bs[i].cid
  }

  lemma {:induction false} ContentsOf(bs: seq<Block>)
    requires Distinct(bs)
    ensures Contents(bs).Keys == CidsIn(bs)
    ensures forall i :: 0 <= i < |bs| ==> bs[i].cid in Contents(bs) && Contents(bs)[bs[i].cid] == bs[i].data
  {
    if bs != [] {
      var init, last := bs[..|bs| - 1], bs[|bs| - 1];
      ContentsOf(init);
      assert bs == init + [last];
      assert CidsIn(bs) == CidsIn(init) + {last.cid};
    }
  }

  /** One row of block_refs before it has a shard: the block and its offset. */
  datatype Mark = Mark(cid: Cid, offset: nat)

  function Marks(env: Env, root: Cid, bs: seq<Block>): seq<Mark> {
    seq(|bs|, i requires 0 <= i < |bs| => Mark(bs[i].cid, EndOf(env, root, bs[..i])))
  }

  /**
   * The file-building part of writeNewShard: the blocks in whatever order the map yields them,
   * and for each of them its offset.
   */
  method BuildShard(env: Env, root: Cid, blks: map<Cid, Bytes>)
    returns (bytes: Bytes, dataStart: nat, marks: seq<Mark>, ghost order: seq<Block>)
    requires env.Valid() && forall c :: c in blks ==> Writable(Block(c, blks[c]))
    ensures Distinct(order) && Contents(order) == blks
    ensures bytes == ShardFile(env, root, order) && dataStart == |FileHeader(env, root)| && marks == Marks(env, root, order)
  {
    NoBlocks(env, root);
    hide CidBytes, HeaderCbor, Section, Frame, Writable, Contents, CidsIn, Distinct, Marks, EndOf, Frames;
    var buf := new Buffer();
    HeaderShort(root);
    ConcatOne(env.header(root));
    dataStart := LdWrite(buf, [env.header(root)]);
    var offset := dataStart;
    marks, order := [], [];
    var todo := blks.Keys;
    assert buf.bytes == FileHeader(env, root) + Frames(order);
    while todo != {}
      invariant todo <= blks.Keys
      invariant Distinct(order) && Contents(order).Keys == CidsIn(order) == blks.Keys - todo
      invariant forall c :: c in Contents(order) ==> Contents(order)[c] == blks[c]
      invariant buf.bytes == FileHeader(env, root) + Frames(order)
      invariant offset == EndOf(env, root, order) && marks == Marks(env, root, order)
      decreases todo
    {
      var k :| k in todo;
      ghost var b := Block(k, blks[k]);
      assert Concat([CidBytes(k), blks[k]]) == Body(b) by { ConcatTwo(CidBytes(k), blks[k]); }
      WritableMeans(b);
      var nw := LdWrite(buf, [CidBytes(k), blks[k]]);
      marks := marks + [Mark(k, offset)];
      offset := offset + nw;
      todo := todo - {k};
      OneMore(env, root, order, b);
      order := order + [b];
    }
    bytes := buf.bytes;
  }

  lemma NoBlocks(env: Env, root: Cid)
    ensures Distinct([]) && Contents([]) == map[] && CidsIn([]) == {}
    ensures FileHeader(env, root) + Frames([]) == FileHeader(env, root)
    ensures EndOf(env, root, []) == |FileHeader(env, root)| && Marks(env, root, []) == []
  {
    hide FileHeader;
  }

  lemma WritableMeans(b: Block)
    ensures Writable(b) <==> |Body(b)| < MAX_SECTION
    ensures Frame(b) == Section(Body(b))
  {
  }

  lemma ConcatOne(a: Bytes)
    ensures Concat([a]) == a
  {
  }

  lemma ConcatTwo(a: Bytes, b: Bytes)
    ensures Concat([a, b]) == a + b
  {
    assert [a, b][1..] == [b];
    ConcatOne(b);
  }

  lemma OneMore(env: Env, root: Cid, bs: seq<Block>, b: Block)
    requires Distinct(bs) && b.cid !in CidsIn(bs)
    ensures Distinct(bs + [b]) && CidsIn(bs + [b]) == CidsIn(bs) + {b.cid}
    ensures Contents(bs + [b]) == Contents(bs)[b.cid := b.data]
    ensures Frames(bs + [b]) == Frames(bs) + Frame(b)
    ensures Marks(env, root, bs + [b]) == Marks(env, root, bs) + [Mark(b.cid, EndOf(env, root, bs))]
    ensures EndOf(env, root, bs + [b]) == EndOf(env, root, bs) + |Frame(b)|
  {
    hide FileHeader, Frame, Marks, Contents;
    FramesSnoc(bs, b);
    ContentsSnoc(bs, b);
    MarksSnoc(env, root, bs, b);
    var r := bs + [b];
    forall c ensures c in CidsIn(r) <==> c in CidsIn(bs) || c == b.cid {
      if c in CidsIn(bs) {
        var i :| 0 <= i < |bs| && bs[i].cid == c;
        assert r[i].cid == c;
      }
      assert r[|bs|].cid == b.cid;
    }
  }

  lemma FramesSnoc(bs: seq<Block>, b: Block)
    ensures Frames(bs + [b]) == Frames(bs) + Frame(b)
  {
    hide Frame;
    FramesConcat(bs, [b]);
    assert Frames([b]) == Frame(b);
  }

  lemma ContentsSnoc(bs: seq<Block>, b: Block)
    ensures Contents(bs + [b]) == Contents(bs)[b.cid := b.data]
  {
    var r := bs + [b];
    assert r[..|r| - 1] == bs && r[|r| - 1] == b;
  }

  lemma MarksSnoc(env: Env, root: Cid, bs: seq<Block>, b: Block)
    ensures Marks(env, root, bs + [b]) == Marks(env, root, bs) + [Mark(b.cid, EndOf(env, root, bs))]
  {
    hide EndOf;
    var r := bs + [b];
    forall i | 0 <= i < |r| ensures Marks(env, root, r)[i] == (Marks(env, root, bs) + [Mark(b.cid, EndOf(env, root, bs))])[i] {
      if i < |bs| {
        assert r[..i] == bs[..i];
      } else {
        assert r[..i] == bs;
      }
    }
  }

  /** Round trip: the file of a block map parses, from its data start, to exactly those blocks. */
  lemma ShardRoundTrip(env: Env, root: Cid, order: seq<Block>)
    requires env.Valid() && AllFit(env, order)
    ensures ParseHeader(ShardFile(env, root, order), env.limit) == Got(root, Frames(order))
    ensures ShardFile(env, root, order)[|FileHeader(env, root)|..] == Frames(order)
    ensures ReadAll(env, Frames(order)) == Blocks(order, true)
  {
    hide FileHeader, ParseHeader, ReadAll, Frames;
    assert forall i :: 0 <= i < |order| ==> Fits(env, order[i]) && Writable(order[i]);
    HeaderRoundTripFile(env, root, Frames(order));
    FramesRead(env, order);
    assert order[..|order|] == order;
  }

  /** Whatever a reader returns could be written to a shard and read back. */
  lemma {:induction false} ReadAllFits(env: Env, s: Bytes)
    ensures AllFit(env, ReadAll(env, s).blocks)
    decreases |s|
  {
    hide CidBytes, ReadCidBytes, LdRead;
    match ReadNode(s, env.limit)
    case Eof =>
    case Bad =>
    case Item(b, rest) =>
      if env.check(b.cid, b.data) {
        NodeFits(s, env.limit);
        ReadAllFits(env, rest);
        hide ReadNode;
        var more := ReadAll(env, rest).blocks;
        assert ReadAll(env, s).blocks == [b] + more;
        assert Fits(env, b);
        hide Fits;
      }
  }

  lemma NodeFits(s: Bytes, limit: nat)
    ensures var r := ReadNode(s, limit); r.Item? ==> |Body(r.value)| <= limit
  {
    hide CidBytes, ReadCidBytes, ReadUvarint;
    var r := LdRead(s, limit);
    if r.Item? { ReadCidLength(r.value); }
  }
}
