/**
 * Repository commits: the record types of user_service/internal/repo/repo.go and their
 * generated codecs in user_service/internal/repo/cbor_gen.go.
 */
module CommitCodec {
  import opened Prelude
  import opened Cids
  import opened Cbor
  import opened Records

  /** data is None for the undefined identifier of a zero commit. */
  datatype SignedCommit = SignedCommit(
    did: Bytes, version: int64, prev: Option<Cid>, data: Option<Cid>, sig: Bytes, rev: Bytes)

  datatype UnsignedCommit = UnsignedCommit(
    did: Bytes, version: int64, prev: Option<Cid>, data: Option<Cid>, rev: Bytes)

  const DID: Bytes := [0x64, 0x69, 0x64]                                // "did"
  const REV: Bytes := [0x72, 0x65, 0x76]                                // "rev"
  const SIG: Bytes := [0x73, 0x69, 0x67]                                // "sig"
  const DATA: Bytes := [0x64, 0x61, 0x74, 0x61]                         // "data"
  const PREV: Bytes := [0x70, 0x72, 0x65, 0x76]                         // "prev"
  const VERSION: Bytes := [0x76, 0x65, 0x72, 0x73, 0x69, 0x6f, 0x6e]    // "version"

  const ZERO_SIGNED := SignedCommit([], 0, None, None, [], [])
  const ZERO_UNSIGNED := UnsignedCommit([], 0, None, None, [])

  function Unsigned(sc: SignedCommit): UnsignedCommit {
    UnsignedCommit(sc.did, sc.version, sc.prev, sc.data, sc.rev)
  }

  function UnsignedKind(name: Bytes): Option<FieldKind> {
    if name == DID || name == REV then Some(KText)
    else if name == DATA then Some(KCid)
    else if name == PREV then Some(KNullableCid)
    else if name == VERSION then Some(KInt)
    else None
  }

  function SignedKind(name: Bytes): Option<FieldKind> {
    if name == SIG then Some(KBytes) else UnsignedKind(name)
  }

  const SIGNED: Schema := name => SignedKind(name)
  const UNSIGNED: Schema := name => UnsignedKind(name)

  function NullableCid(c: Option<Cid>): Val {
    if c.None? then VNull else VCid(c.value)
  }

  /** What MarshalCBOR refuses: an undefined data identifier and over-long strings. */
  predicate EncodableUnsigned(t: UnsignedCommit) {
    t.data.Some? && FitsText(t.did) && FitsText(t.rev)
  }

  predicate EncodableSigned(t: SignedCommit) {
    EncodableUnsigned(Unsigned(t)) && |t.sig| <= MAX_SIG
  }

  /** The fields in the order they are written; an empty rev is omitted. */
  function UnsignedFields(t: UnsignedCommit): seq<Field>
    requires t.data.Some?
  {
    [Field(DID, VText(t.did))]
    + (if t.rev == [] then [] else [Field(REV, VText(t.rev))])
    + [Field(DATA, VCid(t.data.value)), Field(PREV, NullableCid(t.prev)), Field(VERSION, VInt(t.version))]
  }

  function SignedFields(t: SignedCommit): seq<Field>
    requires t.data.Some?
  {
    [Field(DID, VText(t.did))]
    + (if t.rev == [] then [] else [Field(REV, VText(t.rev))])
    + [Field(SIG, VBytes(t.sig)), Field(DATA, VCid(t.data.value)), Field(PREV, NullableCid(t.prev)),
       Field(VERSION, VInt(t.version))]
  }

  /** One case of the field switch of UnmarshalCBOR; a null prev leaves the field alone. */
  function AssignUnsigned(t: UnsignedCommit, f: Field): UnsignedCommit {
    match f.val
    case VText(s) => if f.name == DID then t.(did := s) else t.(rev := s)
    case VCid(c) => if f.name == DATA then t.(data := Some(c)) else t.(prev := Some(c))
    case VInt(v) => t.(version := v)
    case _ => t
  }

  function AssignSigned(t: SignedCommit, f: Field): SignedCommit {
    match f.val
    case VText(s) => if f.name == DID then t.(did := s) else t.(rev := s)
    case VBytes(b) => t.(sig := b)
    case VCid(c) => if f.name == DATA then t.(data := Some(c)) else t.(prev := Some(c))
    case VInt(v) => t.(version := v)
    case _ => t
  }

  function FoldUnsigned(t: UnsignedCommit, fs: seq<Field>): UnsignedCommit
    decreases |fs|
  {
    if fs == [] then t else FoldUnsigned(AssignUnsigned(t, fs[0]), fs[1..])
  }

  function FoldSigned(t: SignedCommit, fs: seq<Field>): SignedCommit
    decreases |fs|
  {
    if fs == [] then t else FoldSigned(AssignSigned(t, fs[0]), fs[1..])
  }

  ghost function EncodeUnsigned(t: UnsignedCommit): Bytes
    requires EncodableUnsigned(t)
  {
    UnsignedFit(t);
    WriteRecord(UNSIGNED, UnsignedFields(t))
  }

  ghost function EncodeSigned(t: SignedCommit): Bytes
    requires EncodableSigned(t)
  {
    SignedFit(t);
    WriteRecord(SIGNED, SignedFields(t))
  }

  function DecodeUnsigned(s: Bytes): Parsed<UnsignedCommit> {
    match ReadRecord(UNSIGNED, s)
    case Fail => Fail
    case Got(fs, rest) => Got(FoldUnsigned(ZERO_UNSIGNED, fs), rest)
  }

  function DecodeSigned(s: Bytes): Parsed<SignedCommit> {
    match ReadRecord(SIGNED, s)
    case Fail => Fail
    case Got(fs, rest) => Got(FoldSigned(ZERO_SIGNED, fs), rest)
  }

  lemma UnsignedFit(t: UnsignedCommit)
    requires EncodableUnsigned(t)
    ensures FieldsFit(UNSIGNED, UnsignedFields(t))
  {
  }

  lemma SignedFit(t: SignedCommit)
    requires EncodableSigned(t)
    ensures FieldsFit(SIGNED, SignedFields(t))
  {
  }

  lemma {:induction false} FoldSignedConcat(t: SignedCommit, a: seq<Field>, b: seq<Field>)
    ensures FoldSigned(t, a + b) == FoldSigned(FoldSigned(t, a), b)
    decreases |a|
  {
    if a == [] {
      assert a + b == b;
    } else {
      assert (a + b)[1..] == a[1..] + b;
      FoldSignedConcat(AssignSigned(t, a[0]), a[1..], b);
    }
  }

  lemma {:induction false} FoldUnsignedConcat(t: UnsignedCommit, a: seq<Field>, b: seq<Field>)
    ensures FoldUnsigned(t, a + b) == FoldUnsigned(FoldUnsigned(t, a), b)
    decreases |a|
  {
    if a == [] {
      assert a + b == b;
    } else {
      assert (a + b)[1..] == a[1..] + b;
      FoldUnsignedConcat(AssignUnsigned(t, a[0]), a[1..], b);
    }
  }

  lemma SignedFieldsFold(t: SignedCommit)
    requires t.data.Some?
    ensures FoldSigned(ZERO_SIGNED, SignedFields(t)) == t
  {
    var a := [Field(DID, VText(t.did))];
    var b := if t.rev == [] then [] else [Field(REV, VText(t.rev))];
    var c := [Field(SIG, VBytes(t.sig)), Field(DATA, VCid(t.data.value))];
    var d := [Field(PREV, NullableCid(t.prev)), Field(VERSION, VInt(t.version))];
    assert SignedFields(t) == a + b + c + d;
    FoldSignedConcat(ZERO_SIGNED, a + b + c, d);
    FoldSignedConcat(ZERO_SIGNED, a + b, c);
    FoldSignedConcat(ZERO_SIGNED, a, b);
    var t1 := ZERO_SIGNED.(did := t.did);
    assert FoldSigned(ZERO_SIGNED, a) == t1;
    var t2 := t1.(rev := t.rev);
    assert FoldSigned(t1, b) == t2;
    var t3 := t2.(sig := t.sig, data := t.data);
    assert FoldSigned(t2, c) == FoldSigned(AssignSigned(t2, c[0]), [c[1]]) == t3;
    assert FoldSigned(t3, d) == FoldSigned(AssignSigned(t3, d[0]), [d[1]]) == t;
  }

  lemma UnsignedFieldsFold(t: UnsignedCommit)
    requires t.data.Some?
    ensures FoldUnsigned(ZERO_UNSIGNED, UnsignedFields(t)) == t
  {
    var a := [Field(DID, VText(t.did))];
    var b := if t.rev == [] then [] else [Field(REV, VText(t.rev))];
    var c := [Field(DATA, VCid(t.data.value))];
    var d := [Field(PREV, NullableCid(t.prev)), Field(VERSION, VInt(t.version))];
    assert UnsignedFields(t) == a + b + c + d;
    FoldUnsignedConcat(ZERO_UNSIGNED, a + b + c, d);
    FoldUnsignedConcat(ZERO_UNSIGNED, a + b, c);
    FoldUnsignedConcat(ZERO_UNSIGNED, a, b);
    var t1 := ZERO_UNSIGNED.(did := t.did);
    assert FoldUnsigned(ZERO_UNSIGNED, a) == t1;
    var t2 := t1.(rev := t.rev);
    assert FoldUnsigned(t1, b) == t2;
    var t3 := t2.(data := t.data);
    assert FoldUnsigned(t2, c) == t3;
    assert FoldUnsigned(t3, d) == FoldUnsigned(AssignUnsigned(t3, d[0]), [d[1]]) == t;
  }

  lemma SignedRoundTrip(t: SignedCommit, rest: Bytes)
    requires EncodableSigned(t)
    ensures DecodeSigned(EncodeSigned(t) + rest) == Got(t, rest)
  {
    hide WriteRecord, ReadRecord, FieldsFit;
    SignedFit(t);
    RecordRoundTrip(SIGNED, SignedFields(t), rest);
    SignedFieldsFold(t);
  }

  lemma UnsignedRoundTrip(t: UnsignedCommit, rest: Bytes)
    requires EncodableUnsigned(t)
    ensures DecodeUnsigned(EncodeUnsigned(t) + rest) == Got(t, rest)
  {
    hide WriteRecord, ReadRecord, FieldsFit;
    UnsignedFit(t);
    RecordRoundTrip(UNSIGNED, UnsignedFields(t), rest);
    UnsignedFieldsFold(t);
  }

  lemma FieldsCanonical(t: SignedCommit)
    requires t.data.Some?
    ensures CanonicalOrder(SignedFields(t)) && CanonicalOrder(UnsignedFields(Unsigned(t)))
  {
    assert Lex(DID, REV) && Lex(DID, SIG) && Lex(REV, SIG) && Lex(DATA, PREV) by {
      assert DID[0] < REV[0] < SIG[0] && DATA[0] < PREV[0];
    }
    NamesDiffer();
    hide DID, REV, SIG, DATA, PREV, VERSION, Lex;
    var fs, us := SignedFields(t), UnsignedFields(Unsigned(t));
    var k := if t.rev == [] then 1 else 2;
    assert fs[0].name == DID && (k == 2 ==> fs[1].name == REV);
    assert fs[k].name == SIG && fs[k + 1].name == DATA && fs[k + 2].name == PREV && fs[k + 3].name == VERSION;
    assert us[0].name == DID && (k == 2 ==> us[1].name == REV);
    assert us[k].name == DATA && us[k + 1].name == PREV && us[k + 2].name == VERSION;
  }

  function NamesOf(fs: seq<Field>): set<Bytes> {
    set f | f in fs :: f.name
  }

  /** t0 with the named fields as t has them; a null prev stays as it was. */
  function Overlay(t: SignedCommit, t0: SignedCommit, names: set<Bytes>): SignedCommit {
    SignedCommit(
      if DID in names then t.did else t0.did,
      if VERSION in names then t.version else t0.version,
      if PREV in names && t.prev.Some? then t.prev else t0.prev,
      if DATA in names then t.data else t0.data,
      if SIG in names then t.sig else t0.sig,
      if REV in names then t.rev else t0.rev)
  }

  lemma NamesDiffer()
    ensures |DID| == |REV| == |SIG| == 3 && |DATA| == |PREV| == 4 && |VERSION| == 7
    ensures DID != REV && DID != SIG && REV != SIG && DATA != PREV
  {
    assert DID[0] != REV[0] && DID[0] != SIG[0] && REV[0] != SIG[0] && DATA[0] != PREV[0];
  }

  lemma AssignIs(t: SignedCommit, t0: SignedCommit, f: Field)
    requires t.data.Some? && f in SignedFields(t)
    ensures AssignSigned(t0, f) == Overlay(t, t0, {f.name})
  {
    NamesDiffer();
    hide DID, REV, SIG, DATA, PREV, VERSION;
  }

  /** Folding fields of t, whichever and in whatever order, sets what they name and nothing else. */
  lemma {:induction false} FoldFrom(t: SignedCommit, t0: SignedCommit, fs: seq<Field>)
    requires t.data.Some? && forall f :: f in fs ==> f in SignedFields(t)
    ensures FoldSigned(t0, fs) == Overlay(t, t0, NamesOf(fs))
    decreases |fs|
  {
    hide SignedFields;
    if fs != [] {
      AssignIs(t, t0, fs[0]);
      FoldFrom(t, AssignSigned(t0, fs[0]), fs[1..]);
      assert NamesOf(fs) == {fs[0].name} + NamesOf(fs[1..]) by { assert fs == [fs[0]] + fs[1..]; }
      hide AssignSigned, NamesOf;
    }
  }

  lemma AllNames(t: SignedCommit, fs: seq<Field>)
    requires t.data.Some? && forall f :: f in fs <==> f in SignedFields(t)
    ensures Overlay(t, ZERO_SIGNED, NamesOf(fs)) == t
  {
    var all := SignedFields(t);
    var n := |all|;
    assert all[0] in fs && all[n - 4] in fs && all[n - 3] in fs && all[n - 2] in fs && all[n - 1] in fs;
    assert {DID, SIG, DATA, PREV, VERSION} <= NamesOf(fs);
    if t.rev != [] {
      assert all[1] in fs;
      assert REV in NamesOf(fs);
    }
  }

  /** The fields of a commit decode to it in any order, even repeated, with any unknown fields among them. */
  lemma SignedAnyOrder(t: SignedCommit, slots: seq<Slot>, rest: Bytes)
    requires EncodableSigned(t) && SlotsFit(SIGNED, slots)
    requires forall f :: f in KnownOf(slots) <==> f in SignedFields(t)
    ensures DecodeSigned(WriteMixed(SIGNED, slots) + rest) == Got(t, rest)
  {
    hide WriteMixed, ReadRecord, SlotsFit, FoldSigned, Overlay, NamesOf, SignedFields, KnownOf;
    MixedRead(SIGNED, slots, rest);
    FoldFrom(t, ZERO_SIGNED, KnownOf(slots));
    AllNames(t, KnownOf(slots));
  }

  /**
   * The bytes CheckRepoSig re-derives from a stored commit are the bytes its maker gave the
   * signer, whatever the signature is; and two commits with the same signed bytes differ in
   * nothing but the signature.
   */
  lemma SignedBytesRederived(u: UnsignedCommit, sig: Bytes, sc: SignedCommit)
    requires EncodableUnsigned(u) && |sig| <= MAX_SIG
    requires sc == SignedCommit(u.did, u.version, u.prev, u.data, sig, u.rev)
    ensures DecodeSigned(EncodeSigned(sc)).Got?
    ensures var stored := DecodeSigned(EncodeSigned(sc)).value;
            stored.sig == sig && EncodableUnsigned(Unsigned(stored))
            && EncodeUnsigned(Unsigned(stored)) == EncodeUnsigned(u)
    ensures forall v: UnsignedCommit :: EncodableUnsigned(v) && EncodeUnsigned(v) == EncodeUnsigned(u) ==> v == u
  {
    hide EncodeSigned, EncodeUnsigned, DecodeSigned, DecodeUnsigned;
    SignedRoundTrip(sc, []);
    assert EncodeSigned(sc) + [] == EncodeSigned(sc);
    UnsignedRoundTrip(u, []);
    forall v: UnsignedCommit | EncodableUnsigned(v) && EncodeUnsigned(v) == EncodeUnsigned(u)
      ensures v == u
    {
      UnsignedRoundTrip(v, []);
    }
  }

  // ----- the generated methods -----

  class Writer {
    var buf: Bytes

    constructor () ensures buf == [] { buf := []; }

    method Write(b: Bytes)
      modifies this
      ensures buf == old(buf) + b
    {
      buf := buf + b;
    }

    /** The length check, then header and content of a text string. */
    method WriteText(t: Bytes) returns (ok: bool)
      modifies this
      ensures ok == FitsText(t)
      ensures buf == if ok then old(buf) + Text(t) else old(buf)
    {
      if |t| > MAX_STRING { return false; }
      buf := buf + Header(MAJ_TEXT, |t|);
      buf := buf + t;
      return true;
    }
  }

  /** Writing one more field after some. */
  lemma FieldWritten(schema: Schema, head: Bytes, fs: seq<Field>, f: Field)
    requires FieldsFit(schema, fs + [f])
    ensures FieldsFit(schema, fs) && FieldFits(schema, f)
    ensures head + WriteFields(schema, fs) + Text(f.name) + Write(schema(f.name).value, f.val)
         == head + WriteFields(schema, fs + [f])
  {
    hide Text, Write, Fits, FitsText;
    assert forall i :: 0 <= i < |fs| ==> (fs + [f])[i] == fs[i];
    assert (fs + [f])[|fs|] == f;
    FieldsSnoc(schema, fs, f);
  }

  lemma {:induction false} FieldsSnoc(schema: Schema, fs: seq<Field>, f: Field)
    requires FieldsFit(schema, fs) && FieldFits(schema, f) && FieldsFit(schema, fs + [f])
    ensures WriteFields(schema, fs + [f]) == WriteFields(schema, fs) + WriteField(schema, f)
    decreases |fs|
  {
    hide WriteField, FieldFits;
    if fs == [] {
      assert fs + [f] == [f];
    } else {
      assert (fs + [f])[1..] == fs[1..] + [f];
      FieldsSnoc(schema, fs[1..], f);
    }
  }

  /** SignedCommit.MarshalCBOR, field by field; None stands for its errors. */
  method MarshalSigned(t: SignedCommit) returns (out: Option<Bytes>)
    ensures out == if EncodableSigned(t) then Some(EncodeSigned(t)) else None
  {
    hide Header, Text, CidItem, ByteString, WriteInt, WriteFields, SignedFields, FieldsFit;
    var fieldCount := 6;
    if t.rev == [] { fieldCount := fieldCount - 1; }
    var w := new Writer();
    var head := Header(MAJ_MAP, fieldCount);
    w.Write(head);
    assert w.buf == head;
    var ok := w.WriteText(DID);
    ok := w.WriteText(t.did);
    if !ok { return None; }
    if t.rev != [] {
      ok := w.WriteText(REV);
      ok := w.WriteText(t.rev);
      if !ok { return None; }
    }
    ok := w.WriteText(SIG);
    if |t.sig| > MAX_SIG { return None; }
    w.Write(ByteString(t.sig));
    ok := w.WriteText(DATA);
    if t.data.None? { return None; }
    w.Write(CidItem(t.data.value));
    ok := w.WriteText(PREV);
    if t.prev.None? {
      w.Write([NULL]);
    } else {
      w.Write(CidItem(t.prev.value));
    }
    ok := w.WriteText(VERSION);
    w.Write(WriteInt(t.version));
    SignedBytes(t, head);
    return Some(w.buf);
  }

  /** EncodeSigned, with the fields that precede the signature left together. */
  lemma SignedBytes(t: SignedCommit, head: Bytes)
    requires EncodableSigned(t) && head == Header(MAJ_MAP, if t.rev == [] then 5 else 6)
    ensures EncodeSigned(t) ==
      (if t.rev == [] then head + Text(DID) + Text(t.did)
       else head + Text(DID) + Text(t.did) + Text(REV) + Text(t.rev))
      + Text(SIG) + ByteString(t.sig) + Text(DATA) + CidItem(t.data.value)
      + Text(PREV) + (if t.prev.None? then [NULL] else CidItem(t.prev.value))
      + Text(VERSION) + WriteInt(t.version)
  {
    hide Header, Text, CidItem, ByteString, WriteInt, WriteFields, FieldsFit, FieldFits, FitsText;
    SignedFit(t);
    var fs := SignedFields(t);
    var k := if t.rev == [] then 1 else 2;
    assert |fs| == k + 4 && fs[0] == Field(DID, VText(t.did)) && (k == 2 ==> fs[1] == Field(REV, VText(t.rev)));
    assert fs[k] == Field(SIG, VBytes(t.sig)) && fs[k + 1] == Field(DATA, VCid(t.data.value));
    assert fs[k + 2] == Field(PREV, NullableCid(t.prev)) && fs[k + 3] == Field(VERSION, VInt(t.version));
    hide SignedFields;
    assert fs[..0] == [] && WriteFields(SIGNED, []) == [] && head + [] == head by { NoFields(SIGNED); }
    SignedPrefix(t, head, 0);
    if k == 2 { SignedPrefix(t, head, 1); }
    SignedPrefix(t, head, k);
    SignedPrefix(t, head, k + 1);
    SignedPrefix(t, head, k + 2);
    SignedPrefix(t, head, k + 3);
    assert fs[..k + 4] == fs;
  }

  lemma NoFields(schema: Schema)
    ensures FieldsFit(schema, []) && WriteFields(schema, []) == []
  {
  }

  lemma SignedPrefix(t: SignedCommit, head: Bytes, i: nat)
    requires EncodableSigned(t) && i < |SignedFields(t)|
    ensures var fs := SignedFields(t);
            && FieldsFit(SIGNED, fs[..i]) && FieldsFit(SIGNED, fs[..i + 1]) && FieldFits(SIGNED, fs[i])
            && head + WriteFields(SIGNED, fs[..i + 1])
               == head + WriteFields(SIGNED, fs[..i]) + Text(fs[i].name) + Write(SIGNED(fs[i].name).value, fs[i].val)
  {
    hide SignedFields, WriteFields, Text, Write, Fits, FitsText;
    SignedFit(t);
    var fs := SignedFields(t);
    assert fs[..i + 1] == fs[..i] + [fs[i]];
    assert forall j :: 0 <= j < i + 1 ==> fs[..i + 1][j] == fs[j];
    FieldWritten(SIGNED, head, fs[..i], fs[i]);
  }

  /** UnsignedCommit.MarshalCBOR, which BytesForSigning runs over an empty buffer. */
  method MarshalUnsigned(t: UnsignedCommit) returns (out: Option<Bytes>)
    ensures out == if EncodableUnsigned(t) then Some(EncodeUnsigned(t)) else None
  {
    hide Header, Text, CidItem, WriteInt, WriteFields, UnsignedFields, FieldsFit;
    var fieldCount := 5;
    if t.rev == [] { fieldCount := fieldCount - 1; }
    var w := new Writer();
    var head := Header(MAJ_MAP, fieldCount);
    w.Write(head);
    assert w.buf == head;
    var ok := w.WriteText(DID);
    ok := w.WriteText(t.did);
    if !ok { return None; }
    if t.rev != [] {
      ok := w.WriteText(REV);
      ok := w.WriteText(t.rev);
      if !ok { return None; }
    }
    ok := w.WriteText(DATA);
    if t.data.None? { return None; }
    w.Write(CidItem(t.data.value));
    ok := w.WriteText(PREV);
    if t.prev.None? {
      w.Write([NULL]);
    } else {
      w.Write(CidItem(t.prev.value));
    }
    ok := w.WriteText(VERSION);
    w.Write(WriteInt(t.version));
    UnsignedBytes(t, head);
    return Some(w.buf);
  }

  lemma UnsignedBytes(t: UnsignedCommit, head: Bytes)
    requires EncodableUnsigned(t) && head == Header(MAJ_MAP, if t.rev == [] then 4 else 5)
    ensures EncodeUnsigned(t) ==
      (if t.rev == [] then head + Text(DID) + Text(t.did)
       else head + Text(DID) + Text(t.did) + Text(REV) + Text(t.rev))
      + Text(DATA) + CidItem(t.data.value)
      + Text(PREV) + (if t.prev.None? then [NULL] else CidItem(t.prev.value))
      + Text(VERSION) + WriteInt(t.version)
  {
    hide Header, Text, CidItem, WriteInt, WriteFields, FieldsFit, FieldFits, FitsText;
    UnsignedFit(t);
    var fs := UnsignedFields(t);
    var k := if t.rev == [] then 1 else 2;
    assert fs[..0] == [] && WriteFields(UNSIGNED, []) == [] && head + [] == head by { NoFields(UNSIGNED); }
    UnsignedPrefix(t, head, 0);
    if k == 2 { UnsignedPrefix(t, head, 1); }
    UnsignedPrefix(t, head, k);
    UnsignedPrefix(t, head, k + 1);
    UnsignedPrefix(t, head, k + 2);
    assert fs[..k + 3] == fs;
  }

  lemma UnsignedPrefix(t: UnsignedCommit, head: Bytes, i: nat)
    requires EncodableUnsigned(t) && i < |UnsignedFields(t)|
    ensures var fs := UnsignedFields(t);
            && FieldsFit(UNSIGNED, fs[..i]) && FieldsFit(UNSIGNED, fs[..i + 1]) && FieldFits(UNSIGNED, fs[i])
            && head + WriteFields(UNSIGNED, fs[..i + 1])
               == head + WriteFields(UNSIGNED, fs[..i]) + Text(fs[i].name) + Write(UNSIGNED(fs[i].name).value, fs[i].val)
  {
    hide UnsignedFields, WriteFields, Text, Write, Fits, FitsText;
    UnsignedFit(t);
    var fs := UnsignedFields(t);
    assert fs[..i + 1] == fs[..i] + [fs[i]];
    assert forall j :: 0 <= j < i + 1 ==> fs[..i + 1][j] == fs[j];
    FieldWritten(UNSIGNED, head, fs[..i], fs[i]);
  }

  /** A commit block is small. */
  lemma SignedSize(t: SignedCommit)
    requires EncodableSigned(t)
    ensures |EncodeSigned(t)| <= |t.did| + |t.rev| + |t.sig| + 500
  {
    hide EncodeSigned, Header, CidItem, WriteInt, Text, ByteString;
    var head := Header(MAJ_MAP, if t.rev == [] then 5 else 6);
    SignedBytes(t, head);
    assert |head| <= 9 by { HeaderLength(MAJ_MAP, if t.rev == [] then 5 else 6); }
    TextSize(DID); TextSize(t.did); TextSize(REV); TextSize(t.rev); TextSize(SIG); TextSize(DATA); TextSize(PREV); TextSize(VERSION);
    assert |ByteString(t.sig)| <= |t.sig| + 9 by { BytesSize(t.sig); }
    CidItemSize(t.data.value);
    if t.prev.Some? { CidItemSize(t.prev.value); }
    assert |WriteInt(t.version)| <= 9 by { IntSize(t.version); }
  }

  lemma TextSize(s: Bytes)
    requires FitsText(s)
    ensures |Text(s)| <= |s| + 9
  {
    hide Header;
    HeaderLength(MAJ_TEXT, |s|);
  }

  lemma BytesSize(s: Bytes)
    requires |s| <= MAX_SIG
    ensures |ByteString(s)| <= |s| + 9
  {
    hide Header;
    HeaderLength(MAJ_BYTES, |s|);
  }

  lemma IntSize(v: int64)
    ensures |WriteInt(v)| <= 9
  {
    hide Header;
    var x: int := v;
    HeaderLength(if x >= 0 then MAJ_UINT else MAJ_NEGINT, if x >= 0 then x else -x - 1);
  }

  lemma CidItemSize(c: Cid)
    ensures |CidItem(c)| <= 170
  {
    hide Header, CidBytes;
    CidBytesShort(c);
    HeaderLength(MAJ_TAG, CID_TAG);
    HeaderLength(MAJ_BYTES, |[0] + CidBytes(c)|);
  }

  class Reader {
    var rest: Bytes

    constructor (s: Bytes) ensures rest == s { rest := s; }

    method ReadField(schema: Schema) returns (r: Result<Option<Field>, ()>)
      modifies this
      ensures var p := Records.ReadField(schema, old(rest));
              && (r.Ok? <==> p.Got?)
              && (p.Got? ==> r.value == p.value && rest == p.rest)
    {
      var p := Records.ReadField(schema, rest);
      if p.Fail? { return Err(()); }
      rest := p.rest;
      return Ok(p.value);
    }
  }

  function DecodeFrom(t: SignedCommit, s: Bytes, n: nat): Parsed<SignedCommit> {
    match ReadFields(SIGNED, s, n)
    case Fail => Fail
    case Got(fs, rest) => Got(FoldSigned(t, fs), rest)
  }

  lemma DecodeStep(t: SignedCommit, s: Bytes, n: nat)
    requires n > 0
    ensures var p := Records.ReadField(SIGNED, s);
            DecodeFrom(t, s, n) ==
              if p.Fail? then Fail
              else DecodeFrom(if p.value.Some? then AssignSigned(t, p.value.value) else t, p.rest, n - 1)
  {
    hide Records.ReadField, AssignSigned;
    var p := Records.ReadField(SIGNED, s);
    if p.Got? {
      var q := ReadFields(SIGNED, p.rest, n - 1);
      if q.Got? {
        if p.value.Some? {
          var fs := [p.value.value] + q.value;
          assert fs[1..] == q.value;
        } else {
          assert [] + q.value == q.value;
        }
      }
    }
  }

  /** SignedCommit.UnmarshalCBOR: a loop over the announced fields, whatever their order. */
  method UnmarshalSigned(s: Bytes) returns (r: Parsed<SignedCommit>)
    ensures r == DecodeSigned(s)
  {
    hide ReadHeader, Records.ReadField, ReadFields, FoldSigned;
    var h := ReadHeader(s);
    if h.Fail? || h.value.0 != MAJ_MAP || h.value.1 > MAX_FIELDS { return Fail; }
    var n := h.value.1;
    var reader := new Reader(h.rest);
    var t := ZERO_SIGNED;
    assert DecodeSigned(s) == DecodeFrom(ZERO_SIGNED, h.rest, n);
    for i := 0 to n
      invariant DecodeFrom(t, reader.rest, n - i) == DecodeFrom(ZERO_SIGNED, h.rest, n)
    {
      DecodeStep(t, reader.rest, n - i);
      var f := reader.ReadField(SIGNED);
      if f.Err? { return Fail; }
      if f.value.Some? { t := AssignSigned(t, f.value.value); }
    }
    assert DecodeFrom(t, reader.rest, 0) == Got(t, reader.rest) by { DecodeNone(t, reader.rest); }
    return Got(t, reader.rest);
  }

  lemma DecodeNone(t: SignedCommit, s: Bytes)
    ensures DecodeFrom(t, s, 0) == Got(t, s)
  {
  }
}
