/**
 * DID PLC operations (user_service/internal/plc/models.go) and their generated codecs in
 * user_service/internal/plc/cbor_gen.go; Service itself is in Records.
 */
module PlcCodec {
  import opened Prelude
  import opened Cids
  import opened Cbor
  import opened Records
  import opened SortedKeys

  datatype Op = Op(
    prev: Option<Bytes>, kind: Bytes, sig: Bytes, services: map<Bytes, Service>,
    verificationMethods: map<Bytes, Bytes>, alsoKnownAs: seq<Bytes>, rotationKeys: seq<Bytes>)

  datatype TombstoneOp = TombstoneOp(prev: Bytes, kind: Bytes, sig: Bytes)

  const SIG: Bytes := [0x73, 0x69, 0x67]                  // "sig"
  const PREV: Bytes := [0x70, 0x72, 0x65, 0x76]           // "prev"
  const SERVICES: Bytes := [0x73, 0x65, 0x72, 0x76, 0x69, 0x63, 0x65, 0x73]                                // "services"
  const ALSO_KNOWN_AS: Bytes := [0x61, 0x6c, 0x73, 0x6f, 0x4b, 0x6e, 0x6f, 0x77, 0x6e, 0x41, 0x73]         // "alsoKnownAs"
  const ROTATION_KEYS: Bytes := [0x72, 0x6f, 0x74, 0x61, 0x74, 0x69, 0x6f, 0x6e, 0x4b, 0x65, 0x79, 0x73]   // "rotationKeys"
  const VERIFICATION_METHODS: Bytes := [                                                                   // "verificationMethods"
    0x76, 0x65, 0x72, 0x69, 0x66, 0x69, 0x63, 0x61, 0x74, 0x69, 0x6f, 0x6e, 0x4d, 0x65, 0x74, 0x68, 0x6f, 0x64, 0x73]

  const ZERO_OP := Op(None, [], [], map[], map[], [], [])
  const ZERO_TOMBSTONE := TombstoneOp([], [], [])

  function OpKind(name: Bytes): Option<FieldKind> {
    if name == SIG || name == TYPE then Some(KText)
    else if name == PREV then Some(KNullableText)
    else if name == SERVICES then Some(KMap(true))
    else if name == VERIFICATION_METHODS then Some(KMap(false))
    else if name == ALSO_KNOWN_AS || name == ROTATION_KEYS then Some(KTexts)
    else None
  }

  function TombstoneKind(name: Bytes): Option<FieldKind> {
    if name == SIG || name == PREV || name == TYPE then Some(KText) else None
  }

  const OP: Schema := name => OpKind(name)
  const TOMBSTONE: Schema := name => TombstoneKind(name)

  function ServiceEntries(m: map<Bytes, Service>): map<Bytes, Entry> { map k | k in m :: ServiceEntry(m[k]) }
  function TextEntries(m: map<Bytes, Bytes>): map<Bytes, Entry> { map k | k in m :: TextEntry(m[k]) }
  function EntryServices(m: map<Bytes, Entry>): map<Bytes, Service> { map k | k in m && m[k].ServiceEntry? :: m[k].service }
  function EntryTexts(m: map<Bytes, Entry>): map<Bytes, Bytes> { map k | k in m && m[k].TextEntry? :: m[k].text }

  predicate FitsTexts(ts: seq<Bytes>) {
    |ts| <= MAX_ARRAY && forall i :: 0 <= i < |ts| ==> FitsText(ts[i])
  }

  predicate EncodableOp(t: Op) {
    && FitsText(t.sig) && FitsText(t.kind) && (t.prev.Some? ==> FitsText(t.prev.value))
    && |t.services| <= MAX_MAP && |t.verificationMethods| <= MAX_MAP
    && (forall k :: k in t.services ==>
          FitsText(k) && FitsText(t.services[k].kind) && FitsText(t.services[k].endpoint))
    && (forall k :: k in t.verificationMethods ==> FitsText(k) && FitsText(t.verificationMethods[k]))
    && FitsTexts(t.alsoKnownAs) && FitsTexts(t.rotationKeys)
  }

  /** The fields in the order they are written; an empty sig is omitted. */
  function OpFields(t: Op): seq<Field> {
    SigField(t) + HeadFields(t) + MiddleFields(t) + TailFields(t)
  }

  function SigField(t: Op): seq<Field> {
    if t.sig == [] then [] else [Field(SIG, VText(t.sig))]
  }

  function HeadFields(t: Op): seq<Field> {
    [Field(PREV, if t.prev.None? then VNull else VText(t.prev.value)), Field(TYPE, VText(t.kind))]
  }

  function MiddleFields(t: Op): seq<Field> {
    [Field(SERVICES, VMap(ServiceEntries(t.services))), Field(ALSO_KNOWN_AS, VTexts(t.alsoKnownAs))]
  }

  function TailFields(t: Op): seq<Field> {
    [Field(ROTATION_KEYS, VTexts(t.rotationKeys)), Field(VERIFICATION_METHODS, VMap(TextEntries(t.verificationMethods)))]
  }

  lemma OpCanonical(t: Op, u: TombstoneOp)
    ensures CanonicalOrder(OpFields(t)) && CanonicalOrder(TombstoneFields(u))
  {
    assert |SIG| == 3 && |PREV| == |TYPE| == 4 && |SERVICES| == 8 && |ALSO_KNOWN_AS| == 11;
    assert |ROTATION_KEYS| == 12 && |VERIFICATION_METHODS| == 19;
    assert Lex(PREV, TYPE) by { assert PREV[0] < TYPE[0]; }
    hide SIG, PREV, TYPE, SERVICES, ALSO_KNOWN_AS, ROTATION_KEYS, VERIFICATION_METHODS, Lex;
    var fs, k := OpFields(t), if t.sig == [] then 0 else 1;
    assert k == 1 ==> fs[0].name == SIG;
    assert fs[k].name == PREV && fs[k + 1].name == TYPE && fs[k + 2].name == SERVICES && fs[k + 3].name == ALSO_KNOWN_AS;
    assert fs[k + 4].name == ROTATION_KEYS && fs[k + 5].name == VERIFICATION_METHODS && |fs| == k + 6;
  }

  /** A case of the field switch; a null prev and an empty array leave the field alone. */
  function AssignOp(t: Op, f: Field): Op {
    match f.val
    case VText(s) =>
      if f.name == SIG then t.(sig := s) else if f.name == PREV then t.(prev := Some(s)) else t.(kind := s)
    case VTexts(ts) =>
      if ts == [] then t
      else if f.name == ALSO_KNOWN_AS then t.(alsoKnownAs := ts) else t.(rotationKeys := ts)
    case VMap(m) =>
      if f.name == SERVICES then t.(services := EntryServices(m)) else t.(verificationMethods := EntryTexts(m))
    case _ => t
  }

  function FoldOp(t: Op, fs: seq<Field>): Op
    decreases |fs|
  {
    if fs == [] then t else FoldOp(AssignOp(t, fs[0]), fs[1..])
  }

  ghost function EncodeOp(t: Op): Bytes
    requires EncodableOp(t)
  {
    OpFit(t);
    WriteRecord(OP, OpFields(t))
  }

  function DecodeOp(s: Bytes): Parsed<Op> {
    match ReadRecord(OP, s)
    case Fail => Fail
    case Got(fs, rest) => Got(FoldOp(ZERO_OP, fs), rest)
  }

  lemma SizeOfImage<V>(m: map<Bytes, V>, n: map<Bytes, Entry>)
    requires m.Keys == n.Keys
    ensures |m| == |n|
  {
    assert |m| == |m.Keys| && |n| == |n.Keys|;
  }

  lemma OpFit(t: Op)
    requires EncodableOp(t)
    ensures FieldsFit(OP, OpFields(t))
  {
    hide FieldsFit, SigField, HeadFields, MiddleFields, TailFields;
    HeadFits(t);
    TailFits(t);
    FitConcat(OP, SigField(t), HeadFields(t));
    FitConcat(OP, MiddleFields(t), TailFields(t));
    FitConcat(OP, SigField(t) + HeadFields(t), MiddleFields(t) + TailFields(t));
    assert OpFields(t) == (SigField(t) + HeadFields(t)) + (MiddleFields(t) + TailFields(t));
  }

  lemma HeadFits(t: Op)
    requires EncodableOp(t)
    ensures FieldsFit(OP, SigField(t)) && FieldsFit(OP, HeadFields(t))
    ensures |SigField(t)| <= 1 && |HeadFields(t)| == 2
  {
    OpKinds();
    hide OpKind, FitsText, FitsTexts;
  }

  lemma TailFits(t: Op)
    requires EncodableOp(t)
    ensures FieldsFit(OP, MiddleFields(t)) && FieldsFit(OP, TailFields(t))
    ensures |MiddleFields(t)| == 2 && |TailFields(t)| == 2
  {
    OpKinds();
    MapsFit(t);
    hide OpKind, FitsText, MapFits;
  }

  lemma FitConcat(schema: Schema, a: seq<Field>, b: seq<Field>)
    requires FieldsFit(schema, a) && FieldsFit(schema, b) && |a| + |b| <= MAX_FIELDS
    ensures FieldsFit(schema, a + b)
  {
    hide FieldFits;
  }

  lemma OpKinds()
    ensures OpKind(SIG) == Some(KText) && OpKind(TYPE) == Some(KText) && OpKind(PREV) == Some(KNullableText)
    ensures OpKind(SERVICES) == Some(KMap(true)) && OpKind(VERIFICATION_METHODS) == Some(KMap(false))
    ensures OpKind(ALSO_KNOWN_AS) == Some(KTexts) && OpKind(ROTATION_KEYS) == Some(KTexts)
    ensures FitsText(SIG) && FitsText(PREV) && FitsText(TYPE) && FitsText(SERVICES)
    ensures FitsText(ALSO_KNOWN_AS) && FitsText(ROTATION_KEYS) && FitsText(VERIFICATION_METHODS)
  {
    NamesDiffer();
  }

  lemma MapsFit(t: Op)
    requires EncodableOp(t)
    ensures MapFits(true, ServiceEntries(t.services)) && MapFits(false, TextEntries(t.verificationMethods))
  {
    SizeOfImage(t.services, ServiceEntries(t.services));
    SizeOfImage(t.verificationMethods, TextEntries(t.verificationMethods));
  }

  lemma NamesDiffer()
    ensures |SIG| == 3 && |PREV| == 4 && |TYPE| == 4 && PREV != TYPE && |SERVICES| == 8
    ensures |ALSO_KNOWN_AS| == 11 && |ROTATION_KEYS| == 12 && |VERIFICATION_METHODS| == 19
  {
    assert PREV[0] != TYPE[0];
  }

  lemma {:induction false} FoldOpConcat(t: Op, a: seq<Field>, b: seq<Field>)
    ensures FoldOp(t, a + b) == FoldOp(FoldOp(t, a), b)
    decreases |a|
  {
    if a == [] {
      assert a + b == b;
    } else {
      assert (a + b)[1..] == a[1..] + b;
      FoldOpConcat(AssignOp(t, a[0]), a[1..], b);
    }
  }

  lemma FoldTwo(t: Op, f: Field, g: Field)
    ensures FoldOp(t, [f, g]) == AssignOp(AssignOp(t, f), g)
  {
    assert [f, g][1..] == [g];
    assert FoldOp(AssignOp(t, f), [g]) == FoldOp(AssignOp(AssignOp(t, f), g), [g][1..]);
  }

  lemma OpFieldsFold(t: Op)
    ensures FoldOp(ZERO_OP, OpFields(t)) == t
  {
    hide SigField, HeadFields, MiddleFields, TailFields;
    FoldOpConcat(ZERO_OP, SigField(t) + HeadFields(t) + MiddleFields(t), TailFields(t));
    FoldOpConcat(ZERO_OP, SigField(t) + HeadFields(t), MiddleFields(t));
    FoldOpConcat(ZERO_OP, SigField(t), HeadFields(t));
    FoldHead(t);
    FoldTail(t);
  }

  lemma FoldHead(t: Op)
    ensures FoldOp(FoldOp(ZERO_OP, SigField(t)), HeadFields(t)) == ZERO_OP.(sig := t.sig, prev := t.prev, kind := t.kind)
  {
    NamesDiffer();
    var t1 := ZERO_OP.(sig := t.sig);
    assert FoldOp(ZERO_OP, SigField(t)) == t1;
    FoldTwo(t1, HeadFields(t)[0], HeadFields(t)[1]);
  }

  lemma FoldTail(t: Op)
    ensures FoldOp(FoldOp(ZERO_OP.(sig := t.sig, prev := t.prev, kind := t.kind), MiddleFields(t)), TailFields(t)) == t
  {
    NamesDiffer();
    assert EntryServices(ServiceEntries(t.services)) == t.services;
    assert EntryTexts(TextEntries(t.verificationMethods)) == t.verificationMethods;
    var t2 := ZERO_OP.(sig := t.sig, prev := t.prev, kind := t.kind);
    var t3 := t2.(services := t.services, alsoKnownAs := t.alsoKnownAs);
    FoldTwo(t2, MiddleFields(t)[0], MiddleFields(t)[1]);
    FoldTwo(t3, TailFields(t)[0], TailFields(t)[1]);
  }

  lemma OpRoundTrip(t: Op, rest: Bytes)
    requires EncodableOp(t)
    ensures DecodeOp(EncodeOp(t) + rest) == Got(t, rest)
  {
    hide WriteRecord, ReadRecord, FieldsFit, OpFields;
    OpFit(t);
    RecordRoundTrip(OP, OpFields(t), rest);
    OpFieldsFold(t);
  }

  // ----- tombstones -----

  predicate EncodableTombstone(t: TombstoneOp) {
    FitsText(t.prev) && FitsText(t.kind) && FitsText(t.sig)
  }

  function TombstoneFields(t: TombstoneOp): seq<Field> {
    (if t.sig == [] then [] else [Field(SIG, VText(t.sig))])
    + [Field(PREV, VText(t.prev)), Field(TYPE, VText(t.kind))]
  }

  function AssignTombstone(t: TombstoneOp, f: Field): TombstoneOp {
    match f.val
    case VText(s) =>
      if f.name == SIG then t.(sig := s) else if f.name == PREV then t.(prev := s) else t.(kind := s)
    case _ => t
  }

  function FoldTombstone(t: TombstoneOp, fs: seq<Field>): TombstoneOp
    decreases |fs|
  {
    if fs == [] then t else FoldTombstone(AssignTombstone(t, fs[0]), fs[1..])
  }

  ghost function EncodeTombstone(t: TombstoneOp): Bytes
    requires EncodableTombstone(t)
  {
    WriteRecord(TOMBSTONE, TombstoneFields(t))
  }

  function DecodeTombstone(s: Bytes): Parsed<TombstoneOp> {
    match ReadRecord(TOMBSTONE, s)
    case Fail => Fail
    case Got(fs, rest) => Got(FoldTombstone(ZERO_TOMBSTONE, fs), rest)
  }

  lemma TombstoneRoundTrip(t: TombstoneOp, rest: Bytes)
    requires EncodableTombstone(t)
    ensures DecodeTombstone(EncodeTombstone(t) + rest) == Got(t, rest)
  {
    hide WriteRecord, ReadRecord;
    NamesDiffer();
    var fs := TombstoneFields(t);
    RecordRoundTrip(TOMBSTONE, fs, rest);
    var k := if t.sig == [] then 0 else 1;
    var b := [Field(PREV, VText(t.prev)), Field(TYPE, VText(t.kind))];
    assert fs[k..] == b && b[1..] == [b[1]];
    var t1 := ZERO_TOMBSTONE.(sig := t.sig);
    assert FoldTombstone(ZERO_TOMBSTONE, fs) == FoldTombstone(t1, b);
    assert FoldTombstone(t1, b) == FoldTombstone(t1.(prev := t.prev), [b[1]]) == t;
  }

  /**
   * The map writer of Op.MarshalCBOR: collect the keys in map order, sort them, write the
   * entries. The bytes do not depend on the order the map yields its keys in.
   */
  method MarshalMap(services: bool, m: map<Bytes, Entry>) returns (out: Option<Bytes>)
    requires services ==> forall k :: k in m ==> m[k].ServiceEntry?
    requires !services ==> forall k :: k in m ==> m[k].TextEntry?
    ensures out == if MapFits(services, m) then Some(WriteMap(services, m)) else None
  {
    assert WriteEntries(services, m, []) == [];
    hide Header, Text, WriteEntry, WriteEntries, FitsEntry, Sorted, WriteMap, StrictlySorted, Lex, MapFits;
    if |m| > MAX_MAP {
      assert !MapFits(services, m) by { TooLarge(services, m); }
      return None;
    }
    var keys := SortKeys(m);
    SortedMembers(m.Keys);
    var buf: Bytes := [];
    assert keys[..0] == [];
    for i := 0 to |keys|
      invariant EntriesFit(services, m, keys[..i])
      invariant buf == WriteEntries(services, m, keys[..i])
    {
      var k := keys[i];
      if !FitsText(k) || !FitsEntry(services, m[k]) {
        UnfitEntry(services, m, k);
        return None;
      }
      buf := buf + Text(k);
      buf := buf + WriteEntry(services, m[k]);
      assert keys[..i + 1] == keys[..i] + [k];
      EntriesSnoc(services, m, keys[..i], k);
    }
    assert keys[..|keys|] == keys;
    AllWritten(services, m);
    return Some(Header(MAJ_MAP, |m|) + buf);
  }

  lemma SortedMembers(s: set<Bytes>)
    ensures forall i :: 0 <= i < |Sorted(s)| ==> Sorted(s)[i] in s
  {
    SortedCorrect(s);
    assert forall i :: 0 <= i < |Sorted(s)| ==> Sorted(s)[i] in ToSet(Sorted(s));
  }

  lemma TooLarge(services: bool, m: map<Bytes, Entry>)
    requires |m| > MAX_MAP
    ensures !MapFits(services, m)
  {
  }

  lemma UnfitEntry(services: bool, m: map<Bytes, Entry>, k: Bytes)
    requires k in m && (!FitsText(k) || !FitsEntry(services, m[k]))
    ensures !MapFits(services, m)
  {
  }

  lemma AllWritten(services: bool, m: map<Bytes, Entry>)
    requires |m| <= MAX_MAP && EntriesFit(services, m, Sorted(m.Keys))
    ensures MapFits(services, m)
    ensures WriteMap(services, m) == Header(MAJ_MAP, |m|) + WriteEntries(services, m, Sorted(m.Keys))
  {
    hide Header, WriteEntries, FitsEntry, FitsText, Sorted;
    SortedCorrect(m.Keys);
    assert forall k :: k in m ==> k in ToSet(Sorted(m.Keys));
  }

  lemma {:induction false} EntriesSnoc(services: bool, m: map<Bytes, Entry>, keys: seq<Bytes>, k: Bytes)
    requires EntriesFit(services, m, keys) && k in m && FitsText(k) && FitsEntry(services, m[k])
    ensures EntriesFit(services, m, keys + [k])
    ensures WriteEntries(services, m, keys + [k]) == WriteEntries(services, m, keys) + Text(k) + WriteEntry(services, m[k])
    decreases |keys|
  {
    hide Text, WriteEntry;
    if keys == [] {
      assert keys + [k] == [k];
    } else {
      assert (keys + [k])[1..] == keys[1..] + [k];
      EntriesSnoc(services, m, keys[1..], k);
    }
  }
}
