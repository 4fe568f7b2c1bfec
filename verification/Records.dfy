/**
 * CBOR maps with known field names, as the generated MarshalCBOR and UnmarshalCBOR methods of
 * user_service/internal/repo/cbor_gen.go and user_service/internal/plc/cbor_gen.go write and
 * read them: fields in a fixed order when writing, in any order, with unknown ones skipped,
 * when reading.
 */
module Records {
  import opened Prelude
  import opened Cids
  import opened Cbor
  import opened SortedKeys

  type int64 = v: int | -TWO_63 <= v < TWO_63 witness 0

  const MAX_SIG := 2097152
  const MAX_ARRAY := 8192
  const MAX_MAP := 4096
  /** cbg.MaxLength, the largest struct map accepted. */
  const MAX_FIELDS := 8192

  datatype Service = Service(kind: Bytes, endpoint: Bytes)

  datatype Entry = TextEntry(text: Bytes) | ServiceEntry(service: Service)

  datatype Val =
    | VText(text: Bytes)
    | VBytes(bytes: Bytes)
    | VInt(num: int64)
    | VCid(cid: Cid)
    | VNull
    | VTexts(texts: seq<Bytes>)
    | VMap(entries: map<Bytes, Entry>)

  /** The Go types of the fields of the records modelled here. */
  datatype FieldKind = KText | KNullableText | KBytes | KInt | KCid | KNullableCid | KTexts | KMap(services: bool)

  // ----- values -----

  predicate FitsText(t: Bytes) { |t| <= MAX_STRING }

  predicate FitsEntry(services: bool, e: Entry) {
    if services then e.ServiceEntry? && FitsText(e.service.kind) && FitsText(e.service.endpoint)
    else e.TextEntry? && FitsText(e.text)
  }

  /** The value is of the kind and passes every length check of its writer. */
  predicate Fits(k: FieldKind, v: Val) {
    match k
    case KText => v.VText? && FitsText(v.text)
    case KNullableText => v.VNull? || (v.VText? && FitsText(v.text))
    case KBytes => v.VBytes? && |v.bytes| <= MAX_SIG
    case KInt => v.VInt?
    case KCid => v.VCid?
    case KNullableCid => v.VNull? || v.VCid?
    case KTexts => v.VTexts? && |v.texts| <= MAX_ARRAY && forall i :: 0 <= i < |v.texts| ==> FitsText(v.texts[i])
    case KMap(services) => v.VMap? && MapFits(services, v.entries)
  }

  /** Go's int64 negation and subtraction wrap around; the conversion to uint64 keeps the bits. */
  function Wrap64(x: int): int64
    requires -TWO_64 <= x < TWO_64
  {
    if x < -TWO_63 then x + TWO_64 else if x >= TWO_63 then x - TWO_64 else x
  }

  function ToUint64(x: int64): (n: nat)
    ensures n < TWO_64
  {
    if x < 0 then x + TWO_64 else x
  }

  function WriteInt(v: int64): Bytes {
    var x: int := v;
    if x >= 0 then Header(MAJ_UINT, x) else
      var negated: int := Wrap64(-x);
      Header(MAJ_NEGINT, ToUint64(Wrap64(negated - 1)))
  }

  function ReadInt(s: Bytes): Parsed<int64> {
    match ReadHeader(s)
    case Fail => Fail
    case Got(h, rest) =>
      if h.1 >= TWO_63 then Fail
      else if h.0 == MAJ_UINT then Got(h.1, rest)
      else if h.0 == MAJ_NEGINT then Got(-1 - h.1, rest)
      else Fail
  }

  /** The argument of a negative number n is -1 - n, whatever wraps around on the way. */
  lemma IntBytes(v: int64)
    ensures WriteInt(v) == if v >= 0 then Header(MAJ_UINT, v) else Header(MAJ_NEGINT, -1 - v)
  {
    hide Header;
  }

  /** Every int64 survives, the least one through the wrap-around of its negation. */
  lemma IntRoundTrip(v: int64, rest: Bytes)
    ensures ReadInt(WriteInt(v) + rest) == Got(v, rest)
  {
    var x: int := v;
    if x >= 0 {
      HeaderRoundTrip(MAJ_UINT, x, rest);
    } else {
      HeaderRoundTrip(MAJ_NEGINT, -x - 1, rest);
    }
  }

  function WriteTexts(ts: seq<Bytes>): Bytes
    requires forall i :: 0 <= i < |ts| ==> FitsText(ts[i])
  {
    if ts == [] then [] else assert FitsText(ts[0]); Text(ts[0]) + WriteTexts(ts[1..])
  }

  function ReadTexts(s: Bytes, n: nat): Parsed<seq<Bytes>> {
    if n == 0 then Got([], s) else
    match ReadText(s)
    case Fail => Fail
    case Got(t, s1) =>
      match ReadTexts(s1, n - 1)
      case Fail => Fail
      case Got(ts, rest) => Got([t] + ts, rest)
  }

  lemma {:induction false} TextsRoundTrip(ts: seq<Bytes>, rest: Bytes)
    requires forall i :: 0 <= i < |ts| ==> FitsText(ts[i])
    ensures ReadTexts(WriteTexts(ts) + rest, |ts|) == Got(ts, rest)
  {
    hide Text, ReadText;
    if ts == [] {
      assert [] + rest == rest;
    } else {
      assert WriteTexts(ts) + rest == Text(ts[0]) + (WriteTexts(ts[1..]) + rest);
      TextRoundTrip(ts[0], WriteTexts(ts[1..]) + rest);
      TextsRoundTrip(ts[1..], rest);
      assert [ts[0]] + ts[1..] == ts;
    }
  }

  // ----- the nested service record -----

  const TYPE: Bytes := [0x74, 0x79, 0x70, 0x65]                                   // "type"
  const ENDPOINT: Bytes := [0x65, 0x6e, 0x64, 0x70, 0x6f, 0x69, 0x6e, 0x74]       // "endpoint"

  function WriteService(s: Service): Bytes
    requires FitsText(s.kind) && FitsText(s.endpoint)
  {
    [162] + Text(TYPE) + Text(s.kind) + Text(ENDPOINT) + Text(s.endpoint)
  }

  function ReadServiceFields(s: Bytes, n: nat, v: Service): Parsed<Service>
    decreases n
  {
    if n == 0 then Got(v, s) else
    match ReadText(s)
    case Fail => Fail
    case Got(name, s1) =>
      if name == TYPE || name == ENDPOINT then
        match ReadText(s1)
        case Fail => Fail
        case Got(t, s2) =>
          ReadServiceFields(s2, n - 1, if name == TYPE then v.(kind := t) else v.(endpoint := t))
      else
        match Scan(s1, 1)
        case Fail => Fail
        case Got(_, s2) => ReadServiceFields(s2, n - 1, v)
  }

  function ReadService(s: Bytes): Parsed<Service> {
    match ReadHeader(s)
    case Fail => Fail
    case Got(h, rest) =>
      if h.0 != MAJ_MAP || h.1 > MAX_FIELDS then Fail else ReadServiceFields(rest, h.1, Service([], []))
  }

  lemma ServiceRoundTrip(v: Service, rest: Bytes)
    requires FitsText(v.kind) && FitsText(v.endpoint)
    ensures ReadService(WriteService(v) + rest) == Got(v, rest)
  {
    assert Header(MAJ_MAP, 2) == [162];
    hide Text, ReadText, Header, ReadHeader, Scan;
    var s4 := Text(v.endpoint) + rest;
    var s3 := Text(ENDPOINT) + s4;
    var s2 := Text(v.kind) + s3;
    var s1 := Text(TYPE) + s2;
    assert WriteService(v) + rest == Header(MAJ_MAP, 2) + s1;
    HeaderRoundTrip(MAJ_MAP, 2, s1);
    TextRoundTrip(TYPE, s2);
    TextRoundTrip(v.kind, s3);
    TextRoundTrip(ENDPOINT, s4);
    TextRoundTrip(v.endpoint, rest);
    assert |TYPE| != |ENDPOINT|;
    calc {
      ReadService(WriteService(v) + rest);
      ReadServiceFields(s1, 2, Service([], []));
      ReadServiceFields(s3, 1, Service(v.kind, []));
      ReadServiceFields(rest, 0, v);
      Got(v, rest);
    }
  }

  // ----- maps -----

  function WriteEntry(services: bool, e: Entry): Bytes
    requires FitsEntry(services, e)
  {
    if services then WriteService(e.service) else Text(e.text)
  }

  function ReadEntry(services: bool, s: Bytes): Parsed<Entry> {
    if services then
      match ReadService(s)
      case Fail => Fail
      case Got(v, rest) => Got(ServiceEntry(v), rest)
    else
      match ReadText(s)
      case Fail => Fail
      case Got(t, rest) => Got(TextEntry(t), rest)
  }

  predicate EntriesFit(services: bool, m: map<Bytes, Entry>, keys: seq<Bytes>) {
    forall i :: 0 <= i < |keys| ==> keys[i] in m && FitsText(keys[i]) && FitsEntry(services, m[keys[i]])
  }

  function WriteEntries(services: bool, m: map<Bytes, Entry>, keys: seq<Bytes>): Bytes
    requires EntriesFit(services, m, keys)
  {
    if keys == [] then [] else
      Text(keys[0]) + WriteEntry(services, m[keys[0]]) + WriteEntries(services, m, keys[1..])
  }

  function ReadEntries(services: bool, s: Bytes, n: nat, m: map<Bytes, Entry>): Parsed<map<Bytes, Entry>>
    decreases n
  {
    if n == 0 then Got(m, s) else
    match ReadText(s)
    case Fail => Fail
    case Got(key, s1) =>
      match ReadEntry(services, s1)
      case Fail => Fail
      case Got(e, s2) => ReadEntries(services, s2, n - 1, m[key := e])
  }

  lemma EntryRoundTrip(services: bool, key: Bytes, e: Entry, rest: Bytes, n: nat, acc: map<Bytes, Entry>)
    requires FitsText(key) && FitsEntry(services, e)
    ensures ReadEntries(services, Text(key) + (WriteEntry(services, e) + rest), n + 1, acc)
         == ReadEntries(services, rest, n, acc[key := e])
  {
    hide Text, ReadText, ReadService, WriteService;
    TextRoundTrip(key, WriteEntry(services, e) + rest);
    if services { ServiceRoundTrip(e.service, rest); } else { TextRoundTrip(e.text, rest); }
  }

  function Restrict(m: map<Bytes, Entry>, keys: set<Bytes>): map<Bytes, Entry> {
    map key | key in m && key in keys :: m[key]
  }

  lemma RestrictCons(m: map<Bytes, Entry>, keys: seq<Bytes>, acc: map<Bytes, Entry>)
    requires keys != [] && keys[0] in m
    ensures acc[keys[0] := m[keys[0]]] + Restrict(m, ToSet(keys[1..])) == acc + Restrict(m, ToSet(keys))
  {
    assert keys == [keys[0]] + keys[1..];
    assert ToSet(keys) == {keys[0]} + ToSet(keys[1..]);
  }

  lemma {:induction false} EntriesRoundTrip(
      services: bool, m: map<Bytes, Entry>, keys: seq<Bytes>, acc: map<Bytes, Entry>, rest: Bytes)
    requires EntriesFit(services, m, keys)
    ensures ReadEntries(services, WriteEntries(services, m, keys) + rest, |keys|, acc) == Got(acc + Restrict(m, ToSet(keys)), rest)
    decreases |keys|
  {
    hide Text, ReadText, ReadEntry, WriteEntry;
    if keys == [] {
      assert [] + rest == rest;
      assert acc + Restrict(m, ToSet(keys)) == acc;
    } else {
      var key, e := keys[0], m[keys[0]];
      var s2 := WriteEntries(services, m, keys[1..]) + rest;
      assert WriteEntries(services, m, keys) + rest == Text(key) + (WriteEntry(services, e) + s2);
      EntryRoundTrip(services, key, e, s2, |keys| - 1, acc);
      EntriesRoundTrip(services, m, keys[1..], acc[key := e], rest);
      RestrictCons(m, keys, acc);
    }
  }

  predicate MapFits(services: bool, m: map<Bytes, Entry>) {
    |m| <= MAX_MAP && forall key :: key in m ==> FitsText(key) && FitsEntry(services, m[key])
  }

  /** Entries are written in key order, so the map's iteration order does not show. */
  ghost function WriteMap(services: bool, m: map<Bytes, Entry>): Bytes
    requires MapFits(services, m)
  {
    SortedFit(services, m);
    Header(MAJ_MAP, |m|) + WriteEntries(services, m, Sorted(m.Keys))
  }

  lemma SortedFit(services: bool, m: map<Bytes, Entry>)
    requires MapFits(services, m)
    ensures EntriesFit(services, m, Sorted(m.Keys)) && |Sorted(m.Keys)| == |m|
  {
    var keys := Sorted(m.Keys);
    SortedCorrect(m.Keys);
    assert forall i :: 0 <= i < |keys| ==> keys[i] in ToSet(keys);
    assert |m.Keys| == |m|;
  }

  function ReadMap(services: bool, s: Bytes): Parsed<map<Bytes, Entry>> {
    match ReadHeader(s)
    case Fail => Fail
    case Got(h, rest) =>
      if h.0 != MAJ_MAP || h.1 > MAX_MAP then Fail else ReadEntries(services, rest, h.1, map[])
  }

  lemma RestrictAll(m: map<Bytes, Entry>)
    ensures map[] + Restrict(m, m.Keys) == m
  {
  }

  lemma AllEntriesRoundTrip(services: bool, m: map<Bytes, Entry>, rest: Bytes)
    requires MapFits(services, m) && EntriesFit(services, m, Sorted(m.Keys)) && |Sorted(m.Keys)| == |m|
    ensures ReadEntries(services, WriteEntries(services, m, Sorted(m.Keys)) + rest, |m|, map[]) == Got(m, rest)
  {
    hide ReadEntries, WriteEntries, EntriesFit, MapFits, Restrict;
    SortedCorrect(m.Keys);
    EntriesRoundTrip(services, m, Sorted(m.Keys), map[], rest);
    RestrictAll(m);
  }

  lemma MapRoundTrip(services: bool, m: map<Bytes, Entry>, rest: Bytes)
    requires MapFits(services, m)
    ensures ReadMap(services, WriteMap(services, m) + rest) == Got(m, rest)
  {
    assert |m| <= MAX_MAP;
    hide Header, ReadHeader, ReadEntries, WriteEntries, EntriesFit, MapFits;
    SortedFit(services, m);
    var keys := Sorted(m.Keys);
    var body := WriteEntries(services, m, keys);
    assert WriteMap(services, m) + rest == Header(MAJ_MAP, |m|) + (body + rest);
    assert ReadHeader(WriteMap(services, m) + rest) == Got((MAJ_MAP, |m|), body + rest) by {
      HeaderRoundTrip(MAJ_MAP, |m|, body + rest);
    }
    AllEntriesRoundTrip(services, m, rest);
  }

  // ----- one value -----

  ghost function Write(k: FieldKind, v: Val): Bytes
    requires Fits(k, v)
  {
    match v
    case VText(t) => Text(t)
    case VBytes(b) => ByteString(b)
    case VInt(i) => WriteInt(i)
    case VCid(c) => CidItem(c)
    case VNull => [NULL]
    case VTexts(ts) => Header(MAJ_ARRAY, |ts|) + WriteTexts(ts)
    case VMap(m) => WriteMap(k.services, m)
  }

  function MapParsed<T>(p: Parsed<T>, f: T -> Val): Parsed<Val> {
    match p
    case Fail => Fail
    case Got(v, rest) => Got(f(v), rest)
  }

  function ReadOne(k: FieldKind, s: Bytes): Parsed<Val> {
    match k
    case KText => MapParsed(ReadText(s), t => VText(t))
    case KNullableText =>
      if s != [] && s[0] == NULL then Got(VNull, s[1..]) else MapParsed(ReadText(s), t => VText(t))
    case KBytes => MapParsed(ReadByteString(s, MAX_SIG), b => VBytes(b))
    case KInt => MapParsed(ReadInt(s), i => VInt(i))
    case KCid => MapParsed(ReadCidItem(s), c => VCid(c))
    case KNullableCid =>
      if s != [] && s[0] == NULL then Got(VNull, s[1..]) else MapParsed(ReadCidItem(s), c => VCid(c))
    case KTexts =>
      (match ReadHeader(s)
       case Fail => Fail
       case Got(h, rest) =>
         if h.1 > MAX_ARRAY || h.0 != MAJ_ARRAY then Fail else MapParsed(ReadTexts(rest, h.1), ts => VTexts(ts)))
    case KMap(services) => MapParsed(ReadMap(services, s), m => VMap(m))
  }

  lemma TextsValueRoundTrip(v: Val, rest: Bytes)
    requires Fits(KTexts, v)
    ensures ReadOne(KTexts, Write(KTexts, v) + rest) == Got(v, rest)
  {
    hide Header, ReadHeader, ReadTexts, WriteTexts;
    var ts := v.texts;
    assert Write(KTexts, v) + rest == Header(MAJ_ARRAY, |ts|) + (WriteTexts(ts) + rest);
    HeaderRoundTrip(MAJ_ARRAY, |ts|, WriteTexts(ts) + rest);
    TextsRoundTrip(ts, rest);
  }

  /** A text or an identifier never starts with the byte of null. */
  lemma NotNull(maj: Major, n: nat)
    requires n < TWO_64 && maj < MAJ_OTHER
    ensures Header(maj, n)[0] != NULL
  {
  }

  lemma OneRoundTrip(k: FieldKind, v: Val, rest: Bytes)
    requires Fits(k, v)
    ensures ReadOne(k, Write(k, v) + rest) == Got(v, rest)
  {
    match v {
      case VText(t) =>
        TextRoundTrip(t, rest);
        NotNull(MAJ_TEXT, |t|);
      case VBytes(b) => ByteStringRoundTrip(b, MAX_SIG, rest);
      case VInt(i) => IntRoundTrip(i, rest);
      case VCid(c) =>
        CidItemRoundTrip(c, rest);
        NotNull(MAJ_TAG, CID_TAG);
      case VNull =>
      case VTexts(_) => TextsValueRoundTrip(v, rest);
      case VMap(m) => MapRoundTrip(k.services, m, rest);
    }
  }

  // ----- whole records -----

  type Schema = Bytes -> Option<FieldKind>

  datatype Field = Field(name: Bytes, val: Val)

  predicate FieldFits(schema: Schema, f: Field) {
    FitsText(f.name) && schema(f.name).Some? && Fits(schema(f.name).value, f.val)
  }

  predicate FieldsFit(schema: Schema, fs: seq<Field>) {
    |fs| <= MAX_FIELDS && forall i :: 0 <= i < |fs| ==> FieldFits(schema, fs[i])
  }

  ghost function WriteField(schema: Schema, f: Field): Bytes
    requires FieldFits(schema, f)
  {
    Text(f.name) + Write(schema(f.name).value, f.val)
  }

  ghost function WriteFields(schema: Schema, fs: seq<Field>): Bytes
    requires FieldsFit(schema, fs)
  {
    if fs == [] then [] else WriteField(schema, fs[0]) + WriteFields(schema, fs[1..])
  }

  /** One name and its value; None when the name is unknown and the value was skipped. */
  function ReadField(schema: Schema, s: Bytes): Parsed<Option<Field>> {
    match ReadText(s)
    case Fail => Fail
    case Got(name, s1) =>
      match schema(name)
      case None =>
        (match Scan(s1, 1)
         case Fail => Fail
         case Got(_, s2) => Got(None, s2))
      case Some(k) =>
        (match ReadOne(k, s1)
         case Fail => Fail
         case Got(v, s2) => Got(Some(Field(name, v)), s2))
  }

  function ReadFields(schema: Schema, s: Bytes, n: nat): Parsed<seq<Field>>
    decreases n
  {
    if n == 0 then Got([], s) else
    match ReadField(schema, s)
    case Fail => Fail
    case Got(f, s1) =>
      match ReadFields(schema, s1, n - 1)
      case Fail => Fail
      case Got(fs, rest) => Got((if f.Some? then [f.value] else []) + fs, rest)
  }

  lemma {:induction false} FieldsRoundTrip(schema: Schema, fs: seq<Field>, rest: Bytes)
    requires FieldsFit(schema, fs)
    ensures ReadFields(schema, WriteFields(schema, fs) + rest, |fs|) == Got(fs, rest)
    decreases |fs|
  {
    hide Text, ReadText, ReadOne, Write, Fits, Scan;
    if fs == [] {
      assert [] + rest == rest;
    } else {
      var f := fs[0];
      var s2 := WriteFields(schema, fs[1..]) + rest;
      var s1 := Write(schema(f.name).value, f.val) + s2;
      assert WriteFields(schema, fs) + rest == Text(f.name) + s1;
      TextRoundTrip(f.name, s1);
      OneRoundTrip(schema(f.name).value, f.val, s2);
      FieldsRoundTrip(schema, fs[1..], rest);
      assert [f] + fs[1..] == fs;
    }
  }

  ghost function WriteRecord(schema: Schema, fs: seq<Field>): Bytes
    requires FieldsFit(schema, fs)
  {
    Header(MAJ_MAP, |fs|) + WriteFields(schema, fs)
  }

  function ReadRecord(schema: Schema, s: Bytes): Parsed<seq<Field>> {
    match ReadHeader(s)
    case Fail => Fail
    case Got(h, rest) => if h.0 != MAJ_MAP || h.1 > MAX_FIELDS then Fail else ReadFields(schema, rest, h.1)
  }

  lemma RecordRoundTrip(schema: Schema, fs: seq<Field>, rest: Bytes)
    requires FieldsFit(schema, fs)
    ensures ReadRecord(schema, WriteRecord(schema, fs) + rest) == Got(fs, rest)
  {
    hide Header, ReadHeader, ReadFields, WriteFields;
    assert WriteRecord(schema, fs) + rest == Header(MAJ_MAP, |fs|) + (WriteFields(schema, fs) + rest);
    HeaderRoundTrip(MAJ_MAP, |fs|, WriteFields(schema, fs) + rest);
    FieldsRoundTrip(schema, fs, rest);
  }

  /** The canonical order of map keys: shorter ones first, and bytewise among those of one length. */
  predicate CanonicalOrder(fs: seq<Field>) {
    forall i, j :: 0 <= i < j < |fs| ==>
      |fs[i].name| < |fs[j].name| || (|fs[i].name| == |fs[j].name| && Lex(fs[i].name, fs[j].name))
  }

  // ----- fields in any order, among others -----

  /** What a record may hold: a field of the schema, or one item under a name outside it. */
  datatype Slot = Known(field: Field) | Unknown(name: Bytes, value: Bytes)

  predicate SlotFits(schema: Schema, slot: Slot) {
    match slot
    case Known(f) => FieldFits(schema, f)
    case Unknown(name, value) => FitsText(name) && schema(name).None? && Scan(value, 1).Got? && Scan(value, 1).rest == []
  }

  predicate SlotsFit(schema: Schema, slots: seq<Slot>) {
    |slots| <= MAX_FIELDS && forall i :: 0 <= i < |slots| ==> SlotFits(schema, slots[i])
  }

  ghost function WriteSlot(schema: Schema, slot: Slot): Bytes
    requires SlotFits(schema, slot)
  {
    match slot
    case Known(f) => WriteField(schema, f)
    case Unknown(name, value) => Text(name) + value
  }

  ghost function WriteSlots(schema: Schema, slots: seq<Slot>): Bytes
    requires SlotsFit(schema, slots)
  {
    if slots == [] then [] else WriteSlot(schema, slots[0]) + WriteSlots(schema, slots[1..])
  }

  function KnownOf(slots: seq<Slot>): seq<Field> {
    if slots == [] then [] else (if slots[0].Known? then [slots[0].field] else []) + KnownOf(slots[1..])
  }

  lemma SlotReads(schema: Schema, slot: Slot, rest: Bytes)
    requires SlotFits(schema, slot)
    ensures ReadField(schema, WriteSlot(schema, slot) + rest) == Got(if slot.Known? then Some(slot.field) else None, rest)
  {
    hide Text, ReadText, ReadOne, Write, Fits, Scan;
    match slot {
      case Known(f) =>
        var s1 := Write(schema(f.name).value, f.val) + rest;
        assert WriteSlot(schema, slot) + rest == Text(f.name) + s1;
        TextRoundTrip(f.name, s1);
        OneRoundTrip(schema(f.name).value, f.val, rest);
      case Unknown(name, value) =>
        assert WriteSlot(schema, slot) + rest == Text(name) + (value + rest);
        TextRoundTrip(name, value + rest);
        ScanExtends(value, rest, 1);
        assert [] + rest == rest;
    }
  }

  lemma {:induction false} SlotsRead(schema: Schema, slots: seq<Slot>, rest: Bytes)
    requires SlotsFit(schema, slots)
    ensures ReadFields(schema, WriteSlots(schema, slots) + rest, |slots|) == Got(KnownOf(slots), rest)
    decreases |slots|
  {
    hide ReadField, WriteSlot, SlotFits;
    if slots == [] {
      assert [] + rest == rest;
    } else {
      var s1 := WriteSlots(schema, slots[1..]) + rest;
      assert WriteSlots(schema, slots) + rest == WriteSlot(schema, slots[0]) + s1;
      SlotReads(schema, slots[0], s1);
      SlotsRead(schema, slots[1..], rest);
    }
  }

  ghost function WriteMixed(schema: Schema, slots: seq<Slot>): Bytes
    requires SlotsFit(schema, slots)
  {
    Header(MAJ_MAP, |slots|) + WriteSlots(schema, slots)
  }

  /** A reader gets the fields of its schema, in the order they stand, and skips the others. */
  lemma MixedRead(schema: Schema, slots: seq<Slot>, rest: Bytes)
    requires SlotsFit(schema, slots)
    ensures ReadRecord(schema, WriteMixed(schema, slots) + rest) == Got(KnownOf(slots), rest)
  {
    hide Header, ReadHeader, ReadFields, WriteSlots;
    assert WriteMixed(schema, slots) + rest == Header(MAJ_MAP, |slots|) + (WriteSlots(schema, slots) + rest);
    HeaderRoundTrip(MAJ_MAP, |slots|, WriteSlots(schema, slots) + rest);
    SlotsRead(schema, slots, rest);
  }
}
