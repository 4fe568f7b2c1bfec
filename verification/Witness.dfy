/**
 * What the repositories and the manager ask of their surroundings can be had: a store without
 * faults, and a library whose trees are single nodes. A manager over them starts a repository,
 * takes a batch of writes as one commit, and reads back what was written.
 */
module Witness {
  import opened Prelude
  import opened Cids
  import opened CarFile
  import opened Disk
  import opened CarStore
  import opened Repos
  import opened Batches
  import opened Managers
  import opened SortedKeys
  import Cbor
  import CommitCodec
  import R = Records

  // ----- a map as one node -----

  /** A path as it stands in a node: a 1 before each byte, and a 0 at the end. */
  function Text(p: Bytes): Bytes {
    if p == [] then [0] else [1, p[0]] + Text(p[1..])
  }

  function ReadText(s: Bytes): (r: Parsed<Bytes>)
    ensures r.Got? ==> |r.rest| < |s|
  {
    if s == [] then Fail
    else if s[0] == 0 then Got([], s[1..])
    else if |s| == 1 then Fail
    else match ReadText(s[2..])
      case Fail => Fail
      case Got(p, rest) => Got([s[1]] + p, rest)
  }

  lemma {:induction false} TextReads(p: Bytes, rest: Bytes)
    ensures ReadText(Text(p) + rest) == Got(p, rest)
  {
    if p == [] {
      assert (Text(p) + rest)[1..] == rest;
    } else {
      TextReads(p[1..], rest);
      assert (Text(p) + rest)[2..] == Text(p[1..]) + rest;
      assert [p[0]] + p[1..] == p;
    }
  }

  /** The entries of the map under these keys, each after a 1; a 0 ends them. */
  function Entries(m: Records, keys: seq<Bytes>): Bytes
    requires forall k :: k in keys ==> k in m
  {
    if keys == [] then [0] else [1] + Text(keys[0]) + CidBytes(m[keys[0]]) + Entries(m, keys[1..])
  }

  function Under(m: Records, keys: seq<Bytes>): Records
    requires forall k :: k in keys ==> k in m
  {
    map k | k in keys :: m[k]
  }

  function Parse(s: Bytes): Option<Records>
    decreases |s|
  {
    if s == [] then None
    else if s[0] == 0 then Some(map[])
    else match ReadText(s[1..])
      case Fail => None
      case Got(k, r1) =>
        match ReadCidBytes(r1)
        case Fail => None
        case Got(c, r2) =>
          if |r2| >= |s| then None
          else match Parse(r2)
            case None => None
            case Some(m) => Some(m[k := c])
  }

  lemma EntryParses(k: Bytes, c: Cid, rest: Bytes)
    requires Parse(rest).Some?
    ensures Parse([1] + Text(k) + CidBytes(c) + rest) == Some(Parse(rest).value[k := c])
  {
    hide Text, ReadText, CidBytes, ReadCidBytes;
    var s := [1] + Text(k) + CidBytes(c) + rest;
    assert s[1..] == Text(k) + (CidBytes(c) + rest);
    TextReads(k, CidBytes(c) + rest);
    CidRoundTrip(c, rest);
  }

  lemma {:induction false} EntriesParse(m: Records, keys: seq<Bytes>)
    requires forall k :: k in keys ==> k in m
    ensures Parse(Entries(m, keys)) == Some(Under(m, keys))
  {
    if keys == [] {
      assert Under(m, keys) == map[];
    } else {
      hide Parse, Text, CidBytes;
      EntriesParse(m, keys[1..]);
      EntryParses(keys[0], m[keys[0]], Entries(m, keys[1..]));
      OneMore(m, keys);
    }
  }

  lemma OneMore(m: Records, keys: seq<Bytes>)
    requires keys != [] && forall k :: k in keys ==> k in m
    ensures Under(m, keys[1..])[keys[0] := m[keys[0]]] == Under(m, keys)
  {
    assert keys == [keys[0]] + keys[1..];
  }

  function Encode(m: Records): Bytes {
    SortedKnows(m.Keys);
    Entries(m, Sorted(m.Keys))
  }

  lemma SortedKnows(s: set<Bytes>)
    ensures forall k :: k in Sorted(s) <==> k in s
  {
    SortedCorrect(s);
    assert forall k :: k in Sorted(s) <==> k in ToSet(Sorted(s));
  }

  lemma EncodeParses(m: Records)
    ensures Parse(Encode(m)) == Some(m)
  {
    SortedKnows(m.Keys);
    EntriesParse(m, Sorted(m.Keys));
    assert Under(m, Sorted(m.Keys)) == m;
  }

  // ----- the library -----

  const RECORD := 0x12
  const NODE := 0x13
  const COMMIT := 0x14

  /** A tree is named by how many records it has. */
  function Pointer(m: Records): Cid { Cid(DAG_CBOR, NODE, [|m| % 256]) }

  function Load(root: Cid, view: map<Cid, Bytes>): Option<Records> {
    if root in view then Parse(view[root]) else None
  }

  /** A commit is named after its tree, any other block by its first bytes. */
  function Hash(b: Bytes): Cid {
    var p := CommitCodec.DecodeSigned(b);
    if p.Got? && p.value.data.Some? then Cid(DAG_CBOR, COMMIT, p.value.data.value.digest)
    else Cid(DAG_CBOR, RECORD, if |b| < 128 then b else b[..127])
  }

  const ENV := Env(READER_LIMIT, (c, b) => true, true, root => HeaderCbor(root), false)

  const LIB := Lib(
    m => map[Pointer(m) := Encode(m)], m => Pointer(m), b => {}, (root, view) => Load(root, view), (kept, m) => {Pointer(m)},
    b => Hash(b), (did, b) => Some([]), (did, sig, b) => true)

  lemma SoundHere(m: Records)
    ensures Sound(LIB, m)
  {
    hide Encode, Parse;
    EncodeParses(m);
    forall view | Shows(LIB, m, view) ensures LIB.load(LIB.pointer(m), view) == Some(m) {
      assert view[Pointer(m)] == Encode(m);
    }
  }

  /** Everything the manager assumes of its environment and its libraries holds here. */
  lemma LawfulHere()
    ensures ENV.Valid() && Lawful(ENV, LIB) && Signs(LIB)
  {
    hide Encode, Hash, HeaderCbor, Sound;
    assert SaveLaw(LIB) by {
      forall kept: Option<Records>, m ensures Saves(LIB, kept, m) {}
    }
  }

  // ----- no clash as long as trees grow -----

  /** Records are known by their bytes; trees and commits by sizes up to n. */
  predicate Tidy(known: map<Cid, Bytes>, n: nat) {
    forall c :: c in known ==> TidyBlock(Block(c, known[c]), n)
  }

  predicate TidyBlock(b: Block, n: nat) {
    || (b.cid.codec == DAG_CBOR && b.cid.hash == RECORD && b.cid.digest == b.data)
    || (b.cid.hash in {NODE, COMMIT} && |b.cid.digest| == 1 && b.cid.digest[0] <= n)
  }

  predicate Plain(v: Bytes) {
    |v| < 128 && CommitCodec.DecodeSigned(v).Fail?
  }

  /** A block a write of plain records puts. */
  predicate PutHere(t: Records, b: Block)
    requires |t| < 256
  {
    || (|b.data| < 128 && b.cid == Cid(DAG_CBOR, RECORD, b.data))
    || (b.cid == Cid(DAG_CBOR, NODE, [|t|]) && b.data == Encode(t))
    || (b.cid == Cid(DAG_CBOR, COMMIT, [|t|]))
  }

  lemma AllPutHere(values: seq<Bytes>, t: Records, puts: seq<Block>)
    requires Puts(ENV, LIB, values, t, puts) && |t| < 256 && forall v :: v in values ==> Plain(v)
    ensures forall i :: 0 <= i < |puts| ==> PutHere(t, puts[i]) && (puts[i].cid.hash == COMMIT ==> i == |puts| - 1)
  {
    hide CommitCodec.DecodeSigned, Encode, SignatureOk;
    var n := |values|;
    forall i | 0 <= i < |puts| ensures PutHere(t, puts[i]) && (puts[i].cid.hash == COMMIT ==> i == |puts| - 1) {
      if i < n {
        assert puts[i] == RecordBlocks(LIB, values)[i];
        assert Plain(values[i]);
      } else if i < |puts| - 1 {
        assert puts[i] == puts[n..][..|puts[n..]| - 1][i - n];
      } else {
        assert puts[i] == puts[n..][|puts[n..]| - 1];
      }
    }
  }

  lemma NoClashHere(known: map<Cid, Bytes>, n: nat, values: seq<Bytes>, t: Records, puts: seq<Block>)
    requires Tidy(known, n) && n < |t| < 256 && Puts(ENV, LIB, values, t, puts) && forall v :: v in values ==> Plain(v)
    ensures NoClash(known, puts) && Tidy(known + Contents(puts), |t|)
  {
    AllPutHere(values, t, puts);
    hide Puts, Encode, Contents, PutHere;
    forall b | b in puts && b.cid in known ensures known[b.cid] == b.data {
      assert TidyBlock(Block(b.cid, known[b.cid]), n);
      OldAndNew(n, t, Block(b.cid, known[b.cid]), b);
    }
    forall i, j | 0 <= i < |puts| && 0 <= j < |puts| && puts[i].cid == puts[j].cid ensures puts[i] == puts[j] {
      if puts[i].cid.hash != COMMIT { TwoNew(t, puts[i], puts[j]); }
    }
    forall c | c in known + Contents(puts) ensures TidyBlock(Block(c, (known + Contents(puts))[c]), |t|) {
      if c in Contents(puts) {
        ContentsFrom(puts, c);
        NewTidy(t, Block(c, Contents(puts)[c]));
      } else {
        assert TidyBlock(Block(c, known[c]), n);
      }
    }
  }

  lemma OldAndNew(n: nat, t: Records, old': Block, b: Block)
    requires n < |t| < 256 && TidyBlock(old', n) && PutHere(t, b) && old'.cid == b.cid
    ensures old' == b
  {
    hide Encode;
  }

  lemma TwoNew(t: Records, a: Block, b: Block)
    requires |t| < 256 && PutHere(t, a) && PutHere(t, b) && a.cid == b.cid && a.cid.hash != COMMIT
    ensures a == b
  {
    hide Encode;
  }

  lemma NewTidy(t: Records, b: Block)
    requires |t| < 256 && PutHere(t, b)
    ensures TidyBlock(b, |t|)
  {
    hide Encode;
  }

  // ----- sizes -----

  lemma {:induction false} TextLength(p: Bytes)
    ensures |Text(p)| == 2 * |p| + 1
  {
    if p != [] { TextLength(p[1..]); }
  }

  lemma {:induction false} EntriesLength(m: Records, keys: seq<Bytes>)
    requires forall k :: k in keys ==> k in m && |k| <= 128
    ensures |Entries(m, keys)| <= 1 + |keys| * 408
  {
    if keys != [] {
      hide Text, CidBytes;
      TextLength(keys[0]);
      CidBytesShort(m[keys[0]]);
      EntriesLength(m, keys[1..]);
    }
  }

  lemma EncodeLength(t: Records)
    requires |t| < 256 && forall k :: k in t ==> |k| <= 128
    ensures |Encode(t)| <= 1 + 255 * 408
  {
    SortedKnows(t.Keys);
    SortedCorrect(t.Keys);
    EntriesLength(t, Sorted(t.Keys));
    assert |t.Keys| == |t|;
  }

  lemma SizedHere(values: seq<Bytes>, t: Records, puts: seq<Block>)
    requires Puts(ENV, LIB, values, t, puts) && |t| < 256 && forall v :: v in values ==> Plain(v)
    requires forall k :: k in t ==> |k| <= 128
    ensures Sized(ENV, puts)
  {
    AllPutHere(values, t, puts);
    EncodeLength(t);
    LastPut(values, t, puts);
    hide Encode, CidBytes, Puts, Plain;
    forall b | b in puts ensures |Body(b)| <= ENV.limit {
      CidBytesShort(b.cid);
    }
  }

  lemma LastPut(values: seq<Bytes>, t: Records, puts: seq<Block>)
    requires Puts(ENV, LIB, values, t, puts)
    ensures puts != [] && |Body(puts[|puts| - 1])| <= ENV.limit
  {
    hide CommitOf, Body, TreeNodes;
    assert |RecordBlocks(LIB, values)| == |values|;
    assert puts[|puts| - 1] == puts[|values|..][|puts[|values|..]| - 1];
  }

  lemma SuitedHere(values: seq<Bytes>, t: Records, puts: seq<Block>)
    requires |t| < 256 && (forall v :: v in values ==> Plain(v)) && forall k :: k in t ==> |k| <= 128
    ensures !Unsuited(ENV, LIB, values, t, puts)
  {
    LawfulHere();
    hide Puts, Plain, Sized, Signs, Lawful;
    if Puts(ENV, LIB, values, t, puts) { SizedHere(values, t, puts); }
  }

  lemma AcceptedHere(known: map<Cid, Bytes>, n: nat, values: seq<Bytes>, t: Records, puts: seq<Block>)
    requires Tidy(known, n) && n < |t| < 256 && Puts(ENV, LIB, values, t, puts) && forall v :: v in values ==> Plain(v)
    requires forall k :: k in t ==> |k| <= 128
    ensures Accepted(ENV, LIB, known, puts, t) && Tidy(known + Contents(puts), |t|)
  {
    hide Puts, Tidy, Sound, Sized, NoClash;
    NoClashHere(known, n, values, t, puts);
    SizedHere(values, t, puts);
    SoundHere(t);
  }

  // ----- a run -----

  const ACTOR := 1
  const DID: Bytes := [0x64]
  const FEED: Bytes := [0x66]
  const KEY1: Bytes := [0x31]
  const KEY2: Bytes := [0x32]
  const PATH1 := PathOf(FEED, KEY1)
  const PATH2 := PathOf(FEED, KEY2)
  const BATCH: seq<Write> := [Create(FEED, Some(KEY2), [1]), Update(FEED, KEY1, [2])]

  lemma SmallPlain(b: byte)
    requires b < 3
    ensures Plain([b]) && Hash([b]) == Cid(DAG_CBOR, RECORD, [b])
  {
  }

  lemma PathsDiffer()
    ensures PATH1 != PATH2 && |PATH1| <= 128 && |PATH2| <= 128
  {
    assert PATH1[2] == 0x31 && PATH2[2] == 0x32;
  }

  /** The records after the start, and after the batch. */
  function First(): Records { map[PATH1 := Hash([0])] }

  function Second(): Records { map[PATH1 := Hash([2]), PATH2 := Hash([1])] }

  lemma BatchFolds(done: seq<Write>)
    requires done <= BATCH
    ensures FoldWrites(LIB, First(), done).Some?
    ensures done == BATCH ==> FoldWrites(LIB, First(), done) == Some(Second()) && Values(done) == [[1], [2]]
  {
    PathsDiffer();
    hide Hash;
    var m1 := First()[PATH2 := Hash([1])];
    assert ApplyWrite(LIB, First(), BATCH[0]) == Some(m1);
    assert m1[PATH1 := Hash([2])] == Second();
    assert ApplyWrite(LIB, m1, BATCH[1]) == Some(Second());
    assert BATCH[..0] == [] && BATCH[..1] == [BATCH[0]] && BATCH == [BATCH[0]] + [BATCH[1]];
    NoWrites(LIB, First());
    FoldSnoc(LIB, First(), [], BATCH[0]);
    FoldSnoc(LIB, First(), [BATCH[0]], BATCH[1]);
    ValuesSnoc(LIB, [], BATCH[0]);
    ValuesSnoc(LIB, [BATCH[0]], BATCH[1]);
    assert [] + [BATCH[0]] == [BATCH[0]];
    Resolved(done);
  }

  lemma Plains()
    ensures Plain([0]) && Plain([1]) && Plain([2])
    ensures |First()| == 1 && |Second()| == 2 && R.FitsText(DID)
    ensures forall k :: k in First() || k in Second() ==> |k| <= 128
  {
    PathsDiffer();
    hide Hash, Plain, PathOf;
    SmallPlain(0);
    SmallPlain(1);
    SmallPlain(2);
  }

  lemma Seekable(d: Disk)
    ensures Unstuck(ENV, d, ACTOR)
  {
  }

  /** A manager over an empty store starts a repository with one record. */
  method Start() returns (manager: Manager)
    ensures fresh(manager) && fresh(manager.store) && fresh(manager.tids) && manager.store.env == ENV && manager.lib == LIB
    ensures manager.Valid() && manager.repos == map[ACTOR := First()] && Tidy(manager.known, 1)
  {
    LawfulHere();
    Plains();
    NothingKnown();
    FirstIs();
    hide Lawful, Hash, Plain, Accepted, Puts, Signs, Tidy, Contents, PathOf, Manager.Valid, FoldWrites, Values, Committed,
         Unstuck, Unsuited, Extends, Knows, First, Second, Sized, NoClash, SameTables, Resolves, LastWins, AllAdmitted, OnlyAt,
         RecordAt, Changed;
    var store := new CarStore(ENV);
    manager := new Manager(store, LIB);
    Seekable(store.disk);
    var ok;
    ghost var row, puts, fault;
    ok, row, puts, fault := manager.InitNewRepo(ACTOR, DID, FEED, KEY1, [0]);
    SuitedHere([[0]], First(), puts);
    assert ok;
    AcceptedHere(map[], 0, [[0]], First(), puts);
  }

  lemma FirstIs()
    ensures First() == map[PathOf(FEED, KEY1) := LIB.hash([0])]
  {
  }

  lemma Resolved(done: seq<Write>)
    requires |done| <= |BATCH| && forall i :: 0 <= i < |done| ==> Resolves(BATCH[i], done[i])
    ensures done <= BATCH
  {
  }

  lemma SecondAt()
    ensures RecordAt(Second(), FEED, KEY1) == Some(Hash([2]))
    ensures forall v :: LIB.hash(v) == Hash(v)
  {
    PathsDiffer();
  }

  lemma OneContent(known: map<Cid, Bytes>, c: Cid, x: Bytes, y: Bytes)
    requires Knows(known, Block(c, x)) && Knows(known, Block(c, y))
    ensures x == y
  {
  }

  lemma NothingKnown()
    ensures Tidy(map[], 0)
  {
  }

  /** Then it takes a batch as one commit, and gives the new record back. */
  method Run() returns (manager: Manager, read: Option<(Cid, Bytes)>)
    ensures fresh(manager) && manager.Valid() && manager.repos == map[ACTOR := Second()]
    ensures read == Some((Hash([2]), [2])) && Knows(manager.known, Block(Hash([1]), [1]))
  {
    manager := Start();
    LawfulHere();
    Plains();
    PathsDiffer();
    SecondAt();
    hide Lawful, Hash, Plain, Accepted, Puts, Signs, Tidy, Contents, PathOf, Manager.Valid, FoldWrites, Values, Committed,
         Unstuck, Unsuited, Extends, Knows, First, Second, Sized, NoClash, SameTables, Resolves, LastWins, AllAdmitted, OnlyAt,
         RecordAt, Changed;
    Seekable(manager.store.disk);
    var ok;
    ghost var row, puts, fault, done;
    ghost var known := manager.known;
    ok, done, row, puts, fault := manager.BatchWrite(ACTOR, BATCH);
    Resolved(done);
    BatchFolds(done);
    SuitedHere([[1], [2]], Second(), puts);
    assert ok;
    AcceptedHere(known, 1, [[1], [2]], Second(), puts);
    assert [1] in Values(done) && [2] in Values(done);
    read, fault := manager.GetRecord(ACTOR, FEED, KEY1, None);
    OneContent(manager.known, Hash([2]), [2], read.value.1);
  }
}
