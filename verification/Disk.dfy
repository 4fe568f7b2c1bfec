/**
 * What the CAR store persists: shard files, and the car_shards and block_refs tables
 * (user_service/internal/car/models.go, meta.go and s3.go), with the writes the store makes one
 * at a time. The store may stop between any two of them.
 */
module Disk {
  import opened Prelude
  import opened Cids
  import opened CarFile

  type Aid = nat

  /**
   * Where a shard file lives: under the key sh-<actor>/seq-<seq>, or under a name CreateTemp
   * made up for a merged shard. NoPath is the empty path of a zero Shard.
   */
  datatype Path = NoPath | Key(aid: Aid, seqno: nat) | Temp(n: nat)

  datatype Shard = Shard(id: nat, root: Option<Cid>, dataStart: nat, seqno: nat, path: Path, aid: Aid, rev: Bytes)

  /** &Shard{}: what GetLastShard returns for an actor without shards. */
  const NO_SHARD := Shard(0, None, 0, 0, NoPath, 0, [])

  datatype Ref = Ref(cid: Cid, shard: nat, offset: nat, aid: Aid)

  datatype Disk = Disk(files: map<Path, Bytes>, shards: map<nat, Shard>, refs: set<Ref>, nextId: nat)

  const EMPTY := Disk(map[], map[], {}, 1)

  datatype Step =
    | PutFile(path: Path, bytes: Bytes)
    | InsertRows(shard: Shard, marks: seq<Mark>)
    | DeleteRows(ids: set<nat>)
    | DeleteFiles(aid: Aid, seqs: set<nat>)

  function RefsFor(id: nat, aid: Aid, marks: seq<Mark>): set<Ref> {
    set i | 0 <= i < |marks| :: Ref(marks[i].cid, id, marks[i].offset, aid)
  }

  /** Each step is atomic: an object-store request or a database transaction. */
  function Apply(d: Disk, s: Step): Disk {
    match s
    case PutFile(path, bytes) => d.(files := d.files[path := bytes])
    case InsertRows(shard, marks) =>
      d.(shards := d.shards[d.nextId := shard.(id := d.nextId)],
         refs := d.refs + RefsFor(d.nextId, shard.aid, marks),
         nextId := d.nextId + 1)
    case DeleteRows(ids) =>
      d.(shards := d.shards - ids, refs := set r | r in d.refs && r.shard !in ids)
    case DeleteFiles(aid, seqs) =>
      d.(files := map p | p in d.files && !(p.Key? && p.aid == aid && p.seqno in seqs) :: d.files[p])
  }

  function ApplyAll(d: Disk, steps: seq<Step>): Disk
    decreases |steps|
  {
    if steps == [] then d else ApplyAll(Apply(d, steps[0]), steps[1..])
  }

  lemma {:induction false} ApplyConcat(d: Disk, a: seq<Step>, b: seq<Step>)
    ensures ApplyAll(d, a + b) == ApplyAll(ApplyAll(d, a), b)
    decreases |a|
  {
    if a == [] {
      assert a + b == b;
    } else {
      assert (a + b)[1..] == a[1..] + b;
      ApplyConcat(Apply(d, a[0]), a[1..], b);
    }
  }

  // ----- the invariant -----

  /** The blocks a file holds from dataStart on, as a CAR reader returns them. */
  function BlocksIn(env: Env, file: Bytes, dataStart: nat): seq<Block> {
    if dataStart > |file| then [] else ReadAll(env, file[dataStart..]).blocks
  }

  /** The bytes are a shard file: header, then readable blocks, each identifier once. */
  predicate IsShardFile(env: Env, file: Bytes, root: Option<Cid>, dataStart: nat) {
    var bs := BlocksIn(env, file, dataStart);
    && root.Some? && file == ShardFile(env, root.value, bs) && dataStart == |FileHeader(env, root.value)|
    && AllFit(env, bs) && Distinct(bs)
  }

  /** What the block_refs rows of a shard must be: its blocks at their offsets. */
  function RefsOfFile(env: Env, file: Bytes, sh: Shard): set<Ref> {
    if sh.root.None? then {} else RefsFor(sh.id, sh.aid, Marks(env, sh.root.value, BlocksIn(env, file, sh.dataStart)))
  }

  function RefsOf(d: Disk, id: nat): set<Ref> {
    set r | r in d.refs && r.shard == id
  }

  ghost predicate RowOk(env: Env, d: Disk, id: nat)
    requires id in d.shards
  {
    var sh := d.shards[id];
    && sh.id == id && 0 < id < d.nextId
    && sh.path in d.files
    && IsShardFile(env, d.files[sh.path], sh.root, sh.dataStart)
    && RefsOf(d, id) == RefsOfFile(env, d.files[sh.path], sh)
    && (sh.path.Key? ==> sh.path == Key(sh.aid, sh.seqno))
    && sh.path != NoPath
  }

  /**
   * Every shard row names an existing, well-formed file of its own, whose blocks are exactly its
   * ref rows; every ref row belongs to a shard row.
   */
  ghost predicate Durable(env: Env, d: Disk) {
    && d.nextId > 0
    && (forall id :: id in d.shards ==> RowOk(env, d, id))
    && (forall r :: r in d.refs ==> r.shard in d.shards)
    && (forall i, j :: i in d.shards && j in d.shards && d.shards[i].path == d.shards[j].path ==> i == j)
  }

  /** No two shards of one actor have the same sequence number. */
  predicate SeqUnique(d: Disk) {
    forall i, j :: i in d.shards && j in d.shards && i != j && d.shards[i].aid == d.shards[j].aid ==>
      d.shards[i].seqno != d.shards[j].seqno
  }

  predicate Referenced(d: Disk, path: Path) {
    exists id :: id in d.shards && d.shards[id].path == path
  }

  // ----- which steps keep it -----

  lemma EmptyDurable(env: Env)
    ensures Durable(env, EMPTY) && SeqUnique(EMPTY)
  {
  }

  lemma PutFileKeeps(env: Env, d: Disk, path: Path, bytes: Bytes)
    requires Durable(env, d) && !Referenced(d, path)
    ensures Durable(env, Apply(d, PutFile(path, bytes)))
  {
    hide IsShardFile, RefsOfFile;
    var d' := Apply(d, PutFile(path, bytes));
    forall id | id in d'.shards ensures RowOk(env, d', id) {
      assert RowOk(env, d, id);
      assert RefsOf(d', id) == RefsOf(d, id);
    }
  }

  lemma InsertRowsKeeps(env: Env, d: Disk, sh: Shard, bs: seq<Block>)
    requires Durable(env, d) && env.Valid()
    requires sh.path in d.files && !Referenced(d, sh.path) && sh.path != NoPath
    requires sh.path.Key? ==> sh.path == Key(sh.aid, sh.seqno)
    requires sh.root.Some? && d.files[sh.path] == ShardFile(env, sh.root.value, bs)
    requires sh.dataStart == |FileHeader(env, sh.root.value)| && AllFit(env, bs) && Distinct(bs)
    ensures Durable(env, Apply(d, InsertRows(sh, Marks(env, sh.root.value, bs))))
  {
    var marks := Marks(env, sh.root.value, bs);
    var d' := Apply(d, InsertRows(sh, marks));
    NextIdUnused(env, d);
    NewRowOk(env, d, sh, bs);
    hide Marks, RefsFor, IsShardFile, RefsOfFile;
    forall id | id in d.shards ensures RowOk(env, d', id) {
      assert RowOk(env, d, id);
      RefsKept(d, sh, marks, id);
    }
    forall r | r in d'.refs ensures r.shard in d'.shards {
      if r !in d.refs { RefsForShard(d.nextId, sh.aid, marks, r); }
    }
  }

  lemma RefsForShard(id: nat, aid: Aid, marks: seq<Mark>, r: Ref)
    requires r in RefsFor(id, aid, marks)
    ensures r.shard == id && r.aid == aid
  {
  }

  lemma RefsKept(d: Disk, sh: Shard, marks: seq<Mark>, id: nat)
    requires id != d.nextId
    ensures RefsOf(Apply(d, InsertRows(sh, marks)), id) == RefsOf(d, id)
  {
  }

  lemma NewRowOk(env: Env, d: Disk, sh: Shard, bs: seq<Block>)
    requires Durable(env, d) && env.Valid()
    requires sh.path in d.files && sh.path != NoPath
    requires sh.path.Key? ==> sh.path == Key(sh.aid, sh.seqno)
    requires sh.root.Some? && d.files[sh.path] == ShardFile(env, sh.root.value, bs)
    requires sh.dataStart == |FileHeader(env, sh.root.value)| && AllFit(env, bs) && Distinct(bs)
    ensures RowOk(env, Apply(d, InsertRows(sh, Marks(env, sh.root.value, bs))), d.nextId)
  {
    hide FileHeader, ShardFile, BlocksIn, Marks, AllFit, Distinct, RowOk;
    BlocksOfFile(env, sh.root.value, bs);
    var marks := Marks(env, sh.root.value, bs);
    var d' := Apply(d, InsertRows(sh, marks));
    NextIdUnused(env, d);
    assert RefsOf(d', d.nextId) == RefsFor(d.nextId, sh.aid, marks) by {
      forall r | r in RefsFor(d.nextId, sh.aid, marks) ensures r.shard == d.nextId {
        RefsForShard(d.nextId, sh.aid, marks, r);
      }
    }
    RowMeans(env, d', d.nextId);
  }

  lemma RowMeans(env: Env, d: Disk, id: nat)
    requires id in d.shards
    requires var sh := d.shards[id];
      && sh.id == id && 0 < id < d.nextId
      && sh.path in d.files
      && IsShardFile(env, d.files[sh.path], sh.root, sh.dataStart)
      && RefsOf(d, id) == RefsOfFile(env, d.files[sh.path], sh)
      && (sh.path.Key? ==> sh.path == Key(sh.aid, sh.seqno))
      && sh.path != NoPath
    ensures RowOk(env, d, id)
  {
    hide IsShardFile, RefsOfFile, RefsOf;
  }

  lemma NextIdUnused(env: Env, d: Disk)
    requires Durable(env, d)
    ensures d.nextId !in d.shards && forall r :: r in d.refs ==> r.shard != d.nextId
  {
    hide IsShardFile, RefsOfFile;
    forall id | id in d.shards ensures id < d.nextId {
      assert RowOk(env, d, id);
    }
  }

  lemma BlocksOfFile(env: Env, root: Cid, bs: seq<Block>)
    requires env.Valid() && AllFit(env, bs)
    ensures BlocksIn(env, ShardFile(env, root, bs), |FileHeader(env, root)|) == bs
  {
    hide FileHeader, Frames, ReadAll;
    ShardRoundTrip(env, root, bs);
  }

  lemma DeleteRowsKeeps(env: Env, d: Disk, ids: set<nat>)
    requires Durable(env, d)
    ensures Durable(env, Apply(d, DeleteRows(ids)))
    ensures SeqUnique(d) ==> SeqUnique(Apply(d, DeleteRows(ids)))
  {
    hide IsShardFile, RefsOfFile;
    var d' := Apply(d, DeleteRows(ids));
    forall id | id in d'.shards ensures RowOk(env, d', id) {
      assert RowOk(env, d, id);
      assert RefsOf(d', id) == RefsOf(d, id);
    }
  }

  /** The files deleteShardFiles removes are addressed by actor and seq, whatever the rows' paths are. */
  predicate KeysFree(d: Disk, aid: Aid, seqs: set<nat>) {
    forall id :: id in d.shards ==>
      !(d.shards[id].path.Key? && d.shards[id].path.aid == aid && d.shards[id].path.seqno in seqs)
  }

  /** Deleting files keeps the invariant exactly when no remaining row names one of them. */
  lemma DeleteFilesKeepsIff(env: Env, d: Disk, aid: Aid, seqs: set<nat>)
    requires Durable(env, d)
    ensures Durable(env, Apply(d, DeleteFiles(aid, seqs))) <==> KeysFree(d, aid, seqs)
  {
    hide IsShardFile, RefsOfFile;
    var d' := Apply(d, DeleteFiles(aid, seqs));
    if KeysFree(d, aid, seqs) {
      forall id | id in d'.shards ensures RowOk(env, d', id) {
        assert RowOk(env, d, id);
        assert RefsOf(d', id) == RefsOf(d, id);
      }
    } else {
      var id :| id in d.shards && d.shards[id].path.Key? && d.shards[id].path.aid == aid && d.shards[id].path.seqno in seqs;
      assert !RowOk(env, d', id);
    }
  }

  // ----- reading through the tables -----

  /** A ranged read at one ref row, with doBlockRead's comparison of the identifier. */
  function ReadRef(env: Env, d: Disk, r: Ref): Option<Bytes> {
    if r.shard !in d.shards || d.shards[r.shard].path !in d.files then None else
    match ReadFrom(d.files[d.shards[r.shard].path], r.offset, env.limit)
    case Item(b, _) => if b.cid == r.cid then Some(b.data) else None
    case _ => None
  }

  /** The identifiers with a ref row. */
  function Stored(d: Disk): set<Cid> {
    set r | r in d.refs :: r.cid
  }

  function StoredBy(d: Disk, aid: Aid): set<Cid> {
    set r | r in d.refs && r.aid == aid :: r.cid
  }

  /** Whichever ref row of the identifier the lookup picks, reading it gives the data. */
  ghost predicate Serves(env: Env, d: Disk, c: Cid, data: Bytes) {
    c in Stored(d) && forall r :: r in d.refs && r.cid == c ==> ReadRef(env, d, r) == Some(data)
  }

  /** A ref row of a well-formed shard is the mark of one of its blocks. */
  lemma RefIsMark(env: Env, d: Disk, r: Ref) returns (i: nat)
    requires Durable(env, d) && r in d.refs
    ensures r.shard in d.shards && RowOk(env, d, r.shard)
    ensures var sh := d.shards[r.shard];
            var bs := BlocksIn(env, d.files[sh.path], sh.dataStart);
            sh.root.Some? && i < |bs| && r == Ref(bs[i].cid, sh.id, EndOf(env, sh.root.value, bs[..i]), sh.aid)
  {
    hide EndOf, BlocksIn, ShardFile, AllFit, Distinct;
    assert RowOk(env, d, r.shard);
    assert r in RefsOf(d, r.shard);
    var sh := d.shards[r.shard];
    i := MarkIndex(env, sh.id, sh.aid, sh.root.value, BlocksIn(env, d.files[sh.path], sh.dataStart), r);
  }

  lemma MarkIndex(env: Env, id: nat, aid: Aid, root: Cid, bs: seq<Block>, r: Ref) returns (i: nat)
    requires r in RefsFor(id, aid, Marks(env, root, bs))
    ensures i < |bs| && r == Ref(bs[i].cid, id, EndOf(env, root, bs[..i]), aid)
  {
    hide EndOf;
    i :| 0 <= i < |Marks(env, root, bs)| && r == Ref(Marks(env, root, bs)[i].cid, id, Marks(env, root, bs)[i].offset, aid);
  }

  lemma ReadRefWorks(env: Env, d: Disk, r: Ref) returns (b: Block)
    requires Durable(env, d) && env.Valid() && r in d.refs
    ensures ReadRef(env, d, r) == Some(b.data) && b.cid == r.cid && env.check(b.cid, b.data)
    ensures r.shard in d.shards && r.aid == d.shards[r.shard].aid && r.offset > 0
    ensures var sh := d.shards[r.shard]; sh.path in d.files && b in BlocksIn(env, d.files[sh.path], sh.dataStart)
  {
    hide Durable, RefsOfFile, RefsOf, BlocksIn, EndOf, ShardFile, ReadFrom, FileHeader, Distinct;
    var i := RefIsMark(env, d, r);
    var sh := d.shards[r.shard];
    var bs := BlocksIn(env, d.files[sh.path], sh.dataStart);
    b := bs[i];
    assert Fits(env, b) && Writable(b);
    ReadAtOffset(env, sh.root.value, bs, i);
  }

  // ----- one content for each identifier -----

  /** A block of some shard. */
  ghost predicate Held(env: Env, d: Disk, b: Block) {
    exists id :: id in d.shards && HeldIn(env, d, id, b)
  }

  ghost predicate HeldIn(env: Env, d: Disk, id: nat, b: Block)
    requires id in d.shards
  {
    d.shards[id].path in d.files && b in BlocksIn(env, d.files[d.shards[id].path], d.shards[id].dataStart)
  }

  /** No two stored blocks have one identifier and different contents. */
  ghost predicate Agree(env: Env, d: Disk) {
    forall b, b' :: Held(env, d, b) && Held(env, d, b') && b.cid == b'.cid ==> b == b'
  }

  /** A ref row leads to a block of its shard. */
  lemma RefHeld(env: Env, d: Disk, r: Ref) returns (b: Block)
    requires Durable(env, d) && env.Valid() && r in d.refs
    ensures ReadRef(env, d, r) == Some(b.data) && b.cid == r.cid && Held(env, d, b)
    ensures r.shard in d.shards && HeldIn(env, d, r.shard, b) && r.aid == d.shards[r.shard].aid
    ensures r.offset > 0 && env.check(b.cid, b.data)
  {
    hide Durable, ReadRef, BlocksIn;
    b := ReadRefWorks(env, d, r);
    assert HeldIn(env, d, r.shard, b);
  }

  /** A block of a shard has a ref row, of the shard's actor. */
  lemma HeldRef(env: Env, d: Disk, id: nat, b: Block) returns (r: Ref)
    requires Durable(env, d) && id in d.shards && HeldIn(env, d, id, b)
    ensures r in d.refs && r.shard == id && r.cid == b.cid && r.aid == d.shards[id].aid
  {
    hide EndOf, BlocksIn, ShardFile, AllFit, Distinct, RefsOf;
    assert RowOk(env, d, id);
    var sh := d.shards[id];
    var bs := BlocksIn(env, d.files[sh.path], sh.dataStart);
    var i :| 0 <= i < |bs| && bs[i] == b;
    r := Ref(b.cid, id, EndOf(env, sh.root.value, bs[..i]), sh.aid);
    assert Marks(env, sh.root.value, bs)[i] == Mark(b.cid, EndOf(env, sh.root.value, bs[..i]));
    assert r in RefsFor(sh.id, sh.aid, Marks(env, sh.root.value, bs));
    assert RefsOf(d, id) <= d.refs by { RefsAreRows(d, id); }
  }

  lemma RefsAreRows(d: Disk, id: nat)
    ensures RefsOf(d, id) <= d.refs
  {
  }

  /** Unless two stored blocks clash, an identifier is served, by whichever row, exactly with the block stored for it. */
  lemma ServesIff(env: Env, d: Disk, c: Cid, data: Bytes)
    requires Durable(env, d) && env.Valid() && Agree(env, d)
    ensures Serves(env, d, c, data) <==> Held(env, d, Block(c, data))
  {
    hide Durable, ReadRef, HeldIn;
    if Serves(env, d, c, data) {
      var r :| r in d.refs && r.cid == c;
      var b := RefHeld(env, d, r);
      assert b == Block(c, data);
    }
    if Held(env, d, Block(c, data)) {
      var id :| id in d.shards && HeldIn(env, d, id, Block(c, data));
      var r := HeldRef(env, d, id, Block(c, data));
      assert c in Stored(d);
      forall r' | r' in d.refs && r'.cid == c ensures ReadRef(env, d, r') == Some(data) {
        var b := RefHeld(env, d, r');
        assert b.cid == Block(c, data).cid;
      }
    }
  }
}
