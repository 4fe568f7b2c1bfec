/**
 * One repository over a session (user_service/internal/repo/repo.go): opening it at a commit,
 * changing its records, committing. The Merkle search tree, the hash and the signer are
 * libraries, known here only through what they promise.
 */
module Repos {
  import opened Prelude
  import opened Cids
  import opened CarFile
  import opened Disk
  import opened CarStore
  import opened Heads
  import opened Writes
  import opened Compaction
  import opened Sessions
  import R = Records
  import CommitCodec

  type SignedCommit = CommitCodec.SignedCommit

  /** A repository's records: path to the identifier of the record's block. */
  type Records = map<Bytes, Cid>

  /**
   * nodes: the blocks of a map's tree; pointer: their root; links: the nodes a node names; load:
   * the map read from a root and the nodes below it; written: the nodes a save writes, given the
   * tree they were loaded from; hash: the identifier of a block; sign and verify: the key manager.
   */
  datatype Lib = Lib(
    nodes: Records -> map<Cid, Bytes>, pointer: Records -> Cid, links: Bytes -> set<Cid>,
    load: (Cid, map<Cid, Bytes>) -> Option<Records>, written: (Option<Records>, Records) -> set<Cid>,
    hash: Bytes -> Cid, sign: (Bytes, Bytes) -> Option<Bytes>, verify: (Bytes, Bytes, Bytes) -> bool)

  /** util.MaxAllowedSectionSize of go-car. */
  const READER_LIMIT := 32 * 0x10_0000

  /** The root of a map's tree and, with each node, the nodes it links to. */
  ghost predicate Shows(lib: Lib, m: Records, view: map<Cid, Bytes>) {
    && lib.pointer(m) in view
    && forall c :: c in view ==> c in lib.nodes(m) && view[c] == lib.nodes(m)[c] && lib.links(view[c]) <= view.Keys
  }

  /** The tree of a map hangs together, and reads back as the map. */
  ghost predicate Sound(lib: Lib, m: Records) {
    && Shows(lib, m, lib.nodes(m))
    && forall view :: Shows(lib, m, view) ==> lib.load(lib.pointer(m), view) == Some(m)
  }

  /** A save leaves out only nodes the loaded tree has, with the same content. */
  ghost predicate SaveLaw(lib: Lib) {
    forall kept: Option<Records>, m :: Sound(lib, m) && (kept.Some? ==> Sound(lib, kept.value)) ==> Saves(lib, kept, m)
  }

  ghost predicate Saves(lib: Lib, kept: Option<Records>, m: Records) {
    forall c :: c in lib.nodes(m) && c !in lib.written(kept, m) ==>
      kept.Some? && c in lib.nodes(kept.value) && lib.nodes(kept.value)[c] == lib.nodes(m)[c]
  }

  ghost predicate WrittenLaw(lib: Lib) {
    forall kept, m :: lib.written(kept, m) <= lib.nodes(m).Keys
  }

  ghost predicate NodeLaw(env: Env, lib: Lib) {
    forall m, c :: c in lib.nodes(m) ==> env.check(c, lib.nodes(m)[c])
  }

  ghost predicate HashLaw(env: Env, lib: Lib) {
    forall b :: env.check(lib.hash(b), b)
  }

  ghost predicate SignLaw(lib: Lib) {
    forall did, b :: lib.sign(did, b).Some? ==> lib.verify(did, lib.sign(did, b).value, b)
  }

  ghost predicate Lawful(env: Env, lib: Lib) {
    && env.limit >= READER_LIMIT
    && SaveLaw(lib) && WrittenLaw(lib) && NodeLaw(env, lib) && HashLaw(env, lib) && SignLaw(lib)
  }

  /** The key manager signs everything, with signatures a commit can carry. */
  ghost predicate Signs(lib: Lib) {
    forall did, b :: lib.sign(did, b).Some? && |lib.sign(did, b).value| <= R.MAX_SIG
  }

  // ----- one content for each identifier -----

  predicate Knows(known: map<Cid, Bytes>, b: Block) { b.cid in known && known[b.cid] == b.data }

  /** Every stored block has the content known for its identifier. */
  ghost predicate KnownBy(env: Env, d: Disk, known: map<Cid, Bytes>) {
    forall b :: Held(env, d, b) ==> Knows(known, b)
  }

  predicate CacheKnown(known: map<Cid, Bytes>, cache: map<Cid, Bytes>) {
    forall c :: c in cache ==> Knows(known, Block(c, cache[c]))
  }

  /** No identifier names two contents, among those known and the new blocks. */
  predicate NoClash(known: map<Cid, Bytes>, puts: seq<Block>) {
    && (forall b :: b in puts && b.cid in known ==> known[b.cid] == b.data)
    && forall b, b' :: b in puts && b' in puts && b.cid == b'.cid ==> b == b'
  }

  /** The reader accepts all the blocks. */
  predicate Sized(env: Env, puts: seq<Block>) {
    forall b :: b in puts ==> |Body(b)| <= env.limit
  }

  predicate Checked(env: Env, puts: seq<Block>) {
    forall b :: b in puts ==> env.check(b.cid, b.data)
  }

  /** What it takes for new blocks, with the tree of t among them, to be read back as they were written. */
  ghost predicate Accepted(env: Env, lib: Lib, known: map<Cid, Bytes>, puts: seq<Block>, t: Records) {
    Sized(env, puts) && NoClash(known, puts) && Sound(lib, t)
  }

  /** The blocks are nodes of the tree of t. */
  ghost predicate TreeNodes(lib: Lib, t: Records, bs: seq<Block>) {
    forall b :: b in bs ==> b.cid in lib.nodes(t) && b.data == lib.nodes(t)[b.cid]
  }

  /** The block of a commit to t; the reader accepts its size. */
  ghost predicate CommitBlock(env: Env, lib: Lib, t: Records, b: Block) {
    b.cid == lib.hash(b.data) && CommitOf(lib, b.data, t) && |Body(b)| <= env.limit
  }

  /** What a commit puts: nodes of the tree of t, and then the commit to it. */
  ghost predicate Committing(env: Env, lib: Lib, t: Records, bs: seq<Block>) {
    bs != [] && TreeNodes(lib, t, bs[..|bs| - 1]) && CommitBlock(env, lib, t, bs[|bs| - 1])
  }

  lemma {:induction false} ContentsKnown(puts: seq<Block>, b: Block)
    requires NoClash(map[], puts) && b in puts
    ensures Knows(Contents(puts), b)
  {
    var n := |puts| - 1;
    assert puts == puts[..n] + [puts[n]];
    if b.cid == puts[n].cid {
      assert b == puts[n];
    } else {
      assert b in puts[..n];
      ContentsKnown(puts[..n], b);
    }
  }

  lemma {:induction false} ContentsFrom(puts: seq<Block>, c: Cid)
    requires c in Contents(puts)
    ensures Block(c, Contents(puts)[c]) in puts
  {
    var n := |puts| - 1;
    assert puts == puts[..n] + [puts[n]];
    if c != puts[n].cid { ContentsFrom(puts[..n], c); }
  }

  /** Without a clash, the new blocks and what was known go together. */
  lemma MoreKnown(known: map<Cid, Bytes>, puts: seq<Block>)
    requires NoClash(known, puts)
    ensures forall b :: b in puts ==> Knows(known + Contents(puts), b)
    ensures forall c :: c in known ==> Knows(known + Contents(puts), Block(c, known[c]))
  {
    hide Contents;
    forall b | b in puts ensures Knows(known + Contents(puts), b) { ContentsKnown(puts, b); }
    forall c | c in known ensures Knows(known + Contents(puts), Block(c, known[c])) {
      if c in Contents(puts) { ContentsFrom(puts, c); }
    }
  }

  // ----- commits -----

  const VERSION_2 := 2
  const VERSION_3 := 3

  /** What OpenRepo accepts as a commit block. */
  predicate Openable(bytes: Bytes) {
    var p := CommitCodec.DecodeSigned(bytes);
    p.Got? && (p.value.version == VERSION_3 || p.value.version == VERSION_2)
  }

  /** What CheckRepoSig computes: the signature over the commit without it. */
  ghost predicate SignatureOk(lib: Lib, sc: SignedCommit) {
    CommitCodec.EncodableUnsigned(CommitCodec.Unsigned(sc))
    && lib.verify(sc.did, sc.sig, CommitCodec.EncodeUnsigned(CommitCodec.Unsigned(sc)))
  }

  /** The block is a commit to these records, and its signature verifies. */
  ghost predicate CommitOf(lib: Lib, bytes: Bytes, m: Records) {
    && Openable(bytes)
    && var sc := CommitCodec.DecodeSigned(bytes).value;
       sc.did != [] && sc.data == Some(lib.pointer(m)) && SignatureOk(lib, sc)
  }

  /**
   * A commit made by signing u is accepted, once stored and read back, exactly when its signature
   * verifies for its DID over the bytes that were signed.
   */
  lemma SignatureExact(lib: Lib, u: CommitCodec.UnsignedCommit, sig: Bytes, sc: SignedCommit)
    requires CommitCodec.EncodableUnsigned(u) && |sig| <= R.MAX_SIG
    requires sc == CommitCodec.SignedCommit(u.did, u.version, u.prev, u.data, sig, u.rev)
    ensures CommitCodec.DecodeSigned(CommitCodec.EncodeSigned(sc)).Got?
    ensures SignatureOk(lib, CommitCodec.DecodeSigned(CommitCodec.EncodeSigned(sc)).value)
            <==> lib.verify(u.did, sig, CommitCodec.EncodeUnsigned(u))
  {
    hide CommitCodec.EncodeSigned, CommitCodec.EncodeUnsigned, CommitCodec.DecodeSigned;
    CommitCodec.SignedRoundTrip(sc, []);
    assert CommitCodec.EncodeSigned(sc) + [] == CommitCodec.EncodeSigned(sc);
    CommitCodec.SignedBytesRederived(u, sig, sc);
  }

  // ----- reads without the prefetch trap -----

  /** Every shard file of the actor can be read by its own sessions. */
  predicate Unstuck(env: Env, d: Disk, actor: Aid) {
    env.seekable || forall id :: id in d.shards && d.shards[id].aid == actor && d.shards[id].path in d.files ==>
                      |d.files[d.shards[id].path]| <= PREFETCH
  }

  /** No read of the session can get stuck: it does not prefetch, or all files of its actor are fine. */
  predicate Clear(s: DeltaSession)
    reads s.store
  {
    !s.base.prefetch || Unstuck(s.store.env, s.store.disk, s.actor)
  }

  lemma UnstuckRef(env: Env, d: Disk, r: Ref, actor: Aid, prefetch: bool)
    requires Durable(env, d) && r in d.refs && (!prefetch || Unstuck(env, d, actor))
    ensures !Stuck(env, d, r, actor, prefetch)
  {
    hide Durable;
    RefAid(env, d, r);
  }

  // ----- saving the tree, storing a record -----

  lemma CommitFits(env: Env, lib: Lib, sc: SignedCommit)
    requires Lawful(env, lib) && CommitCodec.EncodableSigned(sc)
    ensures Fits(env, Block(lib.hash(CommitCodec.EncodeSigned(sc)), CommitCodec.EncodeSigned(sc)))
  {
    hide CommitCodec.EncodeSigned, CidBytes, NodeLaw, SaveLaw, WrittenLaw, SignLaw;
    CommitCodec.SignedSize(sc);
    CidBytesShort(lib.hash(CommitCodec.EncodeSigned(sc)));
  }

  lemma SignatureGood(env: Env, lib: Lib, sc: SignedCommit)
    requires Lawful(env, lib) && CommitCodec.EncodableUnsigned(CommitCodec.Unsigned(sc))
    requires lib.sign(sc.did, CommitCodec.EncodeUnsigned(CommitCodec.Unsigned(sc))) == Some(sc.sig)
    ensures SignatureOk(lib, sc)
  {
    hide NodeLaw, SaveLaw, WrittenLaw, HashLaw, CommitCodec.EncodeUnsigned;
  }

  /** What a commit stores reads back as a commit to the same tree whose signature verifies. */
  lemma CommitReads(env: Env, lib: Lib, sc: SignedCommit, m: Records)
    requires CommitCodec.EncodableSigned(sc) && sc.did != [] && sc.version == VERSION_3 && sc.data == Some(lib.pointer(m))
    requires SignatureOk(lib, sc)
    ensures CommitOf(lib, CommitCodec.EncodeSigned(sc), m)
  {
    hide CommitCodec.EncodeSigned, CommitCodec.EncodeUnsigned, CommitCodec.DecodeSigned;
    CommitCodec.SignedRoundTrip(sc, []);
    assert CommitCodec.EncodeSigned(sc) + [] == CommitCodec.EncodeSigned(sc);
  }

  class Repo {
    const lib: Lib
    const session: DeltaSession
    var sc: SignedCommit
    var mst: Option<Records>
    var kept: Option<Records>    // the tree its nodes were loaded from
    var dirty: bool
    ghost var puts: seq<Block>   // all blocks put so far, in order

    /** NewRepo: an empty tree, nothing stored of it. */
    constructor New(lib: Lib, did: Bytes, session: DeltaSession)
      ensures this.lib == lib && this.session == session && puts == []
      ensures sc == CommitCodec.ZERO_SIGNED.(did := did, version := VERSION_2) && mst == Some(map[]) && kept == None
    {
      this.lib, this.session, puts := lib, session, [];
      sc, mst, kept, dirty := CommitCodec.ZERO_SIGNED.(did := did, version := VERSION_2), Some(map[]), None, true;
    }

    constructor Opened(lib: Lib, session: DeltaSession, sc: SignedCommit)
      ensures this.lib == lib && this.session == session && this.sc == sc && mst == None && kept == None && puts == []
    {
      this.lib, this.session, puts := lib, session, [];
      this.sc, mst, kept, dirty := sc, None, None, false;
    }

    /**
     * The repository holds the records t, loaded from those of m0. The nodes of m0 are stored for
     * the actor; the block of every record is, too, or waits in the session. Until the tree is
     * loaded the session has no blocks of its own.
     */
    ghost predicate Working(m0: Option<Records>, t: Records, known: map<Cid, Bytes>)
      reads this, session, session.base, session.store
    {
      && session.Valid() && session.store.Valid() && Lawful(session.store.env, lib)
      && KnownBy(session.store.env, session.store.disk, known) && CacheKnown(known, session.base.cache)
      && session.blks == Contents(puts) && Checked(session.store.env, puts)
      && Loaded(m0, t)
      && (m0.Some? ==> TreeStored(lib, session.store.disk, session.actor, m0.value, known))
      && (forall p :: p in t ==> t[p] in session.blks || t[p] in StoredBy(session.store.disk, session.actor))
      && sc.did != []
    }

    ghost predicate Loaded(m0: Option<Records>, t: Records)
      reads this
    {
      || (mst == Some(t) && kept == m0)
      || (mst == None && kept == None && m0 == Some(t) && sc.data == Some(lib.pointer(t)) && puts == [])
    }

    lemma WorkingMeans(m0: Option<Records>, t: Records, known: map<Cid, Bytes>)
      requires Working(m0, t, known)
      ensures mst.Some? ==> mst.value == t && kept == m0
      ensures Lawful(session.store.env, lib) && session.blks == Contents(puts) && Checked(session.store.env, puts) && sc.did != []
      ensures forall p :: p in t ==> t[p] in session.blks || t[p] in StoredBy(session.store.disk, session.actor)
    {
      hide Lawful, Contents, StoredBy, Checked;
    }

    /** getMst: the tree, loaded through the session when it is first needed. */
    method GetMst(ghost m0: Option<Records>, ghost t: Records, ghost known: map<Cid, Bytes>)
      returns (m: Option<Records>, ghost fault: bool)
      requires Working(m0, t, known)
      modifies this, session.base`cache
      ensures Working(m0, t, known) && sc == old(sc) && dirty == old(dirty) && puts == old(puts)
      ensures m.Some? ==> m.value == t && mst == m
      ensures m.None? && !fault ==> !Clear(session)
      ensures fault ==> m.None? && session.store.env.faulty
    {
      hide Durable, CacheOk, Lawful, KnownBy, TreeStored, Checked;
      fault := false;
      if mst.Some? { return mst, false; }
      if sc.data.None? { assert false; return None, false; }
      m, fault := LoadMst(lib, session, sc.data.value, t, known);
      if m.Some? {
        mst, kept := m, m;
      }
    }

    /** One more block for the session. */
    method PutBlock(b: Block, ghost m0: Option<Records>, ghost t: Records, ghost known: map<Cid, Bytes>) returns (ok: bool)
      requires Working(m0, t, known) && mst.Some? && session.store.env.check(b.cid, b.data)
      modifies this`puts, session
      ensures Working(m0, t, known) && ok == !session.readonly
      ensures puts == if ok then old(puts) + [b] else old(puts)
      ensures ok ==> b.cid in session.blks
    {
      hide Durable, CacheOk, Lawful, KnownBy, TreeStored, Contents, Checked, CacheKnown, StoredBy;
      ok := session.Put(b);
      if ok {
        ContentsSnoc(puts, b);
        CheckedSnoc(session.store.env, puts, b);
        puts := puts + [b];
      }
    }

    /** cst.Put of a record: its block waits in the session, even if the tree then refuses the path. */
    method PutRecord(rec: Bytes, ghost m0: Option<Records>, ghost t: Records, ghost known: map<Cid, Bytes>) returns (k: Option<Cid>)
      requires Working(m0, t, known) && mst.Some?
      modifies this`puts, session
      ensures Working(m0, t, known)
      ensures k == if session.readonly then None else Some(lib.hash(rec))
      ensures puts == if session.readonly then old(puts) else old(puts) + [Block(lib.hash(rec), rec)]
      ensures k.Some? ==> k.value in session.blks
    {
      RecordChecks(session.store.env, lib, rec);
      hide Working;
      var c := lib.hash(rec);
      var ok := PutBlock(Block(c, rec), m0, t, known);
      if !ok { return None; }
      return Some(c);
    }

    /**
     * CreateRecord fails, without a fault, exactly when the path is taken. A refused record keeps
     * waiting in the session.
     */
    method CreateRecord(path: Bytes, rec: Bytes, ghost m0: Option<Records>, ghost t: Records, ghost known: map<Cid, Bytes>)
      returns (r: Option<Cid>, ghost fault: bool)
      requires Working(m0, t, known) && !session.readonly
      modifies this, session, session.base`cache
      ensures sc == old(sc) && dirty
      ensures r.Some? ==> path !in t && r.value == lib.hash(rec) && Working(m0, t[path := r.value], known) && mst.Some?
      ensures r.None? ==> Working(m0, t, known)
      ensures if r.Some? then puts == old(puts) + [Block(lib.hash(rec), rec)] else old(puts) <= puts <= old(puts) + [Block(lib.hash(rec), rec)]
      ensures r.None? && !fault && Clear(session) ==> path in t
      ensures fault ==> r.None? && session.store.env.faulty
    {
      hide Durable, CacheOk, Lawful, Unstuck, KnownBy, TreeStored, Checked, Contents;
      dirty := true;
      var m;
      m, fault := GetMst(m0, t, known);
      if m.None? { return None, fault; }
      var k := PutRecord(rec, m0, t, known);
      if k.None? { return None, fault; }
      if path in m.value { return None, fault; }
      mst := Some(m.value[path := k.value]);
      return k, fault;
    }

    /** UpdateRecord fails, without a fault, exactly when the path is missing. */
    method UpdateRecord(path: Bytes, rec: Bytes, ghost m0: Option<Records>, ghost t: Records, ghost known: map<Cid, Bytes>)
      returns (r: Option<Cid>, ghost fault: bool)
      requires Working(m0, t, known) && !session.readonly
      modifies this, session, session.base`cache
      ensures sc == old(sc) && dirty
      ensures r.Some? ==> path in t && r.value == lib.hash(rec) && Working(m0, t[path := r.value], known) && mst.Some?
      ensures r.None? ==> Working(m0, t, known)
      ensures if r.Some? then puts == old(puts) + [Block(lib.hash(rec), rec)] else old(puts) <= puts <= old(puts) + [Block(lib.hash(rec), rec)]
      ensures r.None? && !fault && Clear(session) ==> path !in t
      ensures fault ==> r.None? && session.store.env.faulty
    {
      hide Durable, CacheOk, Lawful, Unstuck, KnownBy, TreeStored, Checked, Contents;
      dirty := true;
      var m;
      m, fault := GetMst(m0, t, known);
      if m.None? { return None, fault; }
      var k := PutRecord(rec, m0, t, known);
      if k.None? { return None, fault; }
      if path !in m.value { return None, fault; }
      mst := Some(m.value[path := k.value]);
      return k, fault;
    }

    /** DeleteRecord fails, without a fault, exactly when the path is missing; no block goes. */
    method DeleteRecord(path: Bytes, ghost m0: Option<Records>, ghost t: Records, ghost known: map<Cid, Bytes>)
      returns (ok: bool, ghost fault: bool)
      requires Working(m0, t, known)
      modifies this, session.base`cache
      ensures sc == old(sc) && dirty && puts == old(puts)
      ensures ok ==> path in t && Working(m0, t - {path}, known) && mst.Some?
      ensures !ok ==> Working(m0, t, known)
      ensures !ok && !fault && Clear(session) ==> path !in t
      ensures fault ==> !ok && session.store.env.faulty
    {
      hide Durable, CacheOk, Lawful, Unstuck, KnownBy, TreeStored, Checked, Contents;
      dirty := true;
      var m;
      m, fault := GetMst(m0, t, known);
      if m.None? || path !in m.value { return false, fault; }
      mst := Some(m.value - {path});
      return true, fault;
    }

    /** GetPointer: the nodes that are not stored yet go to the session. */
    method SaveTree(ghost m0: Option<Records>, ghost t: Records, ghost known: map<Cid, Bytes>) returns (root: Cid)
      requires Working(m0, t, known) && mst == Some(t) && !session.readonly
      modifies this`puts, session
      ensures Working(m0, t, known) && root == lib.pointer(t)
      ensures old(puts) <= puts && TreeNodes(lib, t, puts[|old(puts)|..])
      ensures forall c :: c in lib.written(m0, t) ==> c in lib.nodes(t) && Block(c, lib.nodes(t)[c]) in puts
    {
      hide Working, TreeNodes, Lawful;
      WorkingMeans(m0, t, known);
      WrittenNodes(session.store.env, lib, m0, t);
      NoNodes(lib, t);
      assert puts[|old(puts)|..] == [];
      var tree := mst.value;
      var todo := lib.written(kept, tree);
      while todo != {}
        invariant Working(m0, t, known) && mst == Some(t) && kept == m0 && todo <= lib.written(m0, t)
        invariant old(puts) <= puts && TreeNodes(lib, t, puts[|old(puts)|..])
        invariant forall c :: c in lib.written(m0, t) && c !in todo ==> Block(c, lib.nodes(t)[c]) in puts
        decreases todo
      {
        var c :| c in todo;
        ghost var before := puts;
        var ok := PutBlock(Block(c, lib.nodes(tree)[c]), m0, t, known);
        assert puts[|old(puts)|..] == before[|old(puts)|..] + [Block(c, lib.nodes(t)[c])];
        NodeSnoc(lib, t, before[|old(puts)|..], c);
        todo := todo - {c};
      }
      root := lib.pointer(tree);
    }

    /** The commit to a tree, signed, and its block. */
    method SignedBlock(data: Cid, rev: Bytes, ghost t: Records) returns (nsc: Option<SignedCommit>, block: Bytes, ghost fault: bool)
      requires Lawful(session.store.env, lib) && data == lib.pointer(t) && sc.did != []
      ensures nsc.Some? ==> CommitOf(lib, block, t) && CommitCodec.DecodeSigned(block) == Got(nsc.value, [])
      ensures nsc.Some? ==> nsc.value.did == sc.did && nsc.value.version == VERSION_3 && nsc.value.prev == None && nsc.value.rev == rev
      ensures nsc.Some? ==> Fits(session.store.env, Block(lib.hash(block), block))
      ensures nsc.None? && !fault ==> !R.FitsText(sc.did) || !R.FitsText(rev)
      ensures fault ==> nsc.None? && !Signs(lib)
    {
      hide Fits, CommitOf, CommitCodec.EncodeSigned, CommitCodec.EncodeUnsigned, CommitCodec.DecodeSigned, Lawful;
      nsc, block, fault := None, [], false;
      var ncom := CommitCodec.UnsignedCommit(sc.did, VERSION_3, None, Some(data), rev);
      var sb := CommitCodec.MarshalUnsigned(ncom);
      if sb.None? { return; }
      var sig := lib.sign(ncom.did, sb.value);
      if sig.None? { return None, block, true; }
      var made := CommitCodec.SignedCommit(ncom.did, ncom.version, ncom.prev, ncom.data, sig.value, ncom.rev);
      var bytes := CommitCodec.MarshalSigned(made);
      if bytes.None? { return None, block, true; }
      assert CommitCodec.Unsigned(made) == ncom;
      CommitFits(session.store.env, lib, made);
      SignatureGood(session.store.env, lib, made);
      CommitReads(session.store.env, lib, made, t);
      CommitCodec.SignedRoundTrip(made, []);
      assert CommitCodec.EncodeSigned(made) + [] == CommitCodec.EncodeSigned(made);
      return Some(made), bytes.value, false;
    }

    /**
     * Commit: a signed version-3 commit to the current tree, its block and the tree's in the
     * session. Without a fault it fails exactly when the tree cannot be read, or a text of the
     * commit is too long.
     */
    method Commit(rev: Bytes, ghost m0: Option<Records>, ghost t: Records, ghost known: map<Cid, Bytes>)
      returns (root: Option<Cid>, ghost bytes: Bytes, ghost fault: bool)
      requires Working(m0, t, known) && !session.readonly
      modifies this, session, session.base`cache
      ensures old(puts) <= puts && session.blks == Contents(puts) && Checked(session.store.env, puts)
      ensures root.Some? ==> root.value == lib.hash(bytes) && Block(root.value, bytes) in puts && CommitOf(lib, bytes, t)
      ensures root.Some? ==> CommitCodec.DecodeSigned(bytes).value == sc && sc.rev == rev && !dirty
      ensures root.Some? ==> sc.did == old(sc).did && sc.version == VERSION_3 && sc.prev == None
      ensures root.Some? ==> Committing(session.store.env, lib, t, puts[|old(puts)|..])
      ensures root.Some? ==> forall c :: c in lib.written(m0, t) ==> c in lib.nodes(t) && Block(c, lib.nodes(t)[c]) in puts
      ensures root.Some? ==> forall p :: p in t ==> t[p] in session.blks || t[p] in StoredBy(session.store.disk, session.actor)
      ensures root.None? && !fault && Clear(session) ==>
                !R.FitsText(old(sc).did) || !R.FitsText(rev)
      ensures fault ==> root.None? && (session.store.env.faulty || !Signs(lib))
    {
      hide Durable, CacheOk, Fits, Unstuck, CommitOf, CommitCodec.EncodeSigned, CommitCodec.EncodeUnsigned, KnownBy,
           TreeStored, Contents, NodeLaw, SaveLaw, WrittenLaw, HashLaw, CidBytes, TreeNodes, Checked, CacheKnown,
           Committing, Body, StoredBy, Working, Lawful;
      bytes := [];
      WorkingMeans(m0, t, known);
      var m;
      m, fault := GetMst(m0, t, known);
      if m.None? { return None, bytes, fault; }
      var data := SaveTree(m0, t, known);
      WorkingMeans(m0, t, known);
      ghost var before := puts;
      var nsc, block;
      nsc, block, fault := SignedBlock(data, rev, t);
      bytes := block;
      if nsc.None? { return None, bytes, fault; }
      var c := lib.hash(block);
      FitsMeans(session.store.env, Block(c, bytes));
      var ok := PutBlock(Block(c, block), m0, t, known);
      assert puts[|old(puts)|..] == before[|old(puts)|..] + [Block(c, bytes)];
      NodesAndCommit(session.store.env, lib, t, before[|old(puts)|..], bytes);
      WorkingMeans(m0, t, known);
      sc, dirty := nsc.value, false;
      return Some(c), bytes, fault;
    }

    /** GetRecord: the identifier at the path, and the content of its block. */
    method GetRecord(path: Bytes, ghost m0: Option<Records>, ghost t: Records, ghost known: map<Cid, Bytes>)
      returns (r: Option<(Cid, Bytes)>, ghost fault: bool)
      requires Working(m0, t, known) && puts == []
      modifies this, session.base`cache
      ensures r.Some? ==> path in t && r.value.0 == t[path] && Knows(known, Block(r.value.0, r.value.1))
      ensures r.None? && !fault && Clear(session) ==> path !in t
      ensures fault ==> r.None? && session.store.env.faulty
    {
      hide Durable, CacheOk, Lawful, Unstuck, KnownBy, TreeStored, Checked;
      var m;
      m, fault := GetMst(m0, t, known);
      if m.None? || path !in m.value { return None, fault; }
      var c := m.value[path];
      var data;
      data, fault := ReadKnown(session, c, known);
      if data.None? { return None, fault; }
      return Some((c, data.value)), fault;
    }

    /** CheckRepoSig, for a commit with a DID: the DID must be the expected one and the signature verify. */
    method CheckRepoSig(expected: Bytes) returns (ok: bool)
      requires sc.did != []
      ensures ok <==> expected == sc.did && SignatureOk(lib, sc)
    {
      hide CommitCodec.EncodeUnsigned;
      if expected != sc.did { return false; }
      var sb := CommitCodec.MarshalUnsigned(CommitCodec.Unsigned(sc));
      if sb.None? { return false; }
      ok := lib.verify(sc.did, sc.sig, sb.value);
    }
  }

  /** The tree of a map is sound, and stored for the actor under the identifiers known for it. */
  ghost predicate TreeStored(lib: Lib, d: Disk, aid: Aid, m: Records, known: map<Cid, Bytes>) {
    && Sound(lib, m) && lib.nodes(m).Keys <= StoredBy(d, aid)
    && forall c :: c in lib.nodes(m) ==> Knows(known, Block(c, lib.nodes(m)[c]))
  }

  lemma NoNodes(lib: Lib, t: Records)
    ensures TreeNodes(lib, t, [])
  {
  }

  lemma NodeSnoc(lib: Lib, t: Records, bs: seq<Block>, c: Cid)
    requires TreeNodes(lib, t, bs) && c in lib.nodes(t)
    ensures TreeNodes(lib, t, bs + [Block(c, lib.nodes(t)[c])])
  {
  }

  lemma NodesAndCommit(env: Env, lib: Lib, t: Records, bs: seq<Block>, commit: Bytes)
    requires TreeNodes(lib, t, bs) && CommitOf(lib, commit, t) && |Body(Block(lib.hash(commit), commit))| <= env.limit
    ensures Committing(env, lib, t, bs + [Block(lib.hash(commit), commit)])
  {
    hide CommitOf, Body, TreeNodes;
    assert (bs + [Block(lib.hash(commit), commit)])[..|bs|] == bs;
  }

  lemma CheckedSnoc(env: Env, puts: seq<Block>, b: Block)
    requires Checked(env, puts) && env.check(b.cid, b.data)
    ensures Checked(env, puts + [b])
  {
  }

  lemma RecordChecks(env: Env, lib: Lib, rec: Bytes)
    requires Lawful(env, lib)
    ensures env.check(lib.hash(rec), rec)
  {
    hide NodeLaw, SaveLaw, WrittenLaw, SignLaw;
  }

  lemma WrittenNodes(env: Env, lib: Lib, kept: Option<Records>, m: Records)
    requires Lawful(env, lib)
    ensures lib.written(kept, m) <= lib.nodes(m).Keys
    ensures forall c :: c in lib.nodes(m) ==> env.check(c, lib.nodes(m)[c])
  {
    hide HashLaw, SaveLaw, SignLaw;
  }

  lemma StoredByStored(d: Disk, aid: Aid, c: Cid)
    ensures c in StoredBy(d, aid) ==> c in Stored(d)
  {
  }

  /**
   * Reading an identifier the session has no block of its own for gives the content known for it.
   * Without a fault it fails only for one that is not stored, or over a stuck prefetch.
   */
  method ReadKnown(s: DeltaSession, c: Cid, ghost known: map<Cid, Bytes>) returns (r: Option<Bytes>, ghost fault: bool)
    requires s.Valid() && s.store.Valid() && c !in s.blks
    requires KnownBy(s.store.env, s.store.disk, known) && CacheKnown(known, s.base.cache)
    modifies s.base`cache
    ensures s.Valid() && CacheKnown(known, s.base.cache)
    ensures r.Some? ==> Knows(known, Block(c, r.value))
    ensures r.None? && !fault && c in StoredBy(s.store.disk, s.actor) ==> !Clear(s)
    ensures fault ==> r.None? && s.store.env.faulty
  {
    hide Durable, CacheOk, Stuck, Unstuck, Held, ReadRef, StoredBy, Stored;
    StoredByStored(s.store.disk, s.actor, c);
    ghost var ref;
    r, ref, fault := s.Get(c);
    if r.Some? {
      if c !in old(s.base.cache) {
        ghost var b := RefHeld(s.store.env, s.store.disk, ref);
        assert b == Block(c, r.value);
      }
    } else if !fault && c in StoredBy(s.store.disk, s.actor) && Clear(s) {
      UnstuckRef(s.store.env, s.store.disk, ref, s.actor, s.base.prefetch);
    }
  }

  /** LoadMST and the walks over it: the root, and every node linked from a node already read. */
  method LoadMst(lib: Lib, s: DeltaSession, root: Cid, ghost t: Records, ghost known: map<Cid, Bytes>)
    returns (m: Option<Records>, ghost fault: bool)
    requires s.Valid() && s.store.Valid() && s.blks == map[] && root == lib.pointer(t)
    requires KnownBy(s.store.env, s.store.disk, known) && CacheKnown(known, s.base.cache)
    requires TreeStored(lib, s.store.disk, s.actor, t, known)
    modifies s.base`cache
    ensures s.Valid() && CacheKnown(known, s.base.cache)
    ensures m.Some? ==> m.value == t
    ensures m.None? && !fault ==> !Clear(s)
    ensures fault ==> m.None? && s.store.env.faulty
  {
    hide Durable, CacheOk, KnownBy, StoredBy, Unstuck;
    fault := false;
    var view: map<Cid, Bytes> := map[];
    var todo := {root};
    while todo != {}
      invariant s.Valid() && CacheKnown(known, s.base.cache) && !fault
      invariant todo + view.Keys <= lib.nodes(t).Keys && todo !! view.Keys && root in todo + view.Keys
      invariant forall c :: c in view ==> view[c] == lib.nodes(t)[c] && lib.links(view[c]) <= todo + view.Keys
      decreases lib.nodes(t).Keys - view.Keys
    {
      var c :| c in todo;
      var node;
      node, fault := ReadKnown(s, c, known);
      if node.None? { return None, fault; }
      ghost var before := view;
      view := view[c := node.value];
      todo := todo + lib.links(node.value) - view.Keys;
      assert view.Keys == before.Keys + {c};
    }
    assert Shows(lib, t, view);
    m := lib.load(root, view);
  }

  /**
   * OpenRepo at a commit of the store; the undefined head of an empty repository cannot be opened.
   * A stored head is opened, without a fault, exactly when its content is a commit of version 2 or
   * 3.
   */
  method OpenRepo(lib: Lib, s: DeltaSession, root: Option<Cid>, ghost known: map<Cid, Bytes>) returns (r: Option<Repo>, ghost fault: bool)
    requires s.Valid() && s.store.Valid() && s.blks == map[]
    requires KnownBy(s.store.env, s.store.disk, known) && CacheKnown(known, s.base.cache)
    modifies s.base`cache
    ensures s.Valid() && CacheKnown(known, s.base.cache)
    ensures r.Some? ==> root.Some? && root.value in known && Openable(known[root.value])
    ensures r.Some? ==> fresh(r.value) && r.value.lib == lib && r.value.session == s && r.value.puts == []
                        && r.value.sc == CommitCodec.DecodeSigned(known[root.value]).value && r.value.mst == None && r.value.kept == None
    ensures r.None? && !fault && root.Some? && root.value in StoredBy(s.store.disk, s.actor) && Clear(s) ==>
              root.value in known && !Openable(known[root.value])
    ensures fault ==> r.None? && s.store.env.faulty
  {
    hide Durable, CacheOk, Unstuck, KnownBy, StoredBy, CommitCodec.DecodeSigned;
    fault := false;
    if root.None? { return None, fault; }
    var data;
    data, fault := ReadKnown(s, root.value, known);
    if data.None? { return None, fault; }
    var p := CommitCodec.UnmarshalSigned(data.value);
    if p.Fail? { return None, fault; }
    if p.value.version != VERSION_3 && p.value.version != VERSION_2 { return None, fault; }
    var repo := new Repo.Opened(lib, s, p.value);
    return Some(repo), fault;
  }
}
