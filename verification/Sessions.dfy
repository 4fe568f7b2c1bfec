/**
 * Reading blocks through the tables (user_service/internal/car/user_view.go) and the sessions
 * that lay new blocks over them (user_service/internal/car/delta_session.go).
 */
module Sessions {
  import opened Prelude
  import opened Cids
  import opened CarFile
  import opened Disk
  import opened Writes
  import opened Compaction
  import opened Heads
  import opened CarStore

  // ----- response bodies -----

  /** The stream of a file. Read gives at least one byte while there are any, and may flag the end with the last. */
  class Stream {
    var rest: Bytes

    constructor (bytes: Bytes)
      ensures rest == bytes
    {
      rest := bytes;
    }

    method Read(env: Env, k: nat) returns (n: nat, eof: bool, fault: bool)
      requires k > 0
      modifies this
      ensures n <= k && n <= |old(rest)| && rest == old(rest)[n..]
      ensures n == 0 ==> eof || fault
      ensures eof ==> rest == []
      ensures fault ==> env.faulty
      ensures old(rest) == [] ==> eof || fault
    {
      var least, most := if rest == [] then 0 else 1, if k < |rest| then k else |rest|;
      n :| least <= n <= most;
      fault := Fails(env);
      eof := *;
      rest := rest[n..];
      eof := rest == [] && (n == 0 || eof);
    }
  }

  /**
   * offsetBytes. A body that can seek is moved to the offset. One that cannot is read until it
   * reports its end, because the counter the loop tests is never advanced; so for an offset above
   * 0 it either fails or leaves the body exhausted.
   */
  method OffsetBytes(env: Env, r: Stream, offset: nat) returns (ok: bool, ghost fault: bool)
    modifies r
    ensures env.seekable ==> ok && r.rest == if offset <= |old(r.rest)| then old(r.rest)[offset..] else []
    ensures !env.seekable && offset == 0 ==> ok && r.rest == old(r.rest)
    ensures !env.seekable && offset > 0 && ok ==> r.rest == []
    ensures fault ==> !ok && env.faulty
  {
    fault := false;
    if env.seekable {
      r.rest := if offset <= |r.rest| then r.rest[offset..] else [];
      return true, false;
    }
    var skipped := 0;
    while skipped < offset
      invariant skipped == 0 && (offset == 0 ==> r.rest == old(r.rest))
      decreases |r.rest|
    {
      var toSkip := if 8192 < offset - skipped then 8192 else offset - skipped;
      var n, eof, broken := r.Read(env, toSkip);
      var skipped := n;
      if broken { return false, true; }
      if eof { return skipped == offset, false; }
    }
    ok := true;
  }

  /** doBlockRead on what is left of a stream. */
  function DoBlockRead(env: Env, s: Bytes, k: Cid): Option<Bytes> {
    match ReadNode(s, env.limit)
    case Item(b, _) => if b.cid == k then Some(b.data) else None
    case _ => None
  }

  // ----- the view of one actor -----

  const PREFETCH := 512 * 1024

  /** The file behind a ref row. */
  function FileOf(d: Disk, r: Ref): Bytes {
    if r.shard in d.shards && d.shards[r.shard].path in d.files then d.files[d.shards[r.shard].path] else []
  }

  /** A prefetching read of a large file of the view's own actor, over a body that cannot seek, never succeeds. */
  predicate Stuck(env: Env, d: Disk, r: Ref, actor: Aid, prefetch: bool) {
    prefetch && r.aid == actor && !env.seekable && |FileOf(d, r)| > PREFETCH
  }

  class ActorView {
    const store: CarStore
    const actor: Aid
    const prefetch: bool
    var cache: map<Cid, Bytes>

    constructor (store: CarStore, actor: Aid, prefetch: bool)
      ensures this.store == store && this.actor == actor && this.prefetch == prefetch && cache == map[]
      ensures Valid()
    {
      this.store, this.actor, this.prefetch, cache := store, actor, prefetch, map[];
    }

    /** Every cached block has passed the check of its identifier. */
    ghost predicate Valid()
      reads this
    {
      forall c :: c in cache ==> store.env.check(c, cache[c])
    }

    /**
     * Get: from the cache, else through some ref row of the identifier. Without faults it fails
     * exactly when there is no such row, or the row leads to a stuck prefetch. What it returns is
     * the row's block, whichever way it was read, and all it adds to the cache are stored blocks.
     */
    method Get(k: Cid) returns (r: Option<Bytes>, ghost ref: Ref, ghost fault: bool)
      requires Valid() && store.Valid()
      modifies this`cache
      ensures Valid() && cache.Keys >= old(cache).Keys
      ensures !prefetch || k in old(cache) ==> cache == old(cache)
      ensures forall c :: c in cache ==> CachedOr(old(cache), c, cache[c]) || Held(store.env, store.disk, Block(c, cache[c]))
      ensures fault ==> r == None && store.env.faulty
      ensures k !in old(cache) && r.Some? ==> ref in store.disk.refs && ref.cid == k && r == ReadRef(store.env, store.disk, ref)
      ensures r.Some? ==> store.env.check(k, r.value)
      ensures k in old(cache) ==> r == Some(old(cache)[k])
      ensures k !in old(cache) && k !in Stored(store.disk) ==> r == None
      ensures k !in old(cache) && k in Stored(store.disk) && !fault ==>
                ref in store.disk.refs && ref.cid == k && (r.None? <==> Stuck(store.env, store.disk, ref, actor, prefetch))
    {
      hide Durable, CacheOk, Stored;
      ref, fault := Ref(k, 0, 0, 0), false;
      if k in cache { return Some(cache[k]), ref, fault; }
      var row, missing := LookupBlockRef(k);
      if row.None? { return None, ref, !missing; }
      ref := row.value;
      ghost var b := ReadRefWorks(store.env, store.disk, row.value);
      var path := store.disk.shards[row.value.shard].path;
      if prefetch && row.value.aid == actor {
        r, fault := PrefetchRead(k, path, row.value.offset, row.value);
      } else {
        r, fault := SingleRead(k, path, row.value.offset, row.value);
      }
    }

    /** Any one row of the identifier, whoever its actor is. */
    method LookupBlockRef(k: Cid) returns (row: Option<Ref>, missing: bool)
      ensures row.Some? ==> row.value in store.disk.refs && row.value.cid == k
      ensures row.Some? ==> k in Stored(store.disk)
      ensures row.None? && missing ==> k !in Stored(store.disk)
      ensures row.None? || !missing
      ensures row.None? && !missing ==> store.env.faulty
    {
      var broken := Fails(store.env);
      if broken { return None, false; }
      var rows := set r | r in store.disk.refs && r.cid == k;
      if rows == {} {
        assert forall r :: r in store.disk.refs && r.cid == k ==> r in rows;
        return None, true;
      }
      var r :| r in rows;
      return Some(r), false;
    }

    /** singleRead: a ranged request from the recorded offset. */
    method SingleRead(k: Cid, path: Path, offset: nat, ghost row: Ref) returns (r: Option<Bytes>, ghost fault: bool)
      requires store.Valid() && row in store.disk.refs && row.cid == k && row.offset == offset
      requires row.shard in store.disk.shards && store.disk.shards[row.shard].path == path
      ensures fault ==> r == None
      ensures !fault ==> r == ReadRef(store.env, store.disk, row)
      ensures fault ==> store.env.faulty
      ensures r.Some? ==> store.env.check(k, r.value)
      ensures !fault ==> r.Some?
    {
      hide Durable, CacheOk, ReadNode;
      ghost var b := ReadRefWorks(store.env, store.disk, row);
      var file := ReadFile(path);
      if file.None? { return None, true; }
      var rest := if offset > |file.value| then [] else file.value[offset..];
      RangedRead(store.env, store.disk, row);
      return DoBlockRead(store.env, rest, k), false;
    }

    method ReadFile(path: Path) returns (file: Option<Bytes>)
      ensures file.Some? ==> path in store.disk.files && file.value == store.disk.files[path]
      ensures file.None? ==> path !in store.disk.files || store.env.faulty
    {
      var broken := Fails(store.env);
      if broken || path !in store.disk.files { return None; }
      return Some(store.disk.files[path]);
    }

    /**
     * prefetchRead: a file up to the threshold is read whole, into the cache. When it succeeds it
     * gives what reading at the row directly gives.
     */
    method PrefetchRead(k: Cid, path: Path, offset: nat, ghost row: Ref) returns (r: Option<Bytes>, ghost fault: bool)
      requires Valid() && store.Valid() && row in store.disk.refs && row.cid == k && row.offset == offset
      requires row.shard in store.disk.shards && store.disk.shards[row.shard].path == path
      modifies this`cache
      ensures Valid() && forall c :: c in old(cache) ==> c in cache
      ensures r.Some? ==> r == ReadRef(store.env, store.disk, row)
      ensures forall c :: c in cache ==> CachedOr(old(cache), c, cache[c]) || Held(store.env, store.disk, Block(c, cache[c]))
      ensures fault ==> r == None && store.env.faulty
      ensures |FileOf(store.disk, row)| > PREFETCH ==> cache == old(cache)
      ensures |FileOf(store.disk, row)| <= PREFETCH && r.Some? ==>
                CidsIn(BlocksIn(store.env, FileOf(store.disk, row), store.disk.shards[row.shard].dataStart)) <= cache.Keys
      ensures r.Some? ==> store.env.check(k, r.value)
      ensures |FileOf(store.disk, row)| > PREFETCH && !store.env.seekable ==> r == None
      ensures !fault && !(|FileOf(store.disk, row)| > PREFETCH && !store.env.seekable) ==> r.Some?
    {
      hide Durable, CacheOk, ReadNode, ParseHeader, BlocksIn, ReadRef, Distinct, Held;
      ghost var b := RefHeld(store.env, store.disk, row);
      var file := ReadFile(path);
      if file.None? { return None, true; }
      if |file.value| > PREFETCH {
        var body := new Stream(file.value);
        var ok;
        ok, fault := OffsetBytes(store.env, body, offset);
        if !ok { return None, fault; }
        EmptyRead(store.env.limit);
        RangedRead(store.env, store.disk, row);
        return DoBlockRead(store.env, body.rest, k), fault;
      }
      var ok;
      ok, fault := CacheFile(file.value, row);
      if !ok { return None, fault; }
      assert CachedOr(cache, b.cid, b.data);
      if k !in cache { return None, false; }
      return Some(cache[k]), false;
    }

    /** The loop of prefetchRead: every block of the file goes to the cache. */
    method CacheFile(file: Bytes, ghost row: Ref) returns (ok: bool, ghost fault: bool)
      requires Valid() && store.Valid() && row in store.disk.refs && row.shard in store.disk.shards
      requires store.disk.shards[row.shard].path in store.disk.files && file == store.disk.files[store.disk.shards[row.shard].path]
      modifies this`cache
      ensures Valid() && forall c :: c in old(cache) ==> c in cache
      ensures forall c :: c in cache ==> CachedOr(old(cache), c, cache[c]) || Held(store.env, store.disk, Block(c, cache[c]))
      ensures ok ==> forall b :: b in BlocksIn(store.env, file, store.disk.shards[row.shard].dataStart) ==> CachedOr(cache, b.cid, b.data)
      ensures ok <==> !fault
      ensures fault ==> store.env.faulty
    {
      hide Durable, CacheOk, ReadNode, ParseHeader, BlocksIn, Distinct, Held;
      BlocksOfFileOf(store.env, store.disk, row);
      AllHeld(store.env, store.disk, row.shard);
      var head := ParseHeader(file, store.env.limit);
      if head.Fail? { return false, false; }
      var s := head.rest;
      ghost var all := ReadAll(store.env, s).blocks;
      ghost var got: seq<Block> := [];
      assert got + ReadAll(store.env, s).blocks == all;
      while true
        invariant Valid() && ReadAll(store.env, s).clean && got + ReadAll(store.env, s).blocks == all
        invariant forall c :: c in old(cache) ==> c in cache
        invariant forall i :: 0 <= i < |got| ==> CachedOr(cache, got[i].cid, got[i].data)
        invariant forall c :: c in cache ==> CachedOr(old(cache), c, cache[c]) || Block(c, cache[c]) in got
        decreases |s|
      {
        var broken := Fails(store.env);
        if broken { return false, true; }
        var next := ReadNode(s, store.env.limit);
        ReadAllStep(store.env, s);
        if next.Eof? { break; }
        if next.Bad? || !store.env.check(next.value.cid, next.value.data) { return false, false; }
        PrefixDistinct(all, got, next.value, ReadAll(store.env, next.rest).blocks);
        cache := cache[next.value.cid := next.value.data];
        got := got + [next.value];
        s := next.rest;
      }
      assert got == all;
      return true, false;
    }
  }

  /** The cache had this entry before. */
  predicate CachedOr(cache: map<Cid, Bytes>, c: Cid, data: Bytes) { c in cache && cache[c] == data }

  lemma ReadAllStep(env: Env, s: Bytes)
    ensures ReadAll(env, s) ==
            match ReadNode(s, env.limit)
            case Eof => Blocks([], true)
            case Bad => Blocks([], false)
            case Item(b, rest) =>
              if !env.check(b.cid, b.data) then Blocks([], false)
              else Blocks([b] + ReadAll(env, rest).blocks, ReadAll(env, rest).clean)
  {
    hide ReadNode;
  }

  /** The file behind a ref row parses, cleanly, to the blocks of its shard. */
  lemma BlocksOfFileOf(env: Env, d: Disk, r: Ref)
    requires Durable(env, d) && env.Valid() && r in d.refs && r.shard in d.shards && d.shards[r.shard].path in d.files
    ensures var head := ParseHeader(d.files[d.shards[r.shard].path], env.limit);
            && head.Got? && ReadAll(env, head.rest).clean
            && ReadAll(env, head.rest).blocks == BlocksIn(env, d.files[d.shards[r.shard].path], d.shards[r.shard].dataStart)
            && Distinct(ReadAll(env, head.rest).blocks)
  {
    hide ParseHeader, ReadAll, RefsOf, RefsOfFile, FileHeader, Frames, AllFit, Distinct;
    var sh := d.shards[r.shard];
    assert RowOk(env, d, r.shard);
    ShardRoundTrip(env, sh.root.value, BlocksIn(env, d.files[sh.path], sh.dataStart));
  }

  /** What a ranged read at a row sees is what the row leads to. */
  lemma RangedRead(env: Env, d: Disk, r: Ref)
    requires r.shard in d.shards && d.shards[r.shard].path in d.files
    ensures var file := d.files[d.shards[r.shard].path];
            var rest := if r.offset > |file| then [] else file[r.offset..];
            DoBlockRead(env, rest, r.cid) == ReadRef(env, d, r)
  {
    hide ReadNode;
    EmptyRead(env.limit);
  }

  lemma AllHeld(env: Env, d: Disk, id: nat)
    requires id in d.shards && d.shards[id].path in d.files
    ensures forall b :: b in BlocksIn(env, d.files[d.shards[id].path], d.shards[id].dataStart) ==> Held(env, d, b)
  {
    hide BlocksIn;
    forall b | b in BlocksIn(env, d.files[d.shards[id].path], d.shards[id].dataStart) ensures Held(env, d, b) {
      assert HeldIn(env, d, id, b);
    }
  }

  lemma PrefixDistinct(all: seq<Block>, got: seq<Block>, b: Block, rest: seq<Block>)
    requires Distinct(all) && all == got + ([b] + rest)
    ensures forall i :: 0 <= i < |got| ==> got[i].cid != b.cid
  {
    assert all[|got|] == b;
    assert forall i :: 0 <= i < |got| ==> all[i] == got[i];
  }

  // ----- sessions -----

  class DeltaSession {
    const store: CarStore
    const base: ActorView
    const actor: Aid
    const baseCid: Option<Cid>
    const sq: nat
    const lastRev: Bytes
    const readonly: bool
    var blks: map<Cid, Bytes>

    constructor (store: CarStore, base: ActorView, actor: Aid, baseCid: Option<Cid>, sq: nat, lastRev: Bytes, readonly: bool)
      ensures this.store == store && this.base == base && this.actor == actor && this.baseCid == baseCid
      ensures this.sq == sq && this.lastRev == lastRev && this.readonly == readonly && blks == map[]
    {
      this.store, this.base, this.actor, this.baseCid := store, base, actor, baseCid;
      this.sq, this.lastRev, this.readonly, blks := sq, lastRev, readonly, map[];
    }

    ghost predicate Valid()
      reads this, base
    {
      base.store == store && base.actor == actor && base.Valid()
    }

    method Put(b: Block) returns (ok: bool)
      modifies this
      ensures ok == !readonly
      ensures blks == if ok then old(blks)[b.cid := b.data] else old(blks)
    {
      if readonly { return false; }
      blks := blks[b.cid := b.data];
      return true;
    }

    /** The last block given for an identifier stays. */
    method PutMany(bs: seq<Block>) returns (ok: bool)
      modifies this
      ensures ok == !readonly
      ensures blks == if ok then old(blks) + Contents(bs) else old(blks)
    {
      if readonly { return false; }
      for i := 0 to |bs|
        invariant blks == old(blks) + Contents(bs[..i])
      {
        blks := blks[bs[i].cid := bs[i].data];
        assert bs[..i + 1][..i] == bs[..i];
      }
      assert bs[..|bs|] == bs;
      return true;
    }

    method DeleteBlock(c: Cid) returns (ok: bool)
      modifies this
      ensures ok <==> !readonly && c in old(blks)
      ensures blks == if ok then old(blks) - {c} else old(blks)
    {
      if readonly || c !in blks { return false; }
      blks := blks - {c};
      return true;
    }

    /** Get: the session's own block, else the view's. */
    method Get(c: Cid) returns (r: Option<Bytes>, ghost ref: Ref, ghost fault: bool)
      requires Valid() && store.Valid()
      modifies base`cache
      ensures Valid() && base.cache.Keys >= old(base.cache).Keys
      ensures fault ==> r == None && store.env.faulty
      ensures forall x :: x in base.cache ==>
                CachedOr(old(base.cache), x, base.cache[x]) || Held(store.env, store.disk, Block(x, base.cache[x]))
      ensures c !in blks && c !in old(base.cache) && r.Some? ==>
                ref in store.disk.refs && ref.cid == c && r == ReadRef(store.env, store.disk, ref)
      ensures c in blks ==> r == Some(blks[c])
      ensures c !in blks && c in old(base.cache) ==> r == Some(old(base.cache)[c])
      ensures c !in blks && r.Some? ==> store.env.check(c, r.value)
      ensures c !in blks && c !in old(base.cache) && c !in Stored(store.disk) ==> r == None
      ensures c !in blks && c !in old(base.cache) && c in Stored(store.disk) && !fault ==>
                ref in store.disk.refs && ref.cid == c
                && (r.None? <==> Stuck(store.env, store.disk, ref, actor, base.prefetch))
    {
      hide Durable, CacheOk, Stored, Stuck, Held, ReadRef;
      if c in blks { return Some(blks[c]), Ref(c, 0, 0, 0), false; }
      r, ref, fault := base.Get(c);
    }

    /**
     * CloseWithRoot: one new shard with the session's blocks, at the number the session was given.
     * With no block too long to write, and no fault, it succeeds exactly when the session is
     * writable; a block too long makes LdWrite panic before anything is stored.
     */
    method CloseWithRoot(root: Cid, rev: Bytes) returns (slice: Option<Bytes>, ghost order: seq<Block>, ghost n: nat)
      requires store.Valid()
      modifies store
      ensures Distinct(order) && Contents(order) == blks
      ensures n <= 2 && (readonly ==> n == 0)
      ensures n < 2 ==> readonly || store.env.faulty || !AllWritable(blks)
      ensures store.disk == ApplyAll(old(store.disk), WritePlan(store.env, root, rev, actor, sq, Key(actor, sq), order)[..n])
      ensures slice == if n == 2 then Some(ShardFile(store.env, root, order)) else None
      ensures store.cache == if n == 2
                then old(store.cache)[actor := NewRow(store.env, root, rev, actor, sq, Key(actor, sq)).(id := old(store.disk).nextId)]
                else old(store.cache)
      ensures FreshSeq(old(store.disk), actor, sq) && (n < 2 || AllFit(store.env, order)) ==> store.Valid()
      ensures FreshSeq(old(store.disk), actor, sq) && n == 2 && AllFit(store.env, order) ==>
                SafeSteps(store.env, old(store.disk), WritePlan(store.env, root, rev, actor, sq, Key(actor, sq), order))
    {
      hide Durable, CacheOk, Distinct, AllFit, Contents, FileHeader, ShardFile, Writable, Fits, Marks, ApplyAll,
           WritePlan, SafeSteps, FreshSeq;
      if readonly || !AllWritable(blks) {
        slice, n := None, 0;
        order := OrderOf(blks);
        assert WritePlan(store.env, root, rev, actor, sq, Key(actor, sq), order)[..0] == [];
        NoSteps(store.disk);
      } else {
        slice, order, n := store.WriteNewShard(root, rev, actor, sq, blks);
      }
    }
  }

  predicate AllWritable(blks: map<Cid, Bytes>) {
    forall c :: c in blks ==> Writable(Block(c, blks[c]))
  }

  /** What the reader accepts, the writer can write. */
  lemma FitOrder(env: Env, blks: map<Cid, Bytes>)
    requires env.Valid() && forall c :: c in blks ==> |Body(Block(c, blks[c]))| <= env.limit
    ensures AllWritable(blks)
  {
    hide Body;
  }

  lemma OrderOf(blks: map<Cid, Bytes>) returns (order: seq<Block>)
    ensures Distinct(order) && Contents(order) == blks
  {
    order := [];
    var todo := blks.Keys;
    while todo != {}
      invariant todo <= blks.Keys && Distinct(order) && CidsIn(order) == blks.Keys - todo
      invariant Contents(order) == map c | c in blks && c !in todo :: blks[c]
      decreases todo
    {
      var k :| k in todo;
      todo := todo - {k};
      CidsSnoc(order, Block(k, blks[k]));
      ContentsSnoc(order, Block(k, blks[k]));
      order := order + [Block(k, blks[k])];
    }
  }

  /**
   * NewDeltaSession. Without a fault it is refused exactly when a revision is given that is not
   * the head's; the session starts from the actor's highest row and takes the number after it.
   */
  method NewDeltaSession(store: CarStore, actor: Aid, since: Option<Bytes>)
    returns (r: Option<DeltaSession>, ghost last: Shard, ghost fault: bool)
    requires store.Valid()
    modifies store`cache
    ensures store.Valid() && (r.Some? ==> fresh(r.value) && fresh(r.value.base))
    ensures r.Some? ==> r.value.Valid() && r.value.store == store && r.value.actor == actor && !r.value.readonly
    ensures r.Some? ==> r.value.blks == map[] && r.value.base.cache == map[] && r.value.base.prefetch
    ensures r.Some? ==> r.value.baseCid == last.root && r.value.lastRev == last.rev && r.value.sq == last.seqno + 1
    ensures !fault && (actor != 0 || CachedRight(old(store.cache), store.disk, actor)) ==> LastOf(store.disk, actor, last)
    ensures !fault && actor in old(store.cache) ==> last == old(store.cache)[actor]
    ensures if fault then store.cache == old(store.cache) else CachedAfter(old(store.cache), store.cache, actor, last)
    ensures !fault ==> (r.None? <==> since.Some? && since.value != last.rev)
    ensures fault ==> r.None? && store.env.faulty
    ensures !fault && last.aid == actor ==> actor in store.cache && store.cache[actor] == last
  {
    hide Durable, CacheOk, LastOf;
    var sh := store.GetLastShard(actor);
    if sh.None? { return None, NO_SHARD, true; }
    last, fault := sh.value, false;
    if since.Some? && since.value != sh.value.rev { return None, last, fault; }
    var base := new ActorView(store, actor, true);
    var session := new DeltaSession(store, base, actor, sh.value.root, sh.value.seqno + 1, sh.value.rev, false);
    r := Some(session);
  }

  /** ReadOnlySession: no blocks of its own, and no prefetching. */
  method ReadOnlySession(store: CarStore, actor: Aid) returns (r: DeltaSession)
    ensures fresh(r) && fresh(r.base) && r.Valid() && r.store == store && r.actor == actor
    ensures r.readonly && r.blks == map[] && r.base.cache == map[] && !r.base.prefetch
  {
    var base := new ActorView(store, actor, false);
    r := new DeltaSession(store, base, actor, None, 0, [], true);
  }
}
