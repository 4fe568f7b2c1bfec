/**
 * The CAR store object (S3CarStore of user_service/internal/car/store.go, with its queries in
 * meta.go and its last-shard cache in last_shard_cache.go). Every database or file request may
 * fail, and then the operation returns what it has done so far.
 */
module CarStore {
  import opened Prelude
  import opened Cids
  import opened CarFile
  import opened Disk
  import opened Writes
  import opened Compaction
  import opened Buckets
  import opened Heads
  import opened CompactRun

  class CarStore {
    const env: Env
    var disk: Disk
    var cache: map<Aid, Shard>

    ghost predicate Valid()
      reads this
    {
      env.Valid() && Durable(env, disk) && CacheOk(cache, disk)
    }

    constructor (env: Env)
      requires env.Valid()
      ensures Valid() && this.env == env && disk == EMPTY && cache == map[]
    {
      this.env := env;
      disk, cache := EMPTY, map[];
      new;
      EmptyDurable(env);
    }

    /** The query behind the cache: the last row, or the zero shard. */
    method QueryLastShard(actor: Aid) returns (r: Option<Shard>)
      requires Valid()
      ensures r.Some? ==> LastOf(disk, actor, r.value)
      ensures r.None? ==> env.faulty
    {
      var fails := Fails(env);
      if fails { return None; }
      RowsHaveIds(env, disk);
      var ids := RowIds(disk, actor);
      if ids == {} {
        assert forall id :: id in disk.shards && disk.shards[id].aid == actor ==> id in ids;
        return Some(NO_SHARD);
      }
      var id := Highest(disk, ids);
      assert forall k :: k in disk.shards && disk.shards[k].aid == actor ==> k in ids;
      return Some(disk.shards[id]);
    }

    /**
     * lastShardCache.get. For every actor but 0 the answer is the actor's highest row, cached or
     * not; a failed query changes nothing.
     */
    method GetLastShard(actor: Aid) returns (r: Option<Shard>)
      requires Valid()
      modifies this`cache
      ensures Valid()
      ensures actor in old(cache) ==> r == Some(old(cache)[actor]) && cache == old(cache)
      ensures actor !in old(cache) ==> cache == if r.Some? then old(cache)[r.value.aid := r.value] else old(cache)
      ensures r.Some? && (actor != 0 || CachedRight(old(cache), disk, actor)) ==> LastOf(disk, actor, r.value)
      ensures r.None? ==> env.faulty
    {
      hide Durable;
      if actor in cache { return Some(cache[actor]); }
      r := QueryLastShard(actor);
      if r.Some? {
        cache := cache[r.value.aid := r.value];
      }
    }

    /** GetActorRepoHead and GetActorRepoRev: undefined and empty when there is no shard. */
    method GetActorRepoHead(actor: Aid) returns (r: Option<Option<Cid>>, ghost last: Shard)
      requires Valid()
      modifies this`cache
      ensures Valid()
      ensures if r.Some? then CachedAfter(old(cache), cache, actor, last) else cache == old(cache)
      ensures r.Some? && actor in cache ==> last == cache[actor]
      ensures r.Some? && (actor != 0 || CachedRight(old(cache), disk, actor)) ==> LastOf(disk, actor, last) && r.value == last.root
      ensures r.None? ==> env.faulty
    {
      RowsHaveIds(env, disk);
      hide Durable;
      var sh := GetLastShard(actor);
      if sh.None? { return None, NO_SHARD; }
      return Some(if sh.value.id == 0 then None else sh.value.root), sh.value;
    }

    method GetActorRepoRev(actor: Aid) returns (r: Option<Bytes>, ghost last: Shard)
      requires Valid()
      modifies this`cache
      ensures Valid()
      ensures if r.Some? then CachedAfter(old(cache), cache, actor, last) else cache == old(cache)
      ensures r.Some? && actor in cache ==> last == cache[actor]
      ensures r.Some? && (actor != 0 || CachedRight(old(cache), disk, actor)) ==> LastOf(disk, actor, last) && r.value == last.rev
      ensures r.None? ==> env.faulty
    {
      RowsHaveIds(env, disk);
      hide Durable;
      var sh := GetLastShard(actor);
      if sh.None? { return None, NO_SHARD; }
      return Some(if sh.value.id == 0 then [] else sh.value.rev), sh.value;
    }

    /**
     * writeNewShard: n of the two steps were done. The cache moves to the new row exactly when
     * both were. With a sequence number above all of the actor's rows, and blocks that fit, the
     * store is valid wherever it stopped.
     */
    method WriteNewShard(root: Cid, rev: Bytes, actor: Aid, sq: nat, blks: map<Cid, Bytes>)
      returns (slice: Option<Bytes>, ghost order: seq<Block>, ghost n: nat)
      requires Valid() && forall c :: c in blks ==> Writable(Block(c, blks[c]))
      modifies this
      ensures Distinct(order) && Contents(order) == blks && (n < 2 ==> env.faulty)
      ensures n <= 2 && disk == ApplyAll(old(disk), WritePlan(env, root, rev, actor, sq, Key(actor, sq), order)[..n])
      ensures slice == if n == 2 then Some(ShardFile(env, root, order)) else None
      ensures cache == if n == 2 then old(cache)[actor := NewRow(env, root, rev, actor, sq, Key(actor, sq)).(id := old(disk).nextId)]
                       else old(cache)
      ensures FreshSeq(old(disk), actor, sq) && n < 2 ==> Valid()
      ensures FreshSeq(old(disk), actor, sq) && AllFit(env, order) ==>
                Valid() && SafeSteps(env, old(disk), WritePlan(env, root, rev, actor, sq, Key(actor, sq), order))
    {
      hide Durable, Distinct, AllFit, Contents, FileHeader, ShardFile, Writable, Marks, ApplyAll, WritePlan, CacheOk,
           SafeSteps;
      var bytes, dataStart, marks;
      bytes, dataStart, marks, order := BuildShard(env, root, blks);
      n := 0;
      ghost var d := disk;
      ghost var plan := WritePlan(env, root, rev, actor, sq, Key(actor, sq), order);
      var path := Key(actor, sq);
      var row := Shard(0, Some(root), dataStart, sq, path, actor, rev);
      PlanSteps(env, root, rev, actor, sq, path, order);
      var refused := Fails(env);
      if !refused {
        disk := Apply(disk, PutFile(path, bytes));
        n := 1;
        refused := Fails(env);
        if !refused {
          row := row.(id := disk.nextId);
          disk := Apply(disk, InsertRows(row.(id := 0), marks));
          cache := cache[actor := row];
          slice := Some(bytes);
          n := 2;
        } else {
          slice := None;
        }
      } else {
        slice := None;
      }
      TwoSteps(env, d, plan[0], plan[1]);
      PartWrite(env, d, root, rev, actor, sq, path, order, n);
      if FreshSeq(d, actor, sq) && n < 2 {
        UnfinishedOk(env, d, root, rev, actor, sq, order, cache, n);
      }
      if FreshSeq(d, actor, sq) && AllFit(env, order) {
        WriteOk(env, d, root, rev, actor, sq, order, old(cache), n);
      }
    }

    /**
     * deleteShards: in chunks of 2000, the rows and then the files. m of the plan's steps were
     * done; a request may take effect and still report an error.
     */
    method DeleteShards(actor: Aid, shs: seq<Shard>) returns (ok: bool, ghost m: nat)
      modifies this`disk
      ensures m <= |DeletePlan(actor, shs)| && disk == ApplyAll(old(disk), DeletePlan(actor, shs)[..m])
      ensures ok ==> m == |DeletePlan(actor, shs)|
      ensures !ok ==> env.faulty
    {
      hide Apply, ApplyAll, Ids, Seqs, DeletePlan;
      ghost var d, plan := disk, DeletePlan(actor, shs);
      m := 0;
      var i := 0;
      NoSteps(d);
      assert plan[..0] == [] && shs[0..] == shs;
      while i < |shs|
        invariant i <= |shs| && m <= |plan| && plan == plan[..m] + DeletePlan(actor, shs[i..])
        invariant disk == ApplyAll(d, plan[..m])
      {
        var sl := shs[i..];
        if |sl| > CHUNK { sl := sl[..CHUNK]; }
        NextChunk(actor, shs, i, sl, plan, m);
        var failed := Fails(env);
        if failed { return false, m; }
        ApplySnoc(d, plan, m);
        disk := Apply(disk, DeleteRows(Ids(sl)));
        m := m + 1;
        failed := Fails(env);
        if failed { return false, m; }
        ApplySnoc(d, plan, m);
        disk := Apply(disk, DeleteFiles(actor, Seqs(sl)));
        m := m + 1;
        failed := Fails(env);
        if failed { return false, m; }
        i := i + |sl|;
      }
      assert shs[i..] == [];
      NoDeletes(actor);
      ok := true;
    }

    /**
     * WipeActorData. When it succeeds the actor has no rows, refs or cached shard left. Nothing of
     * another actor changes, and every stop on the way is safe if no two of the actor's shards
     * share a sequence number.
     */
    method WipeActorData(actor: Aid) returns (ok: bool, ghost shs: seq<Shard>, ghost m: nat)
      requires Valid()
      modifies this
      ensures Listed(old(disk), actor, shs) && Ids(shs) == RowIds(old(disk), actor) && Ascending(shs)
      ensures m <= |DeletePlan(actor, shs)| && disk == ApplyAll(old(disk), DeletePlan(actor, shs)[..m])
      ensures cache == if ok then old(cache) - {actor} else old(cache)
      ensures !ok ==> env.faulty
      ensures ok ==> disk == Without(old(disk), actor, shs) && RowIds(disk, actor) == {} && StoredBy(disk, actor) == {}
      ensures forall a :: a != actor ==> RowIds(disk, a) == RowIds(old(disk), a) && StoredBy(disk, a) == StoredBy(old(disk), a)
      ensures SeqUniqueFor(old(disk), actor) ==>
                SafeSteps(env, old(disk), DeletePlan(actor, shs)) && Durable(env, disk) && (ok ==> Valid())
      ensures OnlyOld(env, old(disk), disk)
    {
      RowsHaveIds(env, disk);
      hide Durable, CacheOk, ApplyAll, Ids, DeletePlan, Listed, StoredBy, RowIds, Ascending, Without, SeqUniqueFor,
           SafeSteps, OnlyOld;
      ghost var d := disk;
      var rows := QueryShards(env, disk, actor);
      shs := rows;
      m := 0;
      ok := false;
      var failed := Fails(env);
      if !failed {
        ok, m := DeleteShards(actor, rows);
        if ok { cache := cache - {actor}; }
      } else {
        NoSteps(d);
        assert DeletePlan(actor, shs)[..0] == [];
      }
      Wiped(env, d, actor, shs, m, old(cache));
      WipeHolds(env, d, actor, shs, m);
      if ok { assert DeletePlan(actor, shs)[..m] == DeletePlan(actor, shs); }
    }

    /** iterateShardBlocks: the blocks before the first that cannot be read. */
    method ReadShardBlocks(sh: Shard) returns (bs: seq<Block>, ghost whole: bool)
      ensures bs <= BlocksOf(env, disk, sh) && (whole ==> bs == BlocksOf(env, disk, sh))
      ensures !whole ==> env.faulty
    {
      hide ReadNode, ParseHeader;
      bs, whole := [], true;
      var failed := Fails(env);
      if failed { whole := false; return; }
      if sh.path !in disk.files { return; }
      match ParseHeader(disk.files[sh.path], env.limit)
      case Fail => return;
      case Got(_, rest) =>
        var s := rest;
        while true
          invariant bs + ReadAll(env, s).blocks == ReadAll(env, rest).blocks
          decreases |s|
        {
          var cut := Fails(env);
          if cut { whole := false; return; }
          var next := ReadNode(s, env.limit);
          if !next.Item? || !env.check(next.value.cid, next.value.data) {
            assert ReadAll(env, s).blocks == [];
            return;
          }
          assert ReadAll(env, s).blocks == [next.value] + ReadAll(env, next.rest).blocks;
          assert bs + ([next.value] + ReadAll(env, next.rest).blocks) == (bs + [next.value]) + ReadAll(env, next.rest).blocks;
          bs := bs + [next.value];
          s := next.rest;
        }
    }

    /**
     * compactBucket: merges what could be read of the shards, each identifier once, into a new
     * file under the head of the last of them. A failed insert takes the file away again, if it
     * can.
     */
    method CompactBucket(actor: Aid, bucket: seq<Shard>)
      returns (ok: bool, ghost t: nat, ghost lists: seq<seq<Block>>, ghost clean: bool, ghost n: nat)
      requires env.Valid() && bucket != [] && Newest(bucket).root.Some?
      modifies this`disk
      ensures Temp(t) !in old(disk).files && ReadLists(env, old(disk), bucket, lists)
      ensures clean ==> lists == BlockLists(env, old(disk), bucket)
      ensures n <= 2 && (ok ==> n == 2) && (!ok || !clean ==> env.faulty)
      ensures disk == ApplyAll(old(disk), WritePlan(env, Newest(bucket).root.value, Newest(bucket).rev, actor,
                                                    Newest(bucket).seqno, Temp(t), MergeAll(lists))[..n])
    {
      hide BlocksOf, ParseHeader, ReadAll, CidBytes, Frame, Frames, FileHeader, HeaderCbor, Section, Marks, EndOf,
           Distinct, CidsIn, Fits, Writable, Merge, MergeAll, WritePlan, ApplyAll;
      var name := FreshName(disk.files.Keys);
      t := name;
      var last := Newest(bucket);
      var root := last.root.value;
      var buf := new Buffer();
      HeaderShort(root);
      ConcatOne(env.header(root));
      var dataStart := LdWrite(buf, [env.header(root)]);
      var offset, marks, written := dataStart, [], {};
      ghost var merged: seq<Block> := [];
      lists, clean := [], true;
      NoBlocks(env, root);
      NoLists();
      assert buf.bytes == FileHeader(env, root) + Frames(merged) by { HeaderSection(env, root); }
      for i := 0 to |bucket|
        invariant disk == old(disk) && |lists| == i && merged == MergeAll(lists) && Distinct(merged)
        invariant forall k :: 0 <= k < i ==> lists[k] <= BlocksOf(env, disk, bucket[k])
        invariant clean ==> forall k :: 0 <= k < i ==> lists[k] == BlocksOf(env, disk, bucket[k])
        invariant !clean ==> env.faulty
        invariant buf.bytes == FileHeader(env, root) + Frames(merged) && written == CidsIn(merged)
        invariant offset == EndOf(env, root, merged) && marks == Marks(env, root, merged)
      {
        var bs, whole := ReadShardBlocks(bucket[i]);
        clean := clean && whole;
        ReadFits(env, disk, bucket[i]);
        ghost var before := merged;
        for j := 0 to |bs|
          invariant disk == old(disk) && Distinct(merged)
          invariant Merge(merged, bs[j..]) == Merge(before, bs)
          invariant buf.bytes == FileHeader(env, root) + Frames(merged) && written == CidsIn(merged)
          invariant offset == EndOf(env, root, merged) && marks == Marks(env, root, merged)
        {
          var b := bs[j];
          MergeStep(merged, bs[j..]);
          assert bs[j..][1..] == bs[j + 1..];
          if b.cid !in written {
            assert b == BlocksOf(env, disk, bucket[i])[j];
            assert Concat([CidBytes(b.cid), b.data]) == Body(b) by { ConcatTwo(CidBytes(b.cid), b.data); }
            WritableMeans(b);
            var nw := LdWrite(buf, [CidBytes(b.cid), b.data]);
            marks := marks + [Mark(b.cid, offset)];
            offset := offset + nw;
            written := written + {b.cid};
            OneMore(env, root, merged, b);
            merged := merged + [b];
          }
        }
        MergeEnd(merged);
        MergeMore(lists, bs);
        lists := lists + [bs];
      }
      var row := Shard(0, Some(root), dataStart, last.seqno, Temp(name), actor, last.rev);
      ghost var d := disk;
      PlanSteps(env, root, last.rev, actor, last.seqno, Temp(t), merged);
      ghost var plan := WritePlan(env, root, last.rev, actor, last.seqno, Temp(t), merged);
      PartWrite(env, d, root, last.rev, actor, last.seqno, Temp(t), merged, 0);
      PartWrite(env, d, root, last.rev, actor, last.seqno, Temp(t), merged, 1);
      PartWrite(env, d, root, last.rev, actor, last.seqno, Temp(t), merged, 2);
      TwoSteps(env, d, plan[0], plan[1]);
      ok, n := false, 0;
      var failed := Fails(env);
      if failed { return; }
      disk := Apply(disk, PutFile(Temp(name), buf.bytes));
      n := 1;
      failed := Fails(env);
      if failed {
        var kept := Fails(env);
        if !kept {
          disk := disk.(files := disk.files - {Temp(name)});
          assert disk.files == d.files;
          n := 0;
        }
        return;
      }
      disk := Apply(disk, InsertRows(row, marks));
      ok, n := true, 2;
    }

    /** shardSize: a missing file counts as empty. */
    method ShardSize(sh: Shard) returns (size: Option<nat>)
      ensures size.Some? ==> size.value == if sh.path in disk.files then |disk.files[sh.path]| else 0
      ensures size.None? ==> env.faulty
    {
      var fails := Fails(env);
      if fails { return None; }
      return Some(if sh.path in disk.files then |disk.files[sh.path]| else 0);
    }

    /** The prefix of shard files above the threshold is left alone. */
    method SkipBigShards(shs: seq<Shard>) returns (rest: Option<seq<Shard>>)
      ensures rest.Some? ==> BigSkipped(disk, shs, rest.value)
      ensures rest.None? ==> env.faulty
    {
      var k := 0;
      while k < |shs|
        invariant k <= |shs|
        invariant forall i :: 0 <= i < k ==> Big(disk, shs[i])
      {
        var size := ShardSize(shs[k]);
        if size.None? { return None; }
        if size.value <= BIG_SHARD { break; }
        k := k + 1;
      }
      rest := Some(shs[k..]);
    }

    /** The body of the compaction loop: merge the shards, then delete them. n steps of the plan were done. */
    method MergeAndDelete(actor: Aid, bucket: seq<Shard>)
      returns (merged: bool, gone: bool, ghost t: nat, ghost lists: seq<seq<Block>>, ghost clean: bool, ghost n: nat)
      requires env.Valid() && bucket != [] && Newest(bucket).root.Some?
      modifies this`disk
      ensures Temp(t) !in old(disk).files && ReadLists(env, old(disk), bucket, lists)
      ensures clean ==> lists == BlockLists(env, old(disk), bucket)
      ensures gone ==> merged
      ensures !gone || !clean ==> env.faulty
      ensures n <= |CompactPlan(env, actor, t, bucket, MergeAll(lists))|
      ensures gone ==> n == |CompactPlan(env, actor, t, bucket, MergeAll(lists))|
      ensures disk == ApplyAll(old(disk), CompactPlan(env, actor, t, bucket, MergeAll(lists))[..n])
    {
      hide CompactPlan, MergeAll, ReadLists, BlockLists, WritePlan, DeletePlan, ApplyAll;
      ghost var m := 0;
      gone := false;
      merged, t, lists, clean, n := CompactBucket(actor, bucket);
      NoSteps(disk);
      assert DeletePlan(actor, bucket)[..0] == [];
      if merged {
        gone, m := DeleteShards(actor, bucket);
      }
      PlanParts(env, old(disk), actor, t, bucket, MergeAll(lists), n, m);
      n := n + m;
    }

    /** The shards a compaction looks at: all of the actor's, or all after the big ones in front. */
    method ConsideredShards(actor: Aid, skipBigShards: bool) returns (shs: Option<seq<Shard>>)
      requires Valid()
      ensures shs.Some? ==> Listed(disk, actor, shs.value) && Considered(disk, actor, skipBigShards, Ids(shs.value))
      ensures shs.Some? ==> |Ids(shs.value)| == |shs.value|
      ensures shs.None? ==> env.faulty
    {
      RowsHaveIds(env, disk);
      hide Durable, CacheOk, Listed, Ascending, Ids, RowIds, Considered, BigSkipped;
      var failed := Fails(env);
      if failed { return None; }
      var shards := QueryShards(env, disk, actor);
      if skipBigShards {
        var rest := SkipBigShards(shards);
        if rest.None? { return None; }
        SkippedBig(disk, actor, shards, rest.value);
        return rest;
      }
      AllConsidered(disk, actor);
      IdsSize(disk, actor, shards);
      return Some(shards);
    }

    /** The first half of CompactActorShards: query the shards and their refs, and form the buckets. */
    method FormBuckets(actor: Aid, skipBigShards: bool)
      returns (r: Option<seq<seq<ShardStat>>>, startShards: nat, byId: map<nat, Shard>, refs: seq<Ref>)
      requires Valid()
      ensures r.Some? ==> startShards == |byId.Keys| && AllQueued(disk, byId.Keys, r.value)
      ensures r.Some? ==> Considered(disk, actor, skipBigShards, byId.Keys)
      ensures r.Some? ==> Queued(disk, actor, refs, r.value) && RowMap(disk, actor, byId)
      ensures r.Some? ==> StatIds(Flatten(r.value)) <= byId.Keys
      ensures r.None? ==> env.faulty
    {
      RowsHaveIds(env, disk);
      hide Durable, CacheOk, Listed, Considered, Queued, AllQueued, Flatten, StatIds, Count, ShardsIn, ClosedBuckets,
           SeqSorted, DistinctIds, Ids, NoDup, StatOf, ToSet, RowMap;
      r, startShards, byId, refs := None, 0, map[], [];
      var shards := ConsideredShards(actor, skipBigShards);
      if shards.None? { return; }
      var failed := Fails(env);
      if failed { return; }
      startShards := |shards.value|;
      var shardIds := ShardIds(disk, actor, shards.value);
      byId := ById(disk, actor, shards.value);
      refs := RefsOfShards(disk, shardIds);
      RefsKnown(disk, shardIds, byId, refs);
      var results := AggrRefs(refs, byId);
      var queue := Bucketize(results, |refs|);
      QueueMade(disk, actor, byId, refs, results, queue);
      IdsKnown(results, byId);
      r := Some(queue);
    }

    /**
     * CompactActorShards. The queue cuts the shards with blocks, by ascending sequence number, into
     * buckets; those of more than five are merged. If no two of the actor's shards shared a
     * sequence number, the store is valid wherever this stopped, and as long as every file could
     * be read nothing stored was lost at any point.
     */
    method CompactActorShards(actor: Aid, skipBigShards: bool)
      returns (stats: Option<CompactionStats>, ghost steps: seq<Step>, ghost clean: bool,
               ghost refs: seq<Ref>, ghost queue: seq<seq<ShardStat>>, ghost considered: set<nat>)
      requires Valid()
      modifies this`disk
      ensures disk == ApplyAll(old(disk), steps)
      ensures stats.None? || !clean ==> env.faulty
      ensures SeqUniqueFor(old(disk), actor) ==> Valid() && SafeSteps(env, old(disk), steps) && OnlyOld(env, old(disk), disk)
      ensures SeqUniqueFor(old(disk), actor) && clean ==> Quiet(old(disk), steps)
      ensures SeqUniqueFor(old(disk), actor) && stats.Some? ==> Running(env, old(disk), disk, actor, steps, MergedIds(queue))
      ensures stats.Some? ==> Queued(old(disk), actor, refs, queue) && AllQueued(old(disk), considered, queue)
      ensures stats.Some? ==> Considered(old(disk), actor, skipBigShards, considered)
      ensures stats.Some? ==> stats.value.skippedShards + stats.value.shardsDeleted == |Flatten(queue)|
      ensures stats.Some? ==> stats.value.shardsDeleted == |MergedIds(queue)| && stats.value.newShards == MergedCount(queue)
      ensures SeqUniqueFor(old(disk), actor) && stats.Some? ==>
                |disk.shards| + stats.value.shardsDeleted == |old(disk).shards| + stats.value.newShards
      ensures stats.Some? ==> stats.value.totalRefs == |refs| && stats.value.startShards == |considered|
    {
      hide Durable, CacheOk, ApplyAll, Listed, SeqUniqueFor, SafeSteps, Quiet, Running, CompactPlan, Queued,
           AllQueued, Flatten, MergedIds, StatIds, ShouldCompact, MergeAll, ReadLists, BlockLists, Ids, RowsWithin,
           RowMap, ShardsOf, OnlyOld;
      ghost var d0, u := disk, SeqUniqueFor(disk, actor);
      stats, steps, clean, refs, queue, considered := None, [], true, [], [], {};
      NotRunning(env, d0, actor);
      var q, startShards, byId, brefs := FormBuckets(actor, skipBigShards);
      if q.None? { return; }
      refs, queue := brefs, q.value;
      considered := byId.Keys;
      var newShards: nat, skipped: nat, deleted: nat := 0, 0, 0;
      ghost var removed: set<nat> := {};
      assert queue[..0] == [];
      NoneMerged();
      for k := 0 to |q.value|
        invariant u ==> Valid()
        invariant !clean ==> env.faulty
        invariant disk == ApplyAll(d0, steps) && removed == MergedIds(queue[..k])
        invariant u ==> |disk.shards| + deleted == |d0.shards| + newShards
        invariant u ==> Running(env, d0, disk, actor, steps, removed) && (clean ==> Quiet(d0, steps))
        invariant skipped + deleted == |Flatten(queue[..k])| && deleted == |removed| && newShards == MergedCount(queue[..k])
      {
        var b := q.value[k];
        QueueBucket(d0, actor, byId, brefs, queue, k);
        var compact := ShouldCompact(b);
        if !compact {
          skipped := skipped + |b|;
        } else {
          BucketListed(d0, actor, byId, b);
          var todelete := ShardsOf(byId, b);
          ghost var d := disk;
          var merged, gone, t, lists, whole, n := MergeAndDelete(actor, todelete);
          clean := clean && whole;
          if merged {
            newShards := newShards + 1;
            deleted := deleted + |todelete|;
          }
          ghost var more := CompactPlan(env, actor, t, todelete, MergeAll(lists))[..n];
          ApplyConcat(d0, steps, more);
          if u && gone {
            assert more == CompactPlan(env, actor, t, todelete, MergeAll(lists));
            OneRowEach(env, d0, d, actor, steps, removed, t, todelete, MergeAll(lists));
          }
          if u {
            BucketDone(env, d0, d, actor, steps, removed, t, todelete, lists, n);
            CacheAfter(d0, disk, actor, brefs, queue, k + 1, cache);
            RunMeansSafe(env, d0, d, actor, steps, removed);
          }
          steps := steps + more;
          if !gone { return; }
          removed := removed + StatIds(b);
        }
      }
      assert queue[..|queue|] == queue;
      stats := Some(CompactionStats(|brefs|, startShards, newShards, skipped, deleted));
      if u { RunMeansSafe(env, d0, disk, actor, steps, removed); }
    }
  }

  const BIG_SHARD := 2 * 0x10_0000

  /**
   * All shards of the actor; or all but those over the threshold that come before every other, so
   * that the first one left is not over it.
   */
  ghost predicate Considered(d: Disk, aid: Aid, skipBigShards: bool, ids: set<nat>) {
    && ids <= RowIds(d, aid) && (!skipBigShards ==> ids == RowIds(d, aid))
    && (forall id :: id in RowIds(d, aid) && id !in ids ==> Big(d, d.shards[id]))
    && (forall i, j :: i in RowIds(d, aid) && i !in ids && j in ids ==> d.shards[i].seqno <= d.shards[j].seqno)
    && (skipBigShards && ids != {} ==> exists i :: FirstLeft(d, ids, i))
  }

  ghost predicate FirstLeft(d: Disk, ids: set<nat>, i: nat) {
    && i in ids && i in d.shards && !Big(d, d.shards[i])
    && forall j :: j in ids && j in d.shards ==> d.shards[i].seqno <= d.shards[j].seqno
  }

  /** rest is what is left of the list when its leading big shards, and no others, are left out. */
  ghost predicate BigSkipped(d: Disk, shs: seq<Shard>, rest: seq<Shard>) {
    var k := |shs| - |rest|;
    0 <= k && rest == shs[k..] && (forall i :: 0 <= i < k ==> Big(d, shs[i])) && (k < |shs| ==> !Big(d, shs[k]))
  }

  lemma SkippedBig(d: Disk, aid: Aid, shs: seq<Shard>, rest: seq<Shard>)
    requires Listed(d, aid, shs) && Ids(shs) == RowIds(d, aid) && Ascending(shs) && BigSkipped(d, shs, rest)
    ensures Listed(d, aid, rest) && Considered(d, aid, true, Ids(rest)) && |Ids(rest)| == |rest|
  {
    hide Listed, Ids, RowIds, Ascending, Considered, Big;
    SuffixListed(d, aid, shs, |shs| - |rest|);
    SuffixConsidered(d, aid, shs, |shs| - |rest|);
    IdsSize(d, aid, rest);
  }

  lemma SuffixConsidered(d: Disk, aid: Aid, shs: seq<Shard>, k: nat)
    requires Listed(d, aid, shs) && Ids(shs) == RowIds(d, aid) && Ascending(shs)
    requires k <= |shs| && (forall i :: 0 <= i < k ==> Big(d, shs[i])) && (k < |shs| ==> !Big(d, shs[k]))
    ensures Considered(d, aid, true, Ids(shs[k..]))
  {
    SuffixListed(d, aid, shs, k);
    hide Big;
    forall id | id in RowIds(d, aid) && id !in Ids(shs[k..]) ensures Big(d, d.shards[id]) {
      var i := SkippedAt(shs, k, id);
    }
    forall i, j | i in RowIds(d, aid) && i !in Ids(shs[k..]) && j in Ids(shs[k..]) ensures d.shards[i].seqno <= d.shards[j].seqno {
      var a := SkippedAt(shs, k, i);
      var b := LeftAt(shs, k, j);
    }
    if k < |shs| {
      assert shs[k..][0] == shs[k];
      forall j | j in Ids(shs[k..]) && j in d.shards ensures d.shards[shs[k].id].seqno <= d.shards[j].seqno {
        var b := LeftAt(shs, k, j);
      }
      assert FirstLeft(d, Ids(shs[k..]), shs[k].id);
    } else {
      assert shs[k..] == [];
    }
  }

  lemma SkippedAt(shs: seq<Shard>, k: nat, id: nat) returns (i: nat)
    requires k <= |shs| && id in Ids(shs) && id !in Ids(shs[k..])
    ensures i < k && shs[i].id == id
  {
    assert forall j :: k <= j < |shs| ==> shs[k..][j - k] == shs[j];
    i :| 0 <= i < |shs| && shs[i].id == id;
  }

  lemma LeftAt(shs: seq<Shard>, k: nat, id: nat) returns (i: nat)
    requires k <= |shs| && id in Ids(shs[k..])
    ensures k <= i < |shs| && shs[i].id == id
  {
    var j :| 0 <= j < |shs[k..]| && shs[k..][j].id == id;
    i := k + j;
  }

  lemma AllConsidered(d: Disk, aid: Aid)
    ensures Considered(d, aid, false, RowIds(d, aid))
  {
  }

  predicate Big(d: Disk, sh: Shard) {
    sh.path in d.files && |d.files[sh.path]| > BIG_SHARD
  }

  datatype CompactionStats = CompactionStats(totalRefs: nat, startShards: nat, newShards: nat, skippedShards: nat, shardsDeleted: nat)

  method FreshName(taken: set<Path>) returns (t: nat)
    ensures Temp(t) !in taken
  {
    t := 0;
    var todo := taken;
    while todo != {}
      invariant todo <= taken && forall k: nat :: k >= t && Temp(k) in taken ==> Temp(k) in todo
      decreases todo
    {
      var p :| p in todo;
      if p.Temp? && p.n >= t { t := p.n + 1; }
      todo := todo - {p};
    }
  }
}
