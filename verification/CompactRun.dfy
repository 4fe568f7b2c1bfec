/**
 * A whole compaction of one actor, bucket after bucket (CompactActorShards of
 * user_service/internal/car/store.go): what holds between two buckets and wherever it stops.
 */
module CompactRun {
  import opened Prelude
  import opened Cids
  import opened CarFile
  import opened Disk
  import opened Writes
  import opened Compaction
  import opened Buckets
  import opened Heads

  /** The shards of the buckets that are merged. */
  function MergedIds(queue: seq<seq<ShardStat>>): set<nat> {
    if queue == [] then {}
    else MergedIds(queue[..|queue| - 1]) + if |queue[|queue| - 1]| > 5 then StatIds(queue[|queue| - 1]) else {}
  }

  function ShardsOf(byId: map<nat, Shard>, b: seq<ShardStat>): seq<Shard>
    requires forall i :: 0 <= i < |b| ==> b[i].id in byId
  {
    seq(|b|, i requires 0 <= i < |b| => byId[b[i].id])
  }

  /** Between two buckets: steps were taken from d0, and the rows in removed are gone. */
  ghost predicate Running(env: Env, d0: Disk, d: Disk, aid: Aid, steps: seq<Step>, removed: set<nat>) {
    && d == ApplyAll(d0, steps) && SafeSteps(env, d0, steps)
    && Durable(env, d) && SeqUniqueFor(d, aid) && RowsWithin(d0, d, aid, removed) && OnlyOld(env, d0, d)
    && forall id :: id in removed ==> id in d0.shards && d0.shards[id].aid == aid && id !in d.shards
  }

  /** One more bucket, which stopped after n steps. */
  lemma BucketDone(env: Env, d0: Disk, d: Disk, aid: Aid, steps: seq<Step>, removed: set<nat>,
                   t: nat, bucket: seq<Shard>, lists: seq<seq<Block>>, n: nat)
    requires Durable(env, d0) && env.Valid() && Running(env, d0, d, aid, steps, removed)
    requires bucket != [] && Listed(d0, aid, bucket) && Newest(bucket).root.Some? && Ids(bucket) !! removed
    requires Temp(t) !in d.files && ReadLists(env, d, bucket, lists)
    requires n <= |CompactPlan(env, aid, t, bucket, MergeAll(lists))|
    ensures var plan := CompactPlan(env, aid, t, bucket, MergeAll(lists));
            var d' := ApplyAll(d, plan[..n]);
            && d' == ApplyAll(d0, steps + plan[..n]) && SafeSteps(env, d0, steps + plan[..n]) && Durable(env, d')
            && RowsWithin(d0, d', aid, removed + Ids(bucket)) && OnlyOld(env, d0, d')
            && (n == |plan| ==> Running(env, d0, d', aid, steps + plan[..n], removed + Ids(bucket)))
            && (Quiet(d0, steps) && lists == BlockLists(env, d, bucket) ==> Quiet(d0, steps + plan[..n]))
  {
    StillThere(d0, d, aid, bucket, removed);
    hide Durable, CompactPlan, MergeAll, Listed, ApplyAll, ReadLists, BlockLists, Ids, RowsWithin, SafeSteps,
         SeqUniqueFor, Quiet, OnlyOld;
    BucketSummary(env, d, aid, t, bucket, lists, n);
    hide Running;
    Extended(env, d0, d, aid, steps, removed, bucket, CompactPlan(env, aid, t, bucket, MergeAll(lists))[..n]);
  }

  /** A merged bucket leaves one row, with the head and number of its newest shard, in place of all of its own. */
  lemma OneRowEach(env: Env, d0: Disk, d: Disk, aid: Aid, steps: seq<Step>, removed: set<nat>, t: nat, bucket: seq<Shard>, merged: seq<Block>)
    requires Running(env, d0, d, aid, steps, removed) && env.Valid() && Temp(t) !in d.files
    requires bucket != [] && Listed(d0, aid, bucket) && Newest(bucket).root.Some? && Ids(bucket) !! removed
    ensures var d' := ApplyAll(d, CompactPlan(env, aid, t, bucket, merged));
            && MergedRow(d', aid, d.nextId, Newest(bucket)) && d'.shards.Keys == d.shards.Keys - Ids(bucket) + {d.nextId}
            && |d'.shards| + |bucket| == |d.shards| + 1
  {
    hide Durable, ApplyAll, CompactPlan, Listed, SafeSteps, SeqUniqueFor, RowsWithin, OnlyOld, Ids, MergedRow;
    StillThere(d0, d, aid, bucket, removed);
    MergedRows(env, d, aid, t, bucket, merged);
    BucketSize(env, d, aid, bucket);
    var d' := ApplyAll(d, CompactPlan(env, aid, t, bucket, merged));
    assert |d.shards.Keys - Ids(bucket)| == |d.shards.Keys| - |Ids(bucket)|;
    assert |d'.shards.Keys| == |d'.shards| && |d.shards.Keys| == |d.shards|;
  }

  /** The row has the number, the revision and the root of another. */
  predicate MergedRow(d: Disk, aid: Aid, id: nat, last: Shard) {
    && id in d.shards && d.shards[id].seqno == last.seqno && d.shards[id].rev == last.rev
    && d.shards[id].root == last.root && d.shards[id].aid == aid
  }

  lemma BucketSize(env: Env, d: Disk, aid: Aid, bucket: seq<Shard>)
    requires Durable(env, d) && Listed(d, aid, bucket)
    ensures |Ids(bucket)| == |bucket| && Ids(bucket) <= d.shards.Keys && d.nextId !in d.shards
  {
    IdsSize(d, aid, bucket);
    ListedIds(d, aid, bucket);
    NextIdUnused(env, d);
  }

  lemma MergedRows(env: Env, d: Disk, aid: Aid, t: nat, bucket: seq<Shard>, merged: seq<Block>)
    requires Compactable(env, d, aid, t, bucket)
    ensures var d' := ApplyAll(d, CompactPlan(env, aid, t, bucket, merged));
            MergedRow(d', aid, d.nextId, Newest(bucket)) && d'.shards.Keys == d.shards.Keys - Ids(bucket) + {d.nextId}
  {
    var plan := CompactPlan(env, aid, t, bucket, merged);
    hide Durable, Marks, DeletePlan, ApplyAll, StoredBy, CidsIn, RefsFor, CompactPlan, Listed, FileHeader, Written, Ids, NoKeyTwin;
    PlanLength(env, aid, t, bucket, merged);
    PlanPrefix(env, d, aid, t, bucket, merged, |plan|);
    assert plan[..|plan|] == plan;
    WrittenIs(env, d, aid, t, bucket, merged);
    assert DeletePlan(aid, bucket)[..|DeletePlan(aid, bucket)|] == DeletePlan(aid, bucket);
    DeleteEffect(env, Written(env, d, aid, t, bucket, merged), aid, bucket);
  }

  lemma Extended(env: Env, d0: Disk, d: Disk, aid: Aid, steps: seq<Step>, removed: set<nat>, bucket: seq<Shard>, more: seq<Step>)
    requires Durable(env, d0) && Listed(d0, aid, bucket) && Ids(bucket) !! removed && Running(env, d0, d, aid, steps, removed)
    requires SafeSteps(env, d, more) && Durable(env, ApplyAll(d, more)) && RowsWithin(d, ApplyAll(d, more), aid, Ids(bucket))
    requires OnlyOld(env, d, ApplyAll(d, more))
    ensures var d' := ApplyAll(d, more);
            && d' == ApplyAll(d0, steps + more) && SafeSteps(env, d0, steps + more)
            && RowsWithin(d0, d', aid, removed + Ids(bucket)) && OnlyOld(env, d0, d')
            && (SeqUniqueFor(d', aid) && (forall id :: id in Ids(bucket) ==> id !in d'.shards) ==>
                  Running(env, d0, d', aid, steps + more, removed + Ids(bucket)))
            && (Quiet(d0, steps) && Quiet(d, more) ==> Quiet(d0, steps + more))
  {
    hide Durable, Listed, ApplyAll, Ids, RowsWithin, SafeSteps, SeqUniqueFor, Quiet, OnlyOld;
    OnlyOldTrans(env, d0, d, ApplyAll(d, more));
    ApplyConcat(d0, steps, more);
    SafeConcat(env, d0, steps, more);
    RemovedMore(env, d0, d, ApplyAll(d, more), aid, removed, bucket);
    if Quiet(d0, steps) && Quiet(d, more) { QuietConcat(d0, steps, more); }
  }

  lemma OnlyOldTrans(env: Env, d0: Disk, d1: Disk, d2: Disk)
    requires OnlyOld(env, d0, d1) && OnlyOld(env, d1, d2)
    ensures OnlyOld(env, d0, d2)
  {
    hide Held;
  }

  lemma RemovedMore(env: Env, d0: Disk, d: Disk, d': Disk, aid: Aid, removed: set<nat>, bucket: seq<Shard>)
    requires Durable(env, d0) && Listed(d0, aid, bucket) && Ids(bucket) !! removed
    requires RowsWithin(d0, d, aid, removed) && RowsWithin(d, d', aid, Ids(bucket))
    requires forall id :: id in removed ==> id in d0.shards && d0.shards[id].aid == aid && id !in d.shards
    ensures RowsWithin(d0, d', aid, removed + Ids(bucket))
    ensures (forall id :: id in Ids(bucket) ==> id !in d'.shards) ==>
              forall id :: id in removed + Ids(bucket) ==> id in d0.shards && d0.shards[id].aid == aid && id !in d'.shards
  {
    ListedIds(d0, aid, bucket);
    DurableIds(env, d0);
    hide Durable, Listed, Ids;
    assert d0.nextId <= d.nextId;
    RowsWithinTrans(d0, d, d', aid, removed, Ids(bucket));
    if forall id :: id in Ids(bucket) ==> id !in d'.shards {
      GoneStays(d0, d, d', aid, removed, Ids(bucket));
    }
  }

  lemma ListedIds(d: Disk, aid: Aid, bucket: seq<Shard>)
    requires Listed(d, aid, bucket)
    ensures forall id :: id in Ids(bucket) ==> id in d.shards && d.shards[id].aid == aid
  {
  }

  lemma DurableIds(env: Env, d: Disk)
    requires Durable(env, d)
    ensures forall id :: id in d.shards ==> id < d.nextId
  {
    hide IsShardFile, RefsOfFile, RefsOf;
    forall id | id in d.shards ensures id < d.nextId { assert RowOk(env, d, id); }
  }

  lemma StillThere(d0: Disk, d: Disk, aid: Aid, bucket: seq<Shard>, removed: set<nat>)
    requires RowsWithin(d0, d, aid, removed) && Listed(d0, aid, bucket) && Ids(bucket) !! removed
    ensures Listed(d, aid, bucket)
  {
    hide Replaces;
    forall i | 0 <= i < |bucket| ensures bucket[i].id in d.shards && d.shards[bucket[i].id] == bucket[i] {
      assert bucket[i].id in Ids(bucket);
    }
  }

  lemma GoneStays(d0: Disk, d: Disk, d': Disk, aid: Aid, r1: set<nat>, r2: set<nat>)
    requires RowsWithin(d, d', aid, r2) && d0.nextId <= d.nextId
    requires forall id :: id in r1 ==> id in d0.shards && id !in d.shards
    requires forall id :: id in d0.shards ==> id < d0.nextId
    requires forall id :: id in r2 ==> id !in d'.shards
    ensures forall id :: id in r1 + r2 ==> id !in d'.shards
  {
    hide Replaces;
  }

  /** The cache stays right when the cached row of the actor was not removed. */
  lemma CacheKept(d0: Disk, d: Disk, aid: Aid, removed: set<nat>, cache: map<Aid, Shard>)
    requires RowsWithin(d0, d, aid, removed) && CacheOk(cache, d0)
    requires forall id :: id in removed ==> id in d0.shards && d0.shards[id].aid == aid
    requires aid in cache && aid != 0 ==> cache[aid].id !in removed
    ensures CacheOk(cache, d)
  {
    forall a | a in cache && a != 0 ensures IsLast(d, a, cache[a]) {
      var sh := cache[a];
      assert IsLast(d0, a, sh);
      forall id | id in d.shards && d.shards[id].aid == a ensures d.shards[id].seqno <= sh.seqno {
        if id !in d0.shards { assert Replaces(d0, removed, aid, d.shards[id]); }
      }
    }
  }

  /** A merged bucket never holds the actor's newest shard. */
  lemma NewestNotMerged(d: Disk, aid: Aid, sh: Shard, queue: seq<seq<ShardStat>>, tot: nat, k: nat)
    requires SeqUniqueFor(d, aid) && IsLast(d, aid, sh)
    requires ClosedBuckets(queue, tot, |Flatten(queue)|) && k < |queue| && |queue[k]| > 5
    requires SeqSorted(Flatten(queue)) && DistinctIds(Flatten(queue))
    requires forall i :: 0 <= i < |Flatten(queue)| ==> StatRow(d, aid, Flatten(queue)[i])
    ensures sh.id !in StatIds(queue[k])
  {
    hide ClosedBuckets, Flatten;
    var all, start, last := Flatten(queue), |Flatten(queue[..k])|, |Flatten(queue)| - 1;
    SplitAt(queue, k);
    NewestAlone(queue, tot);
    LaterNotEmpty(queue, tot, k);
    assert StatRow(d, aid, all[last]);
    forall i | 0 <= i < |queue[k]| ensures queue[k][i].id != sh.id {
      assert all[start + i] == queue[k][i] && StatRow(d, aid, all[start + i]);
      assert all[start + i].seqno <= all[last].seqno <= sh.seqno && all[start + i].id != all[last].id;
    }
  }

  predicate StatRow(d: Disk, aid: Aid, s: ShardStat) {
    s.id in d.shards && d.shards[s.id].aid == aid && d.shards[s.id].seqno == s.seqno
  }

  lemma LaterNotEmpty(queue: seq<seq<ShardStat>>, tot: nat, k: nat)
    requires ClosedBuckets(queue, tot, |Flatten(queue)|) && k + 1 < |queue|
    ensures |Flatten(queue)| > |Flatten(queue[..k])| + |queue[k]|
  {
    assert ClosedBucket(queue[k + 1], tot, k + 1, |Flatten(queue[..k + 1])|, |Flatten(queue)|);
    hide ClosedBuckets, Flatten, Full;
    SplitAt(queue, k + 1);
    PrefixGrows(queue, k);
  }

  lemma PrefixGrows(queue: seq<seq<ShardStat>>, k: nat)
    requires k < |queue|
    ensures |Flatten(queue[..k + 1])| == |Flatten(queue[..k])| + |queue[k]|
  {
    assert queue[..k + 1][..k] == queue[..k];
  }

  /** Buckets of one queue share no shard. */
  lemma BucketsApart(queue: seq<seq<ShardStat>>, k: nat)
    requires DistinctIds(Flatten(queue)) && k < |queue|
    ensures MergedIds(queue[..k]) <= StatIds(Flatten(queue[..k])) <= StatIds(Flatten(queue))
    ensures StatIds(queue[k]) !! MergedIds(queue[..k]) && StatIds(queue[k]) <= StatIds(Flatten(queue)) && DistinctIds(queue[k])
    ensures forall i :: 0 <= i < |queue[k]| ==> queue[k][i] in Flatten(queue)
    ensures MergedIds(queue[..k + 1]) == MergedIds(queue[..k]) + if |queue[k]| > 5 then StatIds(queue[k]) else {}
  {
    SplitAt(queue, k);
    MergedWithin(queue[..k]);
    assert queue[..k + 1][..k] == queue[..k];
    var all, start := Flatten(queue), |Flatten(queue[..k])|;
    hide Flatten, MergedIds;
    assert forall i :: 0 <= i < |queue[k]| ==> all[start + i] == queue[k][i];
    assert forall i :: 0 <= i < start ==> all[i] == Flatten(queue[..k])[i];
    forall id | id in StatIds(Flatten(queue[..k])) ensures id !in StatIds(queue[k]) {
      var j :| 0 <= j < start && Flatten(queue[..k])[j].id == id;
      forall i | 0 <= i < |queue[k]| ensures queue[k][i].id != id {
        assert all[j].id != all[start + i].id;
      }
    }
    forall i, j | 0 <= i < j < |queue[k]| ensures queue[k][i].id != queue[k][j].id {
      assert all[start + i].id != all[start + j].id;
    }
    forall id | id in StatIds(queue[k]) ensures id in StatIds(all) {
      var i :| 0 <= i < |queue[k]| && queue[k][i].id == id;
      assert all[start + i].id == id;
    }
    forall id | id in StatIds(Flatten(queue[..k])) ensures id in StatIds(all) {
      var j :| 0 <= j < start && Flatten(queue[..k])[j].id == id;
      assert all[j].id == id;
    }
  }

  lemma {:induction false} MergedWithin(queue: seq<seq<ShardStat>>)
    ensures MergedIds(queue) <= StatIds(Flatten(queue))
  {
    if queue != [] {
      var n := |queue| - 1;
      MergedWithin(queue[..n]);
      StatIdsConcat(Flatten(queue[..n]), queue[n]);
    }
  }

  lemma StatIdsConcat(a: seq<ShardStat>, b: seq<ShardStat>)
    ensures StatIds(a) <= StatIds(a + b) && StatIds(b) <= StatIds(a + b)
  {
    var c := a + b;
    forall id | id in StatIds(a) ensures id in StatIds(c) {
      var i :| 0 <= i < |a| && a[i].id == id;
      assert c[i].id == id;
    }
    forall id | id in StatIds(b) ensures id in StatIds(c) {
      var i :| 0 <= i < |b| && b[i].id == id;
      assert c[|a| + i].id == id;
    }
  }

  /** The shards of a bucket, as rows. */
  lemma BucketListed(d0: Disk, aid: Aid, byId: map<nat, Shard>, b: seq<ShardStat>)
    requires DistinctIds(b) && RowMap(d0, aid, byId) && b != [] && forall i :: 0 <= i < |b| ==> b[i].id in byId
    ensures var bucket := ShardsOf(byId, b);
            && Listed(d0, aid, bucket) && Ids(bucket) == StatIds(b)
            && |bucket| == |b| && Newest(bucket).root.Some?
  {
    var shs := ShardsOf(byId, b);
    forall id ensures id in Ids(shs) <==> id in StatIds(b) {
      if id in Ids(shs) { var i :| 0 <= i < |shs| && shs[i].id == id; assert b[i].id == id; }
      if id in StatIds(b) { var i :| 0 <= i < |b| && b[i].id == id; assert shs[i].id == id; }
    }
  }

  // ----- the queue -----

  ghost predicate RowStat(d: Disk, aid: Aid, refs: seq<Ref>, s: ShardStat) {
    StatRow(d, aid, s) && s.dirty == 0 && s.total == Count(refs, s.id) > 0
  }

  /** The queue holds, in order and once each, the actor's shards the listed refs belong to. */
  ghost predicate Queued(d: Disk, aid: Aid, refs: seq<Ref>, queue: seq<seq<ShardStat>>) {
    && NoDup(refs) && (forall i :: 0 <= i < |refs| ==> refs[i] in d.refs)
    && ClosedBuckets(queue, |refs|, |Flatten(queue)|)
    && SeqSorted(Flatten(queue)) && DistinctIds(Flatten(queue)) && StatIds(Flatten(queue)) == ShardsIn(refs)
    && forall i :: 0 <= i < |Flatten(queue)| ==> RowStat(d, aid, refs, Flatten(queue)[i])
  }

  /** The shard whose head and number the merged one gets is the newest of its bucket. */
  lemma BucketNewest(d: Disk, aid: Aid, byId: map<nat, Shard>, refs: seq<Ref>, queue: seq<seq<ShardStat>>, k: nat)
    requires Queued(d, aid, refs, queue) && RowMap(d, aid, byId)
    requires k < |queue| && queue[k] != [] && forall i :: 0 <= i < |queue[k]| ==> queue[k][i].id in byId
    ensures var bucket := ShardsOf(byId, queue[k]);
            forall i :: 0 <= i < |bucket| ==> bucket[i].seqno <= Newest(bucket).seqno
  {
    hide Flatten, ClosedBuckets, Count, ShardsIn, StatIds;
    SplitAt(queue, k);
    var b, all := queue[k], Flatten(queue);
    var at := |Flatten(queue[..k])|;
    assert forall i :: 0 <= i < |b| ==> b[i] == all[at + i];
    assert forall i :: 0 <= i < |b| ==> RowStat(d, aid, refs, b[i]);
  }

  /** Of the shards considered, exactly those with blocks are queued. */
  ghost predicate AllQueued(d: Disk, considered: set<nat>, queue: seq<seq<ShardStat>>) {
    forall id :: id in StatIds(Flatten(queue)) <==> id in considered && RefsOf(d, id) != {}
  }

  function MergedCount(queue: seq<seq<ShardStat>>): nat {
    if queue == [] then 0 else MergedCount(queue[..|queue| - 1]) + if |queue[|queue| - 1]| > 5 then 1 else 0
  }

  ghost predicate RowMap(d: Disk, aid: Aid, byId: map<nat, Shard>) {
    forall id :: id in byId ==> id in d.shards && d.shards[id] == byId[id] && byId[id].aid == aid && byId[id].id == id && byId[id].root.Some?
  }

  method ById(ghost d: Disk, ghost aid: Aid, shs: seq<Shard>) returns (byId: map<nat, Shard>)
    requires Listed(d, aid, shs) && forall id :: id in d.shards ==> d.shards[id].root.Some?
    ensures RowMap(d, aid, byId) && byId.Keys == Ids(shs)
  {
    byId := map[];
    for i := 0 to |shs|
      invariant RowMap(d, aid, byId) && byId.Keys == Ids(shs[..i])
    {
      assert shs[..i + 1] == shs[..i] + [shs[i]];
      IdsConcat(shs[..i], [shs[i]]);
      assert Ids([shs[i]]) == {shs[i].id} by { assert [shs[i]][0] == shs[i]; }
      byId := byId[shs[i].id := shs[i]];
    }
    assert shs[..|shs|] == shs;
  }

  /** GetBlockRefsForShards, one query for each 2000 shards. */
  method RefsOfShards(d: Disk, ids: seq<nat>) returns (refs: seq<Ref>)
    requires NoDup(ids)
    ensures NoDup(refs) && ToSet(refs) == RefsIn(d, ToSet(ids))
  {
    refs := [];
    var i := 0;
    while i < |ids|
      invariant i <= |ids| && NoDup(refs) && ToSet(refs) == set r | r in d.refs && r.shard in ids[..i]
    {
      var sl := ids[i..];
      if |sl| > CHUNK { sl := sl[..CHUNK]; }
      var more := ListRefs(set r | r in d.refs && r.shard in sl);
      assert ids[..i + |sl|] == ids[..i] + sl;
      forall r | r in ToSet(more) ensures r !in refs {
        var k :| 0 <= k < |sl| && sl[k] == r.shard;
        assert ids[i + k] == r.shard;
        assert r.shard !in ids[..i];
        assert r !in ToSet(refs);
      }
      Appended(refs, more);
      refs := refs + more;
      i := i + |sl|;
    }
    assert ids[..i] == ids;
    assert (set r | r in d.refs && r.shard in ids) == RefsIn(d, ToSet(ids));
  }

  lemma Appended<T>(a: seq<T>, b: seq<T>)
    requires NoDup(a) && NoDup(b) && forall x :: x in ToSet(b) ==> x !in a
    ensures NoDup(a + b) && ToSet(a + b) == ToSet(a) + ToSet(b)
  {
    forall i, j | 0 <= i < j < |a + b| ensures (a + b)[i] != (a + b)[j] {
      if i < |a| <= j { assert b[j - |a|] in ToSet(b); }
    }
  }

  method ListRefs(rows: set<Ref>) returns (refs: seq<Ref>)
    ensures NoDup(refs) && ToSet(refs) == rows
  {
    refs := [];
    var todo := rows;
    while todo != {}
      invariant todo <= rows && NoDup(refs) && ToSet(refs) == rows - todo
      decreases todo
    {
      var r :| r in todo;
      Appended(refs, [r]);
      refs := refs + [r];
      todo := todo - {r};
    }
  }

  lemma SuffixListed(d: Disk, aid: Aid, shs: seq<Shard>, k: nat)
    requires Listed(d, aid, shs) && k <= |shs|
    ensures Listed(d, aid, shs[k..]) && Ids(shs) == Ids(shs[..k]) + Ids(shs[k..])
  {
    assert shs == shs[..k] + shs[k..];
    IdsConcat(shs[..k], shs[k..]);
  }

  method ShardIds(ghost d: Disk, ghost aid: Aid, shs: seq<Shard>) returns (ids: seq<nat>)
    requires Listed(d, aid, shs)
    ensures NoDup(ids) && ToSet(ids) == Ids(shs)
  {
    ids := [];
    for i := 0 to |shs|
      invariant |ids| == i && forall j :: 0 <= j < i ==> ids[j] == shs[j].id
    {
      ids := ids + [shs[i].id];
    }
    forall id ensures id in ToSet(ids) <==> id in Ids(shs) {
      if id in Ids(shs) { var i :| 0 <= i < |shs| && shs[i].id == id; assert ids[i] == id; }
    }
  }

  function RefsIn(d: Disk, ids: set<nat>): set<Ref> {
    set r | r in d.refs && r.shard in ids
  }

  lemma RefsKnown(d: Disk, ids: seq<nat>, byId: map<nat, Shard>, refs: seq<Ref>)
    requires ToSet(ids) == byId.Keys && ToSet(refs) == RefsIn(d, ToSet(ids))
    ensures ToSet(refs) == RefsIn(d, byId.Keys) && forall i :: 0 <= i < |refs| ==> refs[i].shard in byId
  {
    assert forall i :: 0 <= i < |refs| ==> refs[i] in ToSet(refs);
  }

  lemma QueueMade(d: Disk, aid: Aid, byId: map<nat, Shard>, refs: seq<Ref>, results: seq<ShardStat>, queue: seq<seq<ShardStat>>)
    requires RowMap(d, aid, byId) && NoDup(refs) && ToSet(refs) == RefsIn(d, byId.Keys)
    requires SeqSorted(results) && DistinctIds(results) && StatIds(results) == ShardsIn(refs)
    requires forall i :: 0 <= i < |results| ==> StatOf(refs, byId, results[i])
    requires Flatten(queue) == results && ClosedBuckets(queue, |refs|, |results|)
    ensures Queued(d, aid, refs, queue)
    ensures forall i :: 0 <= i < |results| ==> results[i].id in byId
    ensures AllQueued(d, byId.Keys, queue)
  {
    hide Count, Flatten, ClosedBuckets, SeqSorted, DistinctIds, StatIds;
    forall i | 0 <= i < |refs| ensures refs[i] in d.refs { assert refs[i] in ToSet(refs); }
    forall i | 0 <= i < |results| ensures RowStat(d, aid, refs, results[i]) { assert StatOf(refs, byId, results[i]); }
    forall id ensures id in ShardsIn(refs) <==> id in byId && RefsOf(d, id) != {} {
      if id in ShardsIn(refs) {
        var i :| 0 <= i < |refs| && refs[i].shard == id;
        assert refs[i] in ToSet(refs);
        assert refs[i] in RefsOf(d, id);
      }
      if id in byId && RefsOf(d, id) != {} {
        var r :| r in RefsOf(d, id);
        assert r in ToSet(refs);
        var i :| 0 <= i < |refs| && refs[i] == r;
      }
    }
  }

  lemma {:induction false} IdsSize(d: Disk, aid: Aid, shs: seq<Shard>)
    requires Listed(d, aid, shs)
    ensures |Ids(shs)| == |shs|
  {
    if shs == [] {
      assert Ids(shs) == {};
    } else {
      var n := |shs| - 1;
      assert shs == shs[..n] + [shs[n]];
      IdsSize(d, aid, shs[..n]);
      IdsConcat(shs[..n], [shs[n]]);
      assert Ids([shs[n]]) == {shs[n].id} by { assert [shs[n]][0] == shs[n]; }
      assert shs[n].id !in Ids(shs[..n]);
    }
  }

  lemma {:induction false} StatIdsSize(b: seq<ShardStat>)
    requires DistinctIds(b)
    ensures |StatIds(b)| == |b|
  {
    if b == [] {
      assert StatIds(b) == {};
    } else {
      var n := |b| - 1;
      StatIdsSize(b[..n]);
      forall id ensures id in StatIds(b) <==> id in StatIds(b[..n]) + {b[n].id} {
        if id in StatIds(b) {
          var i :| 0 <= i < |b| && b[i].id == id;
          assert i < n ==> b[..n][i].id == id;
        }
        if id in StatIds(b[..n]) { var i :| 0 <= i < n && b[..n][i].id == id; assert b[i].id == id; }
      }
      assert StatIds(b) == StatIds(b[..n]) + {b[n].id};
    }
  }

  lemma NoneMerged()
    ensures MergedIds([]) == {} && Flatten([]) == [] && MergedCount([]) == 0
  {
  }

  /** The next bucket: whether it is merged, and what it adds. */
  lemma QueueBucket(d: Disk, aid: Aid, byId: map<nat, Shard>, refs: seq<Ref>, queue: seq<seq<ShardStat>>, k: nat)
    requires Queued(d, aid, refs, queue) && k < |queue| && StatIds(Flatten(queue)) <= byId.Keys
    ensures queue[k] != [] && forall i :: 0 <= i < |queue[k]| ==> queue[k][i].id in byId && queue[k][i].total > 0
    ensures ShouldCompact(queue[k]) <==> |queue[k]| > 5
    ensures DistinctIds(queue[k]) && StatIds(queue[k]) !! MergedIds(queue[..k])
    ensures |Flatten(queue[..k + 1])| == |Flatten(queue[..k])| + |queue[k]|
    ensures MergedIds(queue[..k + 1]) == MergedIds(queue[..k]) + if |queue[k]| > 5 then StatIds(queue[k]) else {}
    ensures |MergedIds(queue[..k + 1])| == |MergedIds(queue[..k])| + if |queue[k]| > 5 then |queue[k]| else 0
    ensures MergedCount(queue[..k + 1]) == MergedCount(queue[..k]) + if |queue[k]| > 5 then 1 else 0
  {
    hide Count, SeqSorted, StatIds, MergedIds, StatRow, ShardsIn, Flatten, FracSum, ShouldCompact;
    BucketsApart(queue, k);
    assert queue[..k + 1][..k] == queue[..k];
    StatIdsSize(queue[k]);
    InStatIds(queue[k]);
    PrefixGrows(queue, k);
    assert ClosedBucket(queue[k], |refs|, k, |Flatten(queue[..k])|, |Flatten(queue)|);
    forall i | 0 <= i < |queue[k]| ensures queue[k][i].id in byId && queue[k][i].total > 0 && queue[k][i].dirty == 0 {
      var j :| 0 <= j < |Flatten(queue)| && Flatten(queue)[j] == queue[k][i];
      assert RowStat(d, aid, refs, Flatten(queue)[j]);
    }
    CompactedIff(queue[k]);
  }

  lemma QueueRows(d: Disk, aid: Aid, refs: seq<Ref>, queue: seq<seq<ShardStat>>)
    requires Queued(d, aid, refs, queue)
    ensures forall i :: 0 <= i < |Flatten(queue)| ==> StatRow(d, aid, Flatten(queue)[i])
  {
    hide Flatten, StatRow, Count;
    forall i | 0 <= i < |Flatten(queue)| ensures StatRow(d, aid, Flatten(queue)[i]) {
      assert RowStat(d, aid, refs, Flatten(queue)[i]);
    }
  }

  /** The newest shard is in no merged bucket. */
  lemma {:induction false} NewestNeverMerged(d: Disk, aid: Aid, sh: Shard, refs: seq<Ref>, queue: seq<seq<ShardStat>>, k: nat)
    requires Queued(d, aid, refs, queue) && SeqUniqueFor(d, aid) && IsLast(d, aid, sh) && k <= |queue|
    ensures sh.id !in MergedIds(queue[..k])
  {
    if k > 0 {
      NewestNeverMerged(d, aid, sh, refs, queue, k - 1);
      BucketsApart(queue, k - 1);
      if |queue[k - 1]| > 5 {
        QueueRows(d, aid, refs, queue);
        hide Flatten, StatRow, SeqUniqueFor, IsLast, MergedIds, StatIds, ClosedBuckets, SeqSorted, DistinctIds, RowStat;
        NewestNotMerged(d, aid, sh, queue, |refs|, k - 1);
      }
    }
  }

  lemma MergedAreRows(d: Disk, aid: Aid, refs: seq<Ref>, queue: seq<seq<ShardStat>>, k: nat)
    requires Queued(d, aid, refs, queue) && k <= |queue|
    ensures forall id :: id in MergedIds(queue[..k]) ==> id in d.shards && d.shards[id].aid == aid
  {
    MergedWithin(queue);
    assert queue[..|queue|] == queue;
    forall id | id in MergedIds(queue[..k]) ensures id in d.shards && d.shards[id].aid == aid {
      MergedGrow(queue, k, |queue|);
      hide MergedIds, Flatten, Count;
      var i :| 0 <= i < |Flatten(queue)| && Flatten(queue)[i].id == id;
      assert RowStat(d, aid, refs, Flatten(queue)[i]);
    }
  }

  lemma {:induction false} MergedGrow(queue: seq<seq<ShardStat>>, k: nat, n: nat)
    requires k <= n <= |queue|
    ensures MergedIds(queue[..k]) <= MergedIds(queue[..n])
    decreases n - k
  {
    if k < n {
      assert queue[..n][..n - 1] == queue[..n - 1];
      MergedGrow(queue, k, n - 1);
    }
  }

  /** Whatever part of the first k buckets was merged, the cache is right. */
  lemma CacheAfter(d0: Disk, d: Disk, aid: Aid, refs: seq<Ref>, queue: seq<seq<ShardStat>>, k: nat, cache: map<Aid, Shard>)
    requires Queued(d0, aid, refs, queue) && SeqUniqueFor(d0, aid) && k <= |queue| && CacheOk(cache, d0)
    requires RowsWithin(d0, d, aid, MergedIds(queue[..k]))
    ensures CacheOk(cache, d)
  {
    MergedAreRows(d0, aid, refs, queue, k);
    if aid in cache && aid != 0 { NewestNeverMerged(d0, aid, cache[aid], refs, queue, k); }
    CacheKept(d0, d, aid, MergedIds(queue[..k]), cache);
  }

  lemma NotRunning(env: Env, d: Disk, aid: Aid)
    requires Durable(env, d)
    ensures d == ApplyAll(d, []) && SafeSteps(env, d, []) && Quiet(d, []) && OnlyOld(env, d, d)
    ensures SeqUniqueFor(d, aid) ==> Running(env, d, d, aid, [], {})
  {
    hide Durable;
  }

  /** The parts of a bucket's plan, as its two methods carry them out. */
  lemma PlanParts(env: Env, d: Disk, aid: Aid, t: nat, bucket: seq<Shard>, merged: seq<Block>, n: nat, m: nat)
    requires bucket != [] && Newest(bucket).root.Some? && n <= 2 && m <= |DeletePlan(aid, bucket)| && (n < 2 ==> m == 0)
    ensures var plan := CompactPlan(env, aid, t, bucket, merged);
            var w := WritePlan(env, Newest(bucket).root.value, Newest(bucket).rev, aid, Newest(bucket).seqno, Temp(t), merged);
            && |plan| == 2 + |DeletePlan(aid, bucket)| && n + m <= |plan|
            && ApplyAll(d, plan[..n + m]) == ApplyAll(ApplyAll(d, w[..n]), DeletePlan(aid, bucket)[..m])
  {
    hide WritePlan, DeletePlan, ApplyAll;
    var last := Newest(bucket);
    PlanLength(env, aid, t, bucket, merged);
    PlanSteps(env, last.root.value, last.rev, aid, last.seqno, Temp(t), merged);
    SplitPrefix(d, WritePlan(env, last.root.value, last.rev, aid, last.seqno, Temp(t), merged), DeletePlan(aid, bucket), n, m);
  }

  lemma SplitPrefix(d: Disk, w: seq<Step>, p: seq<Step>, n: nat, m: nat)
    requires n <= |w| && m <= |p| && (n < |w| ==> m == 0)
    ensures ApplyAll(d, (w + p)[..n + m]) == ApplyAll(ApplyAll(d, w[..n]), p[..m])
  {
    hide ApplyAll;
    assert (w + p)[..n + m] == w[..n] + p[..m];
    ApplyConcat(d, w[..n], p[..m]);
  }

  lemma RunMeansSafe(env: Env, d0: Disk, d: Disk, aid: Aid, steps: seq<Step>, removed: set<nat>)
    requires Running(env, d0, d, aid, steps, removed)
    ensures d == ApplyAll(d0, steps) && SafeSteps(env, d0, steps) && Durable(env, d) && OnlyOld(env, d0, d)
  {
    hide ApplyAll, SafeSteps, Durable, SeqUniqueFor, RowsWithin, OnlyOld;
  }

  lemma InStatIds(b: seq<ShardStat>)
    ensures forall i :: 0 <= i < |b| ==> b[i].id in StatIds(b)
  {
  }

  lemma IdsKnown(stats: seq<ShardStat>, byId: map<nat, Shard>)
    requires forall i :: 0 <= i < |stats| ==> stats[i].id in byId
    ensures StatIds(stats) <= byId.Keys
  {
  }
}
