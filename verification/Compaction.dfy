/**
 * Merging the shards of one bucket (compactBucket and the deletion after it, in
 * user_service/internal/car/store.go): what the merged file holds, what every stop on the way
 * leaves readable, and what a stop in the middle does to later deletions.
 */
module Compaction {
  import opened Prelude
  import opened Cids
  import opened CarFile
  import opened Disk
  import opened Writes

  // ----- the merged file -----

  /** The blocks already written, followed by those of one more file that are new. */
  function Merge(written: seq<Block>, bs: seq<Block>): seq<Block>
    decreases |bs|
  {
    if bs == [] then written
    else Merge(if bs[0].cid in CidsIn(written) then written else written + [bs[0]], bs[1..])
  }

  function MergeAll(lists: seq<seq<Block>>): seq<Block> {
    if lists == [] then [] else Merge(MergeAll(lists[..|lists| - 1]), lists[|lists| - 1])
  }

  function CidsOfAll(lists: seq<seq<Block>>): set<Cid> {
    set i, j | 0 <= i < |lists| && 0 <= j < |lists[i]| :: lists[i][j].cid
  }

  lemma {:induction false} MergeKeeps(written: seq<Block>, bs: seq<Block>)
    requires Distinct(written)
    ensures var m := Merge(written, bs);
            && Distinct(m) && written <= m && CidsIn(m) == CidsIn(written) + CidsIn(bs)
            && forall i :: 0 <= i < |m| ==> m[i] in written || m[i] in bs
    decreases |bs|
  {
    if bs == [] {
      assert CidsIn(bs) == {};
    } else {
      var w := if bs[0].cid in CidsIn(written) then written else written + [bs[0]];
      if bs[0].cid !in CidsIn(written) { CidsSnoc(written, bs[0]); }
      CidsCons(bs);
      hide CidsIn;
      MergeKeeps(w, bs[1..]);
    }
  }

  lemma CidsSnoc(bs: seq<Block>, b: Block)
    ensures CidsIn(bs + [b]) == CidsIn(bs) + {b.cid}
    ensures Distinct(bs) && b.cid !in CidsIn(bs) ==> Distinct(bs + [b])
  {
    var r := bs + [b];
    assert r[|bs|] == b;
    forall c ensures c in CidsIn(r) <==> c in CidsIn(bs) || c == b.cid {
      if c in CidsIn(bs) { var i :| 0 <= i < |bs| && bs[i].cid == c; assert r[i].cid == c; }
    }
    assert forall i :: 0 <= i < |bs| ==> bs[i].cid in CidsIn(bs);
  }

  lemma CidsCons(bs: seq<Block>)
    requires bs != []
    ensures CidsIn(bs) == CidsIn(bs[1..]) + {bs[0].cid}
  {
    forall c ensures c in CidsIn(bs) <==> c in CidsIn(bs[1..]) || c == bs[0].cid {
      if c in CidsIn(bs[1..]) { var i :| 0 <= i < |bs[1..]| && bs[1..][i].cid == c; assert bs[i + 1].cid == c; }
      if c in CidsIn(bs) {
        var i :| 0 <= i < |bs| && bs[i].cid == c;
        assert i > 0 ==> bs[1..][i - 1].cid == c;
      }
    }
  }

  predicate AllFitAll(env: Env, lists: seq<seq<Block>>) {
    forall i :: 0 <= i < |lists| ==> AllFit(env, lists[i])
  }

  /** The merged file holds every identifier of the inputs once, each with a block of an input. */
  lemma {:induction false} MergeAllKeeps(env: Env, lists: seq<seq<Block>>)
    ensures Distinct(MergeAll(lists)) && CidsIn(MergeAll(lists)) == CidsOfAll(lists)
    ensures AllFitAll(env, lists) ==> AllFit(env, MergeAll(lists))
  {
    if lists != [] {
      var n := |lists| - 1;
      MergeAllKeeps(env, lists[..n]);
      MergeKeeps(MergeAll(lists[..n]), lists[n]);
      hide Fits, Merge, AllFit, Distinct, CidsIn, CidsOfAll;
      CidsOfMore(lists);
      if AllFitAll(env, lists) {
        assert AllFitAll(env, lists[..n]) && AllFit(env, lists[n]);
        FitUnion(env, MergeAll(lists[..n]), lists[n], MergeAll(lists));
      }
    }
  }

  lemma FitUnion(env: Env, a: seq<Block>, b: seq<Block>, m: seq<Block>)
    requires AllFit(env, a) && AllFit(env, b) && forall i :: 0 <= i < |m| ==> m[i] in a || m[i] in b
    ensures AllFit(env, m)
  {
    hide Fits;
  }

  lemma CidsOfMore(lists: seq<seq<Block>>)
    requires lists != []
    ensures CidsOfAll(lists) == CidsOfAll(lists[..|lists| - 1]) + CidsIn(lists[|lists| - 1])
  {
    var n := |lists| - 1;
    forall c ensures c in CidsOfAll(lists) <==> c in CidsOfAll(lists[..n]) + CidsIn(lists[n]) {
      if c in CidsOfAll(lists) {
        var i, j :| 0 <= i < |lists| && 0 <= j < |lists[i]| && lists[i][j].cid == c;
        assert i < n ==> lists[..n][i][j].cid == c;
      }
      if c in CidsOfAll(lists[..n]) {
        var i, j :| 0 <= i < n && 0 <= j < |lists[..n][i]| && lists[..n][i][j].cid == c;
        assert lists[i][j].cid == c;
      }
      if c in CidsIn(lists[n]) {
        var j :| 0 <= j < |lists[n]| && lists[n][j].cid == c;
        assert lists[n][j].cid == c;
      }
    }
  }

  // ----- the plan -----

  function Newest(bucket: seq<Shard>): Shard
    requires bucket != []
  {
    bucket[|bucket| - 1]
  }

  /** The merged file and its rows, under the head of the bucket's last shard; then the inputs go. */
  function CompactPlan(env: Env, aid: Aid, t: nat, bucket: seq<Shard>, merged: seq<Block>): seq<Step>
    requires bucket != [] && Newest(bucket).root.Some?
  {
    var last := Newest(bucket);
    WritePlan(env, last.root.value, last.rev, aid, last.seqno, Temp(t), merged) + DeletePlan(aid, bucket)
  }

  /** What compactBucket starts from. */
  ghost predicate Compactable(env: Env, d: Disk, aid: Aid, t: nat, bucket: seq<Shard>) {
    && Durable(env, d) && env.Valid() && bucket != [] && Listed(d, aid, bucket)
    && Temp(t) !in d.files && Newest(bucket).root.Some?
  }

  predicate Mergeable(env: Env, merged: seq<Block>) {
    Distinct(merged) && AllFit(env, merged)
  }

  ghost function Written(env: Env, d: Disk, aid: Aid, t: nat, bucket: seq<Shard>, merged: seq<Block>): Disk
    requires bucket != [] && Newest(bucket).root.Some?
  {
    var last := Newest(bucket);
    ApplyAll(d, WritePlan(env, last.root.value, last.rev, aid, last.seqno, Temp(t), merged))
  }

  lemma TempUnreferenced(env: Env, d: Disk, t: nat)
    requires Durable(env, d) && Temp(t) !in d.files
    ensures !Referenced(d, Temp(t))
  {
    hide IsShardFile, RefsOfFile, RefsOf;
    forall id | id in d.shards ensures d.shards[id].path != Temp(t) { assert RowOk(env, d, id); }
  }

  lemma WrittenIs(env: Env, d: Disk, aid: Aid, t: nat, bucket: seq<Shard>, merged: seq<Block>)
    requires Compactable(env, d, aid, t, bucket)
    ensures var d2 := Written(env, d, aid, t, bucket, merged);
            var row := NewRow(env, Newest(bucket).root.value, Newest(bucket).rev, aid, Newest(bucket).seqno, Temp(t));
            && d2.shards == d.shards[d.nextId := row.(id := d.nextId)] && d.nextId !in d.shards
            && d2.refs == d.refs + RefsFor(d.nextId, aid, Marks(env, row.root.value, merged))
            && (forall r :: r in d.refs ==> r.shard != d.nextId)
            && Listed(d2, aid, bucket) && d.nextId !in Ids(bucket)
            && (NoKeyTwin(d, aid, bucket) ==> NoKeyTwin(d2, aid, bucket))
            && forall a :: StoredBy(d2, a) == StoredBy(d, a) + (if a == aid then CidsIn(merged) else {})
  {
    var last := Newest(bucket);
    WriteEffect(env, d, last.root.value, last.rev, aid, last.seqno, Temp(t), merged);
    NextIdUnused(env, d);
    hide Durable, WritePlan, ApplyAll, Marks, FileHeader, ShardFile, RefsFor, StoredBy;
  }

  /** Merging a bucket is safe at every point, unless another row names a file it deletes. */
  lemma CompactSafe(env: Env, d: Disk, aid: Aid, t: nat, bucket: seq<Shard>, merged: seq<Block>)
    requires Compactable(env, d, aid, t, bucket) && Mergeable(env, merged) && NoKeyTwin(d, aid, bucket)
    ensures SafeSteps(env, d, CompactPlan(env, aid, t, bucket, merged))
  {
    hide Durable, WritePlan, ApplyAll, Marks, FileHeader, ShardFile, RefsFor, AllFit, Distinct, DeletePlan, SafeSteps,
         Listed, NoKeyTwin, Writable, StoredBy, CidsIn, Referenced;
    var last := Newest(bucket);
    var root := last.root.value;
    TempUnreferenced(env, d, t);
    FitWritable(env, merged);
    WriteSafeIff(env, d, root, last.rev, aid, last.seqno, Temp(t), merged);
    var w := WritePlan(env, root, last.rev, aid, last.seqno, Temp(t), merged);
    SafePoint(env, d, w, |w|);
    assert w[..|w|] == w;
    WrittenIs(env, d, aid, t, bucket, merged);
    DeleteSafe(env, Written(env, d, aid, t, bucket, merged), aid, bucket);
    SafeConcat(env, d, w, DeletePlan(aid, bucket));
  }

  lemma FitWritable(env: Env, bs: seq<Block>)
    requires env.Valid() && AllFit(env, bs)
    ensures forall i :: 0 <= i < |bs| ==> Writable(bs[i])
  {
    hide Body;
    forall i | 0 <= i < |bs| ensures Writable(bs[i]) { assert Fits(env, bs[i]); }
  }

  // ----- what stays readable -----

  /** The identifiers of the ref rows of these shards. */
  function BucketCids(d: Disk, bucket: seq<Shard>): set<Cid> {
    set r | r in d.refs && r.shard in Ids(bucket) :: r.cid
  }

  function OutsideCids(d: Disk, bucket: seq<Shard>, aid: Aid): set<Cid> {
    set r | r in d.refs && r.shard !in Ids(bucket) && r.aid == aid :: r.cid
  }

  /** A prefix of a delete plan: nothing, the rows of the first chunk, or that chunk and a prefix of the rest. */
  lemma DeletePrefix(env: Env, d: Disk, aid: Aid, shs: seq<Shard>, m: nat)
    requires shs != [] && m <= |DeletePlan(aid, shs)|
    ensures |DeletePlan(aid, shs)| == 2 + |DeletePlan(aid, shs[Take(shs)..])|
    ensures m == 0 ==> ApplyAll(d, DeletePlan(aid, shs)[..m]) == d
    ensures m == 1 ==> ApplyAll(d, DeletePlan(aid, shs)[..m]) == Apply(d, DeleteRows(Ids(shs[..Take(shs)])))
    ensures m >= 2 ==> ApplyAll(d, DeletePlan(aid, shs)[..m])
                       == ApplyAll(Without(d, aid, shs[..Take(shs)]), DeletePlan(aid, shs[Take(shs)..])[..m - 2])
  {
    var k := Take(shs);
    var a, b := shs[..k], shs[k..];
    var plan, rest := DeletePlan(aid, shs), DeletePlan(aid, b);
    var s1, s2 := DeleteRows(Ids(a)), DeleteFiles(aid, Seqs(a));
    assert plan == [s1, s2] + rest;
    hide DeletePlan, Ids, Seqs, Apply, Without;
    if m == 0 {
      assert plan[..m] == [];
      NoSteps(d);
    } else if m == 1 {
      assert plan[..m] == [s1];
      OneStep(d, s1);
    } else {
      assert plan[..m] == [s1, s2] + rest[..m - 2];
      ApplyConcat(d, [s1, s2], rest[..m - 2]);
      ChunkEffect(env, d, aid, a);
    }
  }

  lemma {:induction false} DeletePrefixRefs(env: Env, d: Disk, aid: Aid, shs: seq<Shard>, m: nat)
    requires m <= |DeletePlan(aid, shs)|
    ensures Without(d, aid, shs).refs <= ApplyAll(d, DeletePlan(aid, shs)[..m]).refs <= d.refs
    decreases |shs|
  {
    if shs == [] {
      assert DeletePlan(aid, shs)[..m] == [];
    } else {
      var k := Take(shs);
      var a, b := shs[..k], shs[k..];
      assert a + b == shs;
      hide Ids, Seqs, DeletePlan, ApplyAll;
      IdsConcat(a, b);
      DeletePrefix(env, d, aid, shs, m);
      if m >= 2 { DeletePrefixRefs(env, Without(d, aid, a), aid, b, m - 2); }
    }
  }

  lemma OneStep(d: Disk, s: Step)
    ensures ApplyAll(d, [s]) == Apply(d, s)
  {
    hide Apply;
    assert ApplyAll(Apply(d, s), [s][1..]) == Apply(d, s);
  }

  lemma StoredMonotone(d: Disk, d': Disk, a: Aid)
    requires d.refs <= d'.refs
    ensures StoredBy(d, a) <= StoredBy(d', a)
  {
  }

  lemma PlanPrefix(env: Env, d: Disk, aid: Aid, t: nat, bucket: seq<Shard>, merged: seq<Block>, n: nat)
    requires Compactable(env, d, aid, t, bucket) && n <= |CompactPlan(env, aid, t, bucket, merged)|
    ensures n < 2 ==> ApplyAll(d, CompactPlan(env, aid, t, bucket, merged)[..n]).refs == d.refs
    ensures n < 2 ==> ApplyAll(d, CompactPlan(env, aid, t, bucket, merged)[..n]).shards == d.shards
    ensures n >= 2 ==> n - 2 <= |DeletePlan(aid, bucket)|
    ensures n >= 2 ==>
              ApplyAll(d, CompactPlan(env, aid, t, bucket, merged)[..n])
              == ApplyAll(Written(env, d, aid, t, bucket, merged), DeletePlan(aid, bucket)[..n - 2])
  {
    var plan := CompactPlan(env, aid, t, bucket, merged);
    var last := Newest(bucket);
    var w := WritePlan(env, last.root.value, last.rev, aid, last.seqno, Temp(t), merged);
    hide Durable, DeletePlan, Marks, ShardFile, FileHeader, Listed, NewRow;
    if n == 0 {
      assert plan[..n] == [];
    } else if n == 1 {
      assert plan[..n] == [w[0]];
      OneStep(d, w[0]);
    } else {
      hide WritePlan;
      assert |w| == 2 && plan == w + DeletePlan(aid, bucket);
      assert plan[..n] == w + DeletePlan(aid, bucket)[..n - 2];
      ApplyConcat(d, w, DeletePlan(aid, bucket)[..n - 2]);
    }
  }

  /** Between the start and the end, an actor's stored identifiers only shrink to the final ones. */
  lemma StoredDuring(env: Env, d: Disk, aid: Aid, t: nat, bucket: seq<Shard>, merged: seq<Block>, n: nat, a: Aid)
    requires Compactable(env, d, aid, t, bucket) && n <= |CompactPlan(env, aid, t, bucket, merged)|
    requires CidsIn(merged) <= BucketCids(d, bucket)
    ensures var d' := ApplyAll(d, CompactPlan(env, aid, t, bucket, merged)[..n]);
            && StoredBy(d', a) <= StoredBy(d, a)
            && (if a == aid then OutsideCids(d, bucket, aid) + CidsIn(merged) else StoredBy(d, a)) <= StoredBy(d', a)
    ensures n == |CompactPlan(env, aid, t, bucket, merged)| ==>
              StoredBy(ApplyAll(d, CompactPlan(env, aid, t, bucket, merged)[..n]), a)
              == if a == aid then OutsideCids(d, bucket, aid) + CidsIn(merged) else StoredBy(d, a)
  {
    PlanPrefix(env, d, aid, t, bucket, merged, n);
    var d' := ApplyAll(d, CompactPlan(env, aid, t, bucket, merged)[..n]);
    if n < 2 {
      SameRefs(d, d', a);
      StoredSplit(env, d, aid, bucket);
      assert |CompactPlan(env, aid, t, bucket, merged)| > 2 by { PlanLength(env, aid, t, bucket, merged); }
    } else {
      WrittenIs(env, d, aid, t, bucket, merged);
      hide CompactPlan;
      var d2 := Written(env, d, aid, t, bucket, merged);
      var m := n - 2;
      hide Written, ApplyAll;
      DeletePrefixRefs(env, d2, aid, bucket, m);
      var d3 := Without(d2, aid, bucket);
      BucketStored(env, d, aid, bucket);
      FinalStored(env, d, aid, t, bucket, merged, a);
      StoredMonotone(d', d2, a);
      StoredMonotone(d3, d', a);
      if n == |CompactPlan(env, aid, t, bucket, merged)| {
        PlanLength(env, aid, t, bucket, merged);
        assert DeletePlan(aid, bucket)[..m] == DeletePlan(aid, bucket);
        DeleteEffect(env, d2, aid, bucket);
      }
    }
  }

  lemma SameRefs(d: Disk, d': Disk, a: Aid)
    requires d.refs == d'.refs
    ensures StoredBy(d, a) == StoredBy(d', a)
  {
  }

  lemma PlanLength(env: Env, aid: Aid, t: nat, bucket: seq<Shard>, merged: seq<Block>)
    requires bucket != [] && Newest(bucket).root.Some?
    ensures |CompactPlan(env, aid, t, bucket, merged)| == 2 + |DeletePlan(aid, bucket)| > 3
  {
    hide Marks, ShardFile, FileHeader, NewRow, Ids, Seqs;
  }

  /** The ref rows of a listed shard are its actor's. */
  lemma BucketStored(env: Env, d: Disk, aid: Aid, bucket: seq<Shard>)
    requires Durable(env, d) && Listed(d, aid, bucket)
    ensures BucketCids(d, bucket) <= StoredBy(d, aid)
    ensures forall r :: r in d.refs && r.shard in Ids(bucket) ==> r.aid == aid
  {
    forall r | r in d.refs && r.shard in Ids(bucket) ensures r.aid == aid {
      RefAid(env, d, r);
      var i :| 0 <= i < |bucket| && bucket[i].id == r.shard;
    }
  }

  lemma RefAid(env: Env, d: Disk, r: Ref)
    requires Durable(env, d) && r in d.refs
    ensures r.shard in d.shards && r.aid == d.shards[r.shard].aid
  {
    hide Durable, BlocksIn, EndOf;
    var i := RefIsMark(env, d, r);
    assert d.shards[r.shard].id == r.shard;
  }

  lemma FinalRefs(env: Env, d: Disk, aid: Aid, t: nat, bucket: seq<Shard>, merged: seq<Block>)
    requires Compactable(env, d, aid, t, bucket)
    ensures Without(Written(env, d, aid, t, bucket, merged), aid, bucket).refs
            == Outside(d, bucket) + RefsFor(d.nextId, aid, Marks(env, Newest(bucket).root.value, merged))
  {
    hide Marks, Durable, Listed, NoKeyTwin, Written, FileHeader, Ids, Seqs, RefsFor, StoredBy, CidsIn;
    WrittenIs(env, d, aid, t, bucket, merged);
    var marks := Marks(env, Newest(bucket).root.value, merged);
    forall r | r in RefsFor(d.nextId, aid, marks) ensures r.shard == d.nextId {
      RefsForShard(d.nextId, aid, marks, r);
    }
  }

  function Outside(d: Disk, bucket: seq<Shard>): set<Ref> {
    set r | r in d.refs && r.shard !in Ids(bucket)
  }

  lemma FinalStored(env: Env, d: Disk, aid: Aid, t: nat, bucket: seq<Shard>, merged: seq<Block>, a: Aid)
    requires Compactable(env, d, aid, t, bucket)
    ensures StoredBy(Without(Written(env, d, aid, t, bucket, merged), aid, bucket), a)
            == if a == aid then OutsideCids(d, bucket, aid) + CidsIn(merged) else StoredBy(d, a)
  {
    var root := Newest(bucket).root.value;
    var d3 := Without(Written(env, d, aid, t, bucket, merged), aid, bucket);
    FinalRefs(env, d, aid, t, bucket, merged);
    OutsideStored(env, d, aid, bucket, a);
    NewlyStored(env, root, d.nextId, aid, merged);
    hide Without, Written, Compactable, Marks, RefsFor, Outside, RefCids, StoredBy, CidsIn, OutsideCids;
    CidsUnion(d3, Outside(d, bucket), RefsFor(d.nextId, aid, Marks(env, root, merged)), a);
  }

  lemma OutsideStored(env: Env, d: Disk, aid: Aid, bucket: seq<Shard>, a: Aid)
    requires Durable(env, d) && Listed(d, aid, bucket)
    ensures RefCids(Outside(d, bucket), a) == if a == aid then OutsideCids(d, bucket, aid) else StoredBy(d, a)
  {
    BucketStored(env, d, aid, bucket);
    hide Durable, Listed, Ids;
    forall c | c in StoredBy(d, a) && a != aid ensures c in RefCids(Outside(d, bucket), a) {
      var r :| r in d.refs && r.aid == a && r.cid == c;
      assert r in Outside(d, bucket);
    }
    forall c | c in OutsideCids(d, bucket, aid) ensures c in RefCids(Outside(d, bucket), aid) {
      var r :| r in d.refs && r.shard !in Ids(bucket) && r.aid == aid && r.cid == c;
      assert r in Outside(d, bucket);
    }
  }

  lemma CidsUnion(d: Disk, x: set<Ref>, y: set<Ref>, a: Aid)
    requires d.refs == x + y
    ensures StoredBy(d, a) == RefCids(x, a) + RefCids(y, a)
  {
    forall c ensures c in StoredBy(d, a) <==> c in RefCids(x, a) + RefCids(y, a) {
      if c in StoredBy(d, a) {
        var r :| r in d.refs && r.aid == a && r.cid == c;
      }
    }
  }

  /**
   * Merging loses nothing, at any point, exactly when every block of the bucket was merged or is
   * also in another shard of the actor: a file that could not be read is skipped, then deleted.
   */
  lemma CompactViewIff(env: Env, d: Disk, aid: Aid, t: nat, bucket: seq<Shard>, merged: seq<Block>)
    requires Compactable(env, d, aid, t, bucket) && CidsIn(merged) <= BucketCids(d, bucket)
    ensures (forall n: nat, a :: n <= |CompactPlan(env, aid, t, bucket, merged)| ==>
               StoredBy(ApplyAll(d, CompactPlan(env, aid, t, bucket, merged)[..n]), a) == StoredBy(d, a))
            <==> BucketCids(d, bucket) <= CidsIn(merged) + OutsideCids(d, bucket, aid)
  {
    var plan := CompactPlan(env, aid, t, bucket, merged);
    BucketStored(env, d, aid, bucket);
    StoredSplit(env, d, aid, bucket);
    hide CompactPlan, ApplyAll, StoredBy, BucketCids, OutsideCids, CidsIn;
    if BucketCids(d, bucket) <= CidsIn(merged) + OutsideCids(d, bucket, aid) {
      forall n: nat, a | n <= |plan| ensures StoredBy(ApplyAll(d, plan[..n]), a) == StoredBy(d, a) {
        StoredDuring(env, d, aid, t, bucket, merged, n, a);
      }
    } else {
      StoredDuring(env, d, aid, t, bucket, merged, |plan|, aid);
      assert StoredBy(ApplyAll(d, plan[..|plan|]), aid) != StoredBy(d, aid);
    }
  }

  lemma StoredSplit(env: Env, d: Disk, aid: Aid, bucket: seq<Shard>)
    requires Durable(env, d) && Listed(d, aid, bucket)
    ensures StoredBy(d, aid) == BucketCids(d, bucket) + OutsideCids(d, bucket, aid)
  {
    BucketStored(env, d, aid, bucket);
    hide Durable, Listed, Ids;
    forall c ensures c in StoredBy(d, aid) <==> c in BucketCids(d, bucket) + OutsideCids(d, bucket, aid) {
      if c in StoredBy(d, aid) {
        var r :| r in d.refs && r.aid == aid && r.cid == c;
      }
    }
  }

  // ----- the bucket's own blocks -----

  /** What a CAR reader yields for a file: none for a file that is not there or has no header. */
  function BlocksOf(env: Env, d: Disk, sh: Shard): seq<Block> {
    if sh.path !in d.files then [] else
    match ParseHeader(d.files[sh.path], env.limit)
    case Fail => []
    case Got(_, rest) => ReadAll(env, rest).blocks
  }

  /** For a well-formed shard these are its blocks, all of them. */
  lemma BlocksOfRow(env: Env, d: Disk, sh: Shard)
    requires env.Valid() && sh.path in d.files && IsShardFile(env, d.files[sh.path], sh.root, sh.dataStart)
    ensures BlocksOf(env, d, sh) == BlocksIn(env, d.files[sh.path], sh.dataStart)
  {
    hide FileHeader, Frames, ReadAll, ParseHeader, AllFit, Distinct;
    var bs := BlocksIn(env, d.files[sh.path], sh.dataStart);
    ShardRoundTrip(env, sh.root.value, bs);
  }

  function BlockLists(env: Env, d: Disk, bucket: seq<Shard>): seq<seq<Block>> {
    seq(|bucket|, i requires 0 <= i < |bucket| => BlocksOf(env, d, bucket[i]))
  }

  lemma RowCids(env: Env, d: Disk, sh: Shard, c: Cid)
    requires Durable(env, d) && env.Valid() && sh.id in d.shards && d.shards[sh.id] == sh
    ensures c in CidsIn(BlocksOf(env, d, sh)) <==> exists r :: r in d.refs && r.shard == sh.id && r.cid == c
  {
    hide IsShardFile, BlocksIn, Marks, BlocksOf;
    assert RowOk(env, d, sh.id);
    BlocksOfRow(env, d, sh);
    var bs := BlocksOf(env, d, sh);
    assert sh.root.Some? by { RootKnown(env, d, sh.id); }
    assert RefsOf(d, sh.id) == RefsFor(sh.id, sh.aid, Marks(env, sh.root.value, bs));
    NewlyStored(env, sh.root.value, sh.id, sh.aid, bs);
    assert RefCids(RefsOf(d, sh.id), sh.aid) == CidsIn(bs);
    if r :| r in d.refs && r.shard == sh.id && r.cid == c {
      RefAid(env, d, r);
      assert r in RefsOf(d, sh.id);
    }
    if c in CidsIn(bs) {
      var r :| r in RefsOf(d, sh.id) && r.aid == sh.aid && r.cid == c;
      assert r in d.refs;
    }
  }

  lemma RootKnown(env: Env, d: Disk, id: nat)
    requires Durable(env, d) && env.Valid() && id in d.shards
    ensures d.shards[id].root.Some? && d.shards[id].path in d.files && d.shards[id].id == id
    ensures AllFit(env, BlocksOf(env, d, d.shards[id])) && Distinct(BlocksOf(env, d, d.shards[id]))
  {
    hide BlocksIn, ShardFile, FileHeader, AllFit, Distinct, RefsOf, RefsOfFile, BlocksOf;
    assert RowOk(env, d, id);
    BlocksOfRow(env, d, d.shards[id]);
  }

  /** All files read, the merged file holds exactly what the bucket's ref rows name. */
  lemma MergedCids(env: Env, d: Disk, aid: Aid, bucket: seq<Shard>)
    requires Durable(env, d) && env.Valid() && Listed(d, aid, bucket)
    ensures CidsOfAll(BlockLists(env, d, bucket)) == BucketCids(d, bucket)
    ensures AllFitAll(env, BlockLists(env, d, bucket))
  {
    var lists := BlockLists(env, d, bucket);
    forall c ensures c in CidsOfAll(lists) <==> c in BucketCids(d, bucket) {
      if c in CidsOfAll(lists) {
        var i, j :| 0 <= i < |lists| && 0 <= j < |lists[i]| && lists[i][j].cid == c;
        assert c in CidsIn(lists[i]);
        hide Durable, BlocksOf;
        RowCids(env, d, bucket[i], c);
        var r :| r in d.refs && r.shard == bucket[i].id && r.cid == c;
        assert r.shard in Ids(bucket);
      }
      if c in BucketCids(d, bucket) {
        var r :| r in d.refs && r.shard in Ids(bucket) && r.cid == c;
        var i :| 0 <= i < |bucket| && bucket[i].id == r.shard;
        hide Durable, BlocksOf;
        RowCids(env, d, bucket[i], c);
        var j :| 0 <= j < |lists[i]| && lists[i][j].cid == c;
      }
    }
    forall i | 0 <= i < |lists| ensures AllFit(env, lists[i]) {
      RootKnown(env, d, bucket[i].id);
    }
  }

  /** Every block of the merged file is a block of an input. */
  lemma {:induction false} MergedFrom(lists: seq<seq<Block>>, b: Block)
    requires b in MergeAll(lists)
    ensures exists k :: 0 <= k < |lists| && b in lists[k]
  {
    if lists != [] {
      var n := |lists| - 1;
      MergeAllDistinct(lists[..n]);
      MergeKeeps(MergeAll(lists[..n]), lists[n]);
      if b in MergeAll(lists[..n]) {
        MergedFrom(lists[..n], b);
        var k :| 0 <= k < n && b in lists[..n][k];
        assert b in lists[k];
      }
    }
  }

  lemma {:induction false} MergeAllDistinct(lists: seq<seq<Block>>)
    ensures Distinct(MergeAll(lists))
  {
    if lists != [] {
      MergeAllDistinct(lists[..|lists| - 1]);
      MergeKeeps(MergeAll(lists[..|lists| - 1]), lists[|lists| - 1]);
    }
  }

  /** Deleting rows and files holds nothing new. */
  lemma {:induction false} DeletesHold(env: Env, d: Disk, steps: seq<Step>)
    requires forall i :: 0 <= i < |steps| ==> steps[i].DeleteRows? || steps[i].DeleteFiles?
    ensures OnlyOld(env, d, ApplyAll(d, steps))
    decreases |steps|
  {
    if steps != [] {
      DeletesHold(env, Apply(d, steps[0]), steps[1..]);
      hide Held;
      DeleteHolds(env, d, steps[0]);
    }
  }

  lemma DeleteHolds(env: Env, d: Disk, step: Step)
    requires step.DeleteRows? || step.DeleteFiles?
    ensures OnlyOld(env, d, Apply(d, step))
  {
    hide BlocksIn;
    var d1 := Apply(d, step);
    forall b | Held(env, d1, b) ensures Held(env, d, b) {
      var id :| id in d1.shards && HeldIn(env, d1, id, b);
      assert HeldIn(env, d, id, b);
    }
  }

  lemma {:induction false} DeletePlanDeletes(aid: Aid, shs: seq<Shard>)
    ensures forall i :: 0 <= i < |DeletePlan(aid, shs)| ==> DeletePlan(aid, shs)[i].DeleteRows? || DeletePlan(aid, shs)[i].DeleteFiles?
    decreases |shs|
  {
    if shs != [] { DeletePlanDeletes(aid, shs[Take(shs)..]); }
  }

  /** Merging a bucket holds nothing new, wherever it stops. */
  lemma CompactHolds(env: Env, d: Disk, aid: Aid, t: nat, bucket: seq<Shard>, lists: seq<seq<Block>>, n: nat)
    requires Compactable(env, d, aid, t, bucket) && ReadLists(env, d, bucket, lists)
    requires n <= |CompactPlan(env, aid, t, bucket, MergeAll(lists))|
    ensures OnlyOld(env, d, ApplyAll(d, CompactPlan(env, aid, t, bucket, MergeAll(lists))[..n]))
  {
    var merged := MergeAll(lists);
    TempUnreferenced(env, d, t);
    PartlyMerged(env, d, aid, bucket, lists);
    forall b | b in merged ensures Held(env, d, b) { MergedHeld(env, d, aid, bucket, lists, b); }
    hide Durable, MergeAll, Held, ReadLists, Listed, AllFit, Referenced, CidsIn, BucketCids, DeletePlan, WritePlan, ApplyAll;
    PlanLength(env, aid, t, bucket, merged);
    PlanPrefix(env, d, aid, t, bucket, merged, n);
    var last := Newest(bucket);
    var w := WritePlan(env, last.root.value, last.rev, aid, last.seqno, Temp(t), merged);
    PlanStart(env, aid, t, bucket, merged, n);
    var d2 := ApplyAll(d, w[..if n < 2 then n else 2]);
    forall b | Held(env, d2, b) ensures Held(env, d, b) {
      WriteHeld(env, d, last.root.value, last.rev, aid, last.seqno, Temp(t), merged, if n < 2 then n else 2, b);
    }
    if n >= 2 {
      DeletePlanDeletes(aid, bucket);
      DeletesHold(env, d2, DeletePlan(aid, bucket)[..n - 2]);
    }
  }

  lemma PlanStart(env: Env, aid: Aid, t: nat, bucket: seq<Shard>, merged: seq<Block>, n: nat)
    requires bucket != [] && Newest(bucket).root.Some? && n <= |CompactPlan(env, aid, t, bucket, merged)|
    ensures var last := Newest(bucket);
            var w := WritePlan(env, last.root.value, last.rev, aid, last.seqno, Temp(t), merged);
            |w| == 2 && w[..2] == w && (n <= 2 ==> CompactPlan(env, aid, t, bucket, merged)[..n] == w[..n])
  {
    hide Marks, ShardFile, FileHeader, NewRow, DeletePlan;
  }

  lemma MergedHeld(env: Env, d: Disk, aid: Aid, bucket: seq<Shard>, lists: seq<seq<Block>>, b: Block)
    requires Durable(env, d) && env.Valid() && Listed(d, aid, bucket) && ReadLists(env, d, bucket, lists) && b in MergeAll(lists)
    ensures Held(env, d, b)
  {
    hide IsShardFile, RefsOf, RefsOfFile, BlocksIn, BlocksOf, MergeAll;
    MergedFrom(lists, b);
    var k :| 0 <= k < |lists| && b in lists[k];
    assert lists[k] <= BlocksOf(env, d, bucket[k]);
    assert RowOk(env, d, bucket[k].id);
    BlocksOfRow(env, d, bucket[k]);
    assert HeldIn(env, d, bucket[k].id, b);
  }

  /** What is served does not change when no block is new and no identifier is lost. */
  lemma SameServes(env: Env, d: Disk, d': Disk, c: Cid, data: Bytes)
    requires Durable(env, d) && Durable(env, d') && env.Valid() && Agree(env, d) && OnlyOld(env, d, d')
    requires forall a :: StoredBy(d', a) == StoredBy(d, a)
    ensures Serves(env, d', c, data) <==> Serves(env, d, c, data)
  {
    hide Durable, Serves, ReadRef, HeldIn;
    ServesIff(env, d, c, data);
    ServesIff(env, d', c, data);
    if Held(env, d, Block(c, data)) {
      var id :| id in d.shards && HeldIn(env, d, id, Block(c, data));
      var r := HeldRef(env, d, id, Block(c, data));
      assert c in StoredBy(d, r.aid) && c in StoredBy(d', r.aid);
      var r' :| r' in d'.refs && r'.aid == r.aid && r'.cid == c;
      var b := RefHeld(env, d', r');
      assert Held(env, d, b) && b.cid == Block(c, data).cid;
    }
  }

  /**
   * Compaction preserves what the store serves: after any number of its steps the tables and the
   * files agree, and every identifier gives the same bytes as before.
   */
  lemma CompactionKeepsView(env: Env, d: Disk, aid: Aid, t: nat, bucket: seq<Shard>, n: nat, c: Cid, data: Bytes)
    requires Compactable(env, d, aid, t, bucket) && SeqUniqueFor(d, aid) && Agree(env, d)
    requires n <= |CompactPlan(env, aid, t, bucket, MergeAll(BlockLists(env, d, bucket)))|
    ensures var d' := ApplyAll(d, CompactPlan(env, aid, t, bucket, MergeAll(BlockLists(env, d, bucket)))[..n]);
            Durable(env, d') && (Serves(env, d', c, data) <==> Serves(env, d, c, data))
  {
    var lists := BlockLists(env, d, bucket);
    var merged := MergeAll(lists);
    assert ReadLists(env, d, bucket, lists);
    PartlyMerged(env, d, aid, bucket, lists);
    UniqueNoTwin(env, d, aid, bucket);
    hide Durable, CompactPlan, MergeAll, CidsIn, BucketCids, OutsideCids, Listed, StoredBy, Serves, Mergeable,
         ApplyAll, ReadLists, BlockLists, Agree, OnlyOld;
    CompactSafe(env, d, aid, t, bucket, merged);
    SafePoint(env, d, CompactPlan(env, aid, t, bucket, merged), n);
    CompactViewIff(env, d, aid, t, bucket, merged);
    CompactHolds(env, d, aid, t, bucket, lists, n);
    SameServes(env, d, ApplyAll(d, CompactPlan(env, aid, t, bucket, merged)[..n]), c, data);
  }

  // ----- a compaction that stops in the middle -----

  /** The last listed row goes with the last chunk. */
  lemma {:induction false} LastRowGoes(env: Env, d: Disk, aid: Aid, shs: seq<Shard>, m: nat)
    requires Listed(d, aid, shs) && shs != [] && m <= |DeletePlan(aid, shs)|
    ensures var d' := ApplyAll(d, DeletePlan(aid, shs)[..m]);
            && (Newest(shs).id in d'.shards <==> m + 1 < |DeletePlan(aid, shs)|)
            && (forall id :: id in d'.shards ==> id in d.shards && d'.shards[id] == d.shards[id])
            && forall id :: id in d.shards && id !in Ids(shs) ==> id in d'.shards
    decreases |shs|
  {
    var k := Take(shs);
    var a, b := shs[..k], shs[k..];
    assert a + b == shs;
    DeletePlanSize(aid, b);
    LastInIds(d, aid, a, b);
    NoTwinNeeded(d, aid, a, b);
    IdsConcat(a, b);
    hide Ids, Seqs, DeletePlan, ApplyAll, Listed;
    DeletePrefix(env, d, aid, shs, m);
    if m >= 2 {
      if b == [] {
        NoSteps(Without(d, aid, a));
        assert DeletePlan(aid, b)[..m - 2] == [];
      } else {
        LastRowGoes(env, Without(d, aid, a), aid, b, m - 2);
      }
    }
  }

  lemma NoSteps(d: Disk)
    ensures ApplyAll(d, []) == d
  {
  }

  lemma DeletePlanSize(aid: Aid, shs: seq<Shard>)
    ensures if shs == [] then DeletePlan(aid, shs) == [] else |DeletePlan(aid, shs)| >= 2
  {
  }

  lemma LastInIds(d: Disk, aid: Aid, a: seq<Shard>, b: seq<Shard>)
    requires Listed(d, aid, a + b) && a != []
    ensures Newest(a + b).id in d.shards
    ensures Newest(a + b).id in Ids(a) <==> b == []
    ensures b != [] ==> Newest(a + b) == Newest(b)
  {
    var c := a + b;
    if b == [] {
      assert c == a;
    } else {
      forall i | 0 <= i < |a| ensures a[i].id != Newest(c).id { assert c[i] == a[i]; }
    }
  }

  lemma NoTwinNeeded(d: Disk, aid: Aid, a: seq<Shard>, b: seq<Shard>)
    requires Listed(d, aid, a + b)
    ensures Listed(Without(d, aid, a), aid, b)
  {
    var c := a + b;
    var d' := Without(d, aid, a);
    forall i | 0 <= i < |b| ensures b[i].id in d'.shards && d'.shards[b[i].id] == b[i] && b[i].aid == aid {
      assert c[|a| + i] == b[i];
      forall k | 0 <= k < |a| ensures a[k].id != b[i].id { assert c[k] == a[k]; }
    }
    forall i, j | 0 <= i < j < |b| ensures b[i].id != b[j].id {
      assert c[|a| + i] == b[i] && c[|a| + j] == b[j];
    }
  }

  /**
   * Two rows share a sequence number exactly while the merged row is in the table and the last
   * row of the bucket still is.
   */
  lemma TwinsIff(env: Env, d: Disk, aid: Aid, t: nat, bucket: seq<Shard>, merged: seq<Block>, n: nat)
    requires Compactable(env, d, aid, t, bucket) && SeqUniqueFor(d, aid)
    requires n <= |CompactPlan(env, aid, t, bucket, merged)|
    ensures SeqUniqueFor(ApplyAll(d, CompactPlan(env, aid, t, bucket, merged)[..n]), aid)
            <==> n < 2 || n + 1 >= |CompactPlan(env, aid, t, bucket, merged)|
  {
    hide CompactPlan, Written, ApplyAll, DeletePlan, Durable, Marks, FileHeader, RefsFor, StoredBy, NoKeyTwin, CidsIn,
         Listed, SeqUniqueFor;
    PlanLength(env, aid, t, bucket, merged);
    PlanPrefix(env, d, aid, t, bucket, merged, n);
    var d' := ApplyAll(d, CompactPlan(env, aid, t, bucket, merged)[..n]);
    if n < 2 {
      SameUnique(d, d', aid);
    } else {
      var d2 := Written(env, d, aid, t, bucket, merged);
      WrittenIs(env, d, aid, t, bucket, merged);
      LastRowGoes(env, d2, aid, bucket, n - 2);
      NewestListed(d, aid, bucket);
      TwinRows(d, d2, d', aid, Newest(bucket), d.nextId);
    }
  }

  lemma SameUnique(d: Disk, d': Disk, aid: Aid)
    requires d.shards == d'.shards
    ensures SeqUniqueFor(d, aid) == SeqUniqueFor(d', aid)
  {
  }

  lemma TwinRows(d: Disk, d2: Disk, d': Disk, aid: Aid, last: Shard, id: nat)
    requires SeqUniqueFor(d, aid) && last.id in d.shards && d.shards[last.id] == last && last.aid == aid
    requires id !in d.shards && id in d2.shards && d2.shards == d.shards[id := d2.shards[id]]
    requires d2.shards[id].aid == aid && d2.shards[id].seqno == last.seqno
    requires id in d'.shards && forall k :: k in d'.shards ==> k in d2.shards && d'.shards[k] == d2.shards[k]
    ensures SeqUniqueFor(d', aid) <==> last.id !in d'.shards
  {
    assert d'.shards[id].seqno == last.seqno && d'.shards[id].aid == aid;
    if last.id in d'.shards {
      assert d'.shards[last.id] == last;
    } else {
      forall i, j | i in d'.shards && j in d'.shards && i != j && d'.shards[i].aid == aid && d'.shards[j].aid == aid
        ensures d'.shards[i].seqno != d'.shards[j].seqno
      {
        assert i != last.id && j != last.id;
      }
    }
  }

  /** The tables in between: both rows are there, and the invariant still holds. */
  lemma StoppedBetween(env: Env, d: Disk, aid: Aid, t: nat, bucket: seq<Shard>, merged: seq<Block>, n: nat)
    requires Compactable(env, d, aid, t, bucket) && Mergeable(env, merged) && NoKeyTwin(d, aid, bucket)
    requires 2 <= n && n + 1 < |CompactPlan(env, aid, t, bucket, merged)|
    ensures var d' := ApplyAll(d, CompactPlan(env, aid, t, bucket, merged)[..n]);
            && Durable(env, d') && d.nextId in d'.shards && d'.shards[d.nextId].seqno == Newest(bucket).seqno
            && Newest(bucket).id in d'.shards && d'.shards[Newest(bucket).id] == Newest(bucket)
  {
    hide Durable, DeletePlan, Marks, FileHeader, RefsFor, StoredBy, CidsIn, SafeSteps, Mergeable, NoKeyTwin, Listed,
         CompactPlan, ApplyAll, Written;
    CompactSafe(env, d, aid, t, bucket, merged);
    SafePoint(env, d, CompactPlan(env, aid, t, bucket, merged), n);
    PlanLength(env, aid, t, bucket, merged);
    PlanPrefix(env, d, aid, t, bucket, merged, n);
    WrittenIs(env, d, aid, t, bucket, merged);
    var d2 := Written(env, d, aid, t, bucket, merged);
    LastRowGoes(env, d2, aid, bucket, n - 2);
    NewestListed(d2, aid, bucket);
  }

  lemma NewestListed(d: Disk, aid: Aid, bucket: seq<Shard>)
    requires bucket != [] && Listed(d, aid, bucket)
    ensures Newest(bucket).id in d.shards && d.shards[Newest(bucket).id] == Newest(bucket) && Newest(bucket).aid == aid
  {
  }

  /**
   * Why that matters: a compaction stops in between, leaving the merged row beside the bucket's
   * last row. Deleting a chunk that holds the merged row but not that last row removes, by actor
   * and sequence number, the file the last row still names.
   */
  lemma StoppedCompactionLosesFile(env: Env, d: Disk, aid: Aid, t: nat, bucket: seq<Shard>, merged: seq<Block>,
                                   n: nat, chunk: seq<Shard>, i: nat)
    requires Compactable(env, d, aid, t, bucket) && Mergeable(env, merged) && NoKeyTwin(d, aid, bucket)
    requires Newest(bucket).path.Key?
    requires 2 <= n && n + 1 < |CompactPlan(env, aid, t, bucket, merged)|
    requires var d' := ApplyAll(d, CompactPlan(env, aid, t, bucket, merged)[..n]);
             && Listed(d', aid, chunk) && i < |chunk| && chunk[i].id == d.nextId && Newest(bucket).id !in Ids(chunk)
    ensures var d' := ApplyAll(d, CompactPlan(env, aid, t, bucket, merged)[..n]);
            && Durable(env, d')
            && !Durable(env, ApplyAll(d', [DeleteRows(Ids(chunk)), DeleteFiles(aid, Seqs(chunk))]))
  {
    hide Durable, Mergeable, NoKeyTwin, CompactPlan, ApplyAll;
    var last := Newest(bucket);
    NewestListed(d, aid, bucket);
    RowPath(env, d, last);
    StoppedBetween(env, d, aid, t, bucket, merged, n);
    var d' := ApplyAll(d, CompactPlan(env, aid, t, bucket, merged)[..n]);
    assert chunk[i] == d'.shards[d.nextId];
    TwoSteps(env, d', DeleteRows(Ids(chunk)), DeleteFiles(aid, Seqs(chunk)));
    DeleteRowsKeeps(env, d', Ids(chunk));
    var d1 := Apply(d', DeleteRows(Ids(chunk)));
    DeleteFilesKeepsIff(env, d1, aid, Seqs(chunk));
    assert last.id in d1.shards && d1.shards[last.id] == last && chunk[i].seqno in Seqs(chunk);
  }

  lemma RowPath(env: Env, d: Disk, sh: Shard)
    requires Durable(env, d) && sh.id in d.shards && d.shards[sh.id] == sh && sh.path.Key?
    ensures sh.path == Key(sh.aid, sh.seqno)
  {
    hide IsShardFile, RefsOf, RefsOfFile;
    assert RowOk(env, d, sh.id);
  }

  // ----- what a compaction does to the tables -----

  /** A merged row carries the sequence number and revision of a row it replaced. */
  predicate Replaces(d0: Disk, removed: set<nat>, aid: Aid, sh: Shard) {
    sh.aid == aid && exists k :: k in removed && Stands(d0, k, sh)
  }

  predicate Stands(d0: Disk, k: nat, sh: Shard) {
    k in d0.shards && d0.shards[k].aid == sh.aid && d0.shards[k].seqno == sh.seqno && d0.shards[k].rev == sh.rev
  }

  /** Rows outside the removed ones are untouched; every other row replaces a removed one. */
  predicate RowsWithin(d0: Disk, d: Disk, aid: Aid, removed: set<nat>) {
    && d0.nextId <= d.nextId
    && (forall id :: id in d0.shards && id !in removed ==> id in d.shards && d.shards[id] == d0.shards[id])
    && (forall id :: id in d.shards && id in d0.shards ==> d.shards[id] == d0.shards[id])
    && (forall id :: id in d.shards && id !in d0.shards ==> id >= d0.nextId && Replaces(d0, removed, aid, d.shards[id]))
  }

  lemma BucketRows(env: Env, d: Disk, aid: Aid, t: nat, bucket: seq<Shard>, merged: seq<Block>, n: nat)
    requires Compactable(env, d, aid, t, bucket) && n <= |CompactPlan(env, aid, t, bucket, merged)|
    ensures var d' := ApplyAll(d, CompactPlan(env, aid, t, bucket, merged)[..n]);
            && RowsWithin(d, d', aid, Ids(bucket))
            && (n == |CompactPlan(env, aid, t, bucket, merged)| ==> forall id :: id in Ids(bucket) ==> id !in d'.shards)
  {
    hide Durable, Marks, FileHeader, RefsFor, StoredBy, NoKeyTwin, CidsIn, CompactPlan, ApplyAll, Written, DeletePlan,
         Listed, Ids;
    var plan := CompactPlan(env, aid, t, bucket, merged);
    PlanLength(env, aid, t, bucket, merged);
    PlanPrefix(env, d, aid, t, bucket, merged, n);
    var d' := ApplyAll(d, plan[..n]);
    NextIdStays(d, plan[..n]);
    if n >= 2 {
      var d2 := Written(env, d, aid, t, bucket, merged);
      WrittenIs(env, d, aid, t, bucket, merged);
      LastRowGoes(env, d2, aid, bucket, n - 2);
      NewestListed(d, aid, bucket);
      NewestInIds(bucket);
      assert Stands(d, Newest(bucket).id, d2.shards[d.nextId]);
      if n == |plan| {
        assert DeletePlan(aid, bucket)[..n - 2] == DeletePlan(aid, bucket);
        DeleteEffect(env, d2, aid, bucket);
      }
    }
  }

  lemma NewestInIds(bucket: seq<Shard>)
    requires bucket != []
    ensures Newest(bucket).id in Ids(bucket)
  {
  }

  lemma {:induction false} NextIdStays(d: Disk, steps: seq<Step>)
    ensures d.nextId <= ApplyAll(d, steps).nextId
    decreases |steps|
  {
    if steps != [] { NextIdStays(Apply(d, steps[0]), steps[1..]); }
  }

  lemma RowsWithinTrans(d0: Disk, d1: Disk, d2: Disk, aid: Aid, r1: set<nat>, r2: set<nat>)
    requires RowsWithin(d0, d1, aid, r1) && RowsWithin(d1, d2, aid, r2)
    requires forall id :: id in r2 ==> id in d0.shards && id !in r1 && d0.shards[id].aid == aid
    requires forall id :: id in d0.shards ==> id < d0.nextId
    ensures RowsWithin(d0, d2, aid, r1 + r2)
  {
    hide Replaces;
    forall id | id in d2.shards && id !in d0.shards
      ensures id >= d0.nextId && Replaces(d0, r1 + r2, aid, d2.shards[id])
    {
      if id in d1.shards {
        MoreRemoved(d0, r1, r2, aid, d1.shards[id]);
      } else {
        ReplacesVia(d0, d1, r1, r2, aid, d2.shards[id]);
      }
    }
  }

  lemma MoreRemoved(d0: Disk, r1: set<nat>, r2: set<nat>, aid: Aid, sh: Shard)
    requires Replaces(d0, r1, aid, sh)
    ensures Replaces(d0, r1 + r2, aid, sh)
  {
    var k :| k in r1 && Stands(d0, k, sh);
    assert k in r1 + r2;
  }

  lemma ReplacesVia(d0: Disk, d1: Disk, r1: set<nat>, r2: set<nat>, aid: Aid, sh: Shard)
    requires RowsWithin(d0, d1, aid, r1) && Replaces(d1, r2, aid, sh)
    requires forall id :: id in r2 ==> id in d0.shards && id !in r1 && d0.shards[id].aid == aid
    ensures Replaces(d0, r1 + r2, aid, sh)
  {
    var k :| k in r2 && Stands(d1, k, sh);
    assert k in r1 + r2 && Stands(d0, k, sh);
  }

  /** Sequence numbers stay unique when the replaced rows are gone. */
  lemma RowsWithinUnique(env: Env, d: Disk, aid: Aid, t: nat, bucket: seq<Shard>, merged: seq<Block>, a: Aid)
    requires Compactable(env, d, aid, t, bucket) && SeqUniqueFor(d, a)
    ensures SeqUniqueFor(ApplyAll(d, CompactPlan(env, aid, t, bucket, merged)), a)
  {
    hide Durable, Marks, FileHeader, RefsFor, StoredBy, NoKeyTwin, CidsIn, CompactPlan, ApplyAll, Written, DeletePlan,
         Listed, Replaces;
    var plan := CompactPlan(env, aid, t, bucket, merged);
    assert plan[..|plan|] == plan;
    if a == aid {
      TwinsIff(env, d, aid, t, bucket, merged, |plan|);
    } else {
      BucketRows(env, d, aid, t, bucket, merged, |plan|);
      hide Ids;
      var d' := ApplyAll(d, plan);
      forall id | id in d'.shards && d'.shards[id].aid == a ensures id in d.shards {
        if id !in d.shards { ReplacesAid(d, Ids(bucket), aid, d'.shards[id]); }
      }
    }
  }

  lemma ReplacesAid(d0: Disk, removed: set<nat>, aid: Aid, sh: Shard)
    requires Replaces(d0, removed, aid, sh)
    ensures sh.aid == aid
  {
  }

  // ----- what stays readable over several buckets -----

  /** No actor's stored identifiers change, wherever the steps stop. */
  ghost predicate Quiet(d: Disk, steps: seq<Step>) {
    forall n: nat, a :: n <= |steps| ==> StoredBy(ApplyAll(d, steps[..n]), a) == StoredBy(d, a)
  }

  lemma QuietConcat(d: Disk, x: seq<Step>, y: seq<Step>)
    requires Quiet(d, x) && Quiet(ApplyAll(d, x), y)
    ensures Quiet(d, x + y)
  {
    assert x[..|x|] == x;
    forall n: nat, a | n <= |x + y| ensures StoredBy(ApplyAll(d, (x + y)[..n]), a) == StoredBy(d, a) {
      hide StoredBy;
      if n <= |x| {
        assert (x + y)[..n] == x[..n];
      } else {
        assert (x + y)[..n] == x + y[..n - |x|];
        ApplyConcat(d, x, y[..n - |x|]);
        assert StoredBy(ApplyAll(d, x[..|x|]), a) == StoredBy(d, a);
        assert StoredBy(ApplyAll(ApplyAll(d, x), y[..n - |x|]), a) == StoredBy(ApplyAll(d, x), a);
      }
    }
  }

  lemma QuietPrefix(d: Disk, steps: seq<Step>, n: nat)
    requires Quiet(d, steps) && n <= |steps|
    ensures Quiet(d, steps[..n])
  {
    hide StoredBy, ApplyAll;
    forall m: nat, a | m <= n ensures StoredBy(ApplyAll(d, steps[..n][..m]), a) == StoredBy(d, a) {
      assert steps[..n][..m] == steps[..m];
    }
  }

  /** The blocks that were read of each shard: all of them, or those before a fault. */
  ghost predicate ReadLists(env: Env, d: Disk, bucket: seq<Shard>, lists: seq<seq<Block>>) {
    |lists| == |bucket| && forall i :: 0 <= i < |bucket| ==> lists[i] <= BlocksOf(env, d, bucket[i])
  }

  lemma PartlyMerged(env: Env, d: Disk, aid: Aid, bucket: seq<Shard>, lists: seq<seq<Block>>)
    requires Durable(env, d) && env.Valid() && Listed(d, aid, bucket) && ReadLists(env, d, bucket, lists)
    ensures Mergeable(env, MergeAll(lists)) && CidsIn(MergeAll(lists)) <= BucketCids(d, bucket)
    ensures lists == BlockLists(env, d, bucket) ==> CidsIn(MergeAll(lists)) == BucketCids(d, bucket)
  {
    MergedCids(env, d, aid, bucket);
    MergeAllKeeps(env, lists);
    var all := BlockLists(env, d, bucket);
    forall c | c in CidsOfAll(lists) ensures c in CidsOfAll(all) {
      var i, j :| 0 <= i < |lists| && 0 <= j < |lists[i]| && lists[i][j].cid == c;
      assert all[i][j].cid == c;
    }
    hide Durable, BlocksOf, MergeAll, Fits;
    forall i | 0 <= i < |lists| ensures AllFit(env, lists[i]) {
      assert AllFit(env, all[i]);
      assert lists[i] <= all[i];
      forall j | 0 <= j < |lists[i]| ensures Fits(env, lists[i][j]) { assert lists[i][j] == all[i][j]; }
    }
  }

  /**
   * One bucket, stopped after n steps: the invariant holds, the rows outside it are untouched,
   * and if every file was read nobody's stored blocks changed.
   */
  lemma BucketSummary(env: Env, d: Disk, aid: Aid, t: nat, bucket: seq<Shard>, lists: seq<seq<Block>>, n: nat)
    requires Compactable(env, d, aid, t, bucket) && SeqUniqueFor(d, aid) && ReadLists(env, d, bucket, lists)
    requires n <= |CompactPlan(env, aid, t, bucket, MergeAll(lists))|
    ensures var plan := CompactPlan(env, aid, t, bucket, MergeAll(lists));
            && SafeSteps(env, d, plan[..n]) && Durable(env, ApplyAll(d, plan[..n]))
            && RowsWithin(d, ApplyAll(d, plan[..n]), aid, Ids(bucket))
            && (n == |plan| ==> SeqUniqueFor(ApplyAll(d, plan[..n]), aid)
                                && forall id :: id in Ids(bucket) ==> id !in ApplyAll(d, plan[..n]).shards)
            && (lists == BlockLists(env, d, bucket) ==> Quiet(d, plan[..n]))
            && OnlyOld(env, d, ApplyAll(d, plan[..n]))
  {
    CompactHolds(env, d, aid, t, bucket, lists, n);
    var merged := MergeAll(lists);
    PartlyMerged(env, d, aid, bucket, lists);
    UniqueNoTwin(env, d, aid, bucket);
    hide Durable, CompactPlan, MergeAll, CidsIn, BucketCids, OutsideCids, Listed, StoredBy, Mergeable, ApplyAll,
         ReadLists, BlockLists, Ids, RowsWithin, SafeSteps, SeqUniqueFor, NoKeyTwin, Quiet, OnlyOld;
    var plan := CompactPlan(env, aid, t, bucket, merged);
    CompactSafe(env, d, aid, t, bucket, merged);
    SafePoint(env, d, plan, n);
    BucketRows(env, d, aid, t, bucket, merged, n);
    if n == |plan| {
      assert plan[..n] == plan;
      RowsWithinUnique(env, d, aid, t, bucket, merged, aid);
    }
    if lists == BlockLists(env, d, bucket) {
      BucketQuiet(env, d, aid, t, bucket, merged, n);
    }
  }

  lemma BucketQuiet(env: Env, d: Disk, aid: Aid, t: nat, bucket: seq<Shard>, merged: seq<Block>, n: nat)
    requires Compactable(env, d, aid, t, bucket) && CidsIn(merged) == BucketCids(d, bucket)
    requires n <= |CompactPlan(env, aid, t, bucket, merged)|
    ensures Quiet(d, CompactPlan(env, aid, t, bucket, merged)[..n])
  {
    CompactViewIff(env, d, aid, t, bucket, merged);
    hide Compactable, CompactPlan, StoredBy, ApplyAll, BucketCids, CidsIn, OutsideCids;
    QuietPrefix(d, CompactPlan(env, aid, t, bucket, merged), n);
  }

  // ----- one step of the merging loop -----

  lemma MergeStep(written: seq<Block>, bs: seq<Block>)
    requires bs != []
    ensures Merge(written, bs) == Merge(if bs[0].cid in CidsIn(written) then written else written + [bs[0]], bs[1..])
  {
  }

  lemma MergeEnd(written: seq<Block>)
    ensures Merge(written, []) == written
  {
  }

  lemma MergeMore(lists: seq<seq<Block>>, bs: seq<Block>)
    ensures MergeAll(lists + [bs]) == Merge(MergeAll(lists), bs)
  {
    assert (lists + [bs])[..|lists|] == lists;
  }

  lemma NoLists()
    ensures MergeAll([]) == []
  {
  }

  lemma ReadFits(env: Env, d: Disk, sh: Shard)
    requires env.Valid()
    ensures AllFit(env, BlocksOf(env, d, sh))
    ensures forall i :: 0 <= i < |BlocksOf(env, d, sh)| ==> Writable(BlocksOf(env, d, sh)[i])
  {
    hide ReadAll, ParseHeader, Fits, Writable;
    if sh.path in d.files {
      var h := ParseHeader(d.files[sh.path], env.limit);
      if h.Got? { ReadAllFits(env, h.rest); }
    }
    FitWritable(env, BlocksOf(env, d, sh));
  }

  lemma HeaderSection(env: Env, root: Cid)
    ensures Section(env.header(root)) == FileHeader(env, root)
  {
  }
}
