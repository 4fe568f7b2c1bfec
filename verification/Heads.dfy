/**
 * The newest shard of an actor: the queries of user_service/internal/car/meta.go that find it,
 * what the last-shard cache must agree with, and what a commit does to it.
 */
module Heads {
  import opened Prelude
  import opened Cids
  import opened CarFile
  import opened Disk
  import opened Writes
  import opened Compaction

  // ----- the newest shard -----

  function RowIds(d: Disk, aid: Aid): set<nat> {
    set id | id in d.shards && d.shards[id].aid == aid
  }

  /** A row of the actor with the highest sequence number. */
  predicate IsLast(d: Disk, aid: Aid, sh: Shard) {
    && sh.id in d.shards && d.shards[sh.id] == sh && sh.aid == aid
    && forall id :: id in d.shards && d.shards[id].aid == aid ==> d.shards[id].seqno <= sh.seqno
  }

  /** What GetLastShard may answer. */
  predicate LastOf(d: Disk, aid: Aid, sh: Shard) {
    if sh == NO_SHARD then forall id :: id in d.shards ==> d.shards[id].aid != aid else IsLast(d, aid, sh)
  }

  /** Actor 0 is left out: the zero shard cached for any actor without shards is filed under it. */
  predicate CacheOk(cache: map<Aid, Shard>, d: Disk) {
    forall a :: a in cache && a != 0 ==> IsLast(d, a, cache[a])
  }

  /** The cached answer for the actor, if there is one, is right. */
  predicate CachedRight(cache: map<Aid, Shard>, d: Disk, aid: Aid) {
    aid in cache ==> LastOf(d, aid, cache[aid])
  }

  /** Nothing, or the answer just given, was added to the cache. */
  predicate CachedAfter(before: map<Aid, Shard>, after: map<Aid, Shard>, aid: Aid, last: Shard) {
    after == if aid in before then before else before[last.aid := last]
  }

  predicate FreshSeq(d: Disk, aid: Aid, sq: nat) {
    forall id :: id in d.shards && d.shards[id].aid == aid ==> d.shards[id].seqno < sq
  }

  lemma NextSeqFresh(env: Env, d: Disk, aid: Aid, sh: Shard)
    requires LastOf(d, aid, sh)
    ensures FreshSeq(d, aid, sh.seqno + 1)
  {
  }

  lemma FreshUnreferenced(env: Env, d: Disk, aid: Aid, sq: nat)
    requires Durable(env, d) && FreshSeq(d, aid, sq)
    ensures !Referenced(d, Key(aid, sq))
  {
    hide IsShardFile, RefsOfFile, RefsOf;
    forall id | id in d.shards ensures d.shards[id].path != Key(aid, sq) { assert RowOk(env, d, id); }
  }

  predicate Ascending(shs: seq<Shard>) {
    forall i, j :: 0 <= i < j < |shs| ==> shs[i].seqno <= shs[j].seqno
  }

  /** The last shard of the rows in the set. */
  method Highest(d: Disk, ids: set<nat>) returns (best: nat)
    requires ids != {} && forall id :: id in ids ==> id in d.shards
    ensures best in ids && forall id :: id in ids ==> d.shards[id].seqno <= d.shards[best].seqno
  {
    best :| best in ids;
    var todo := ids;
    while todo != {}
      invariant todo <= ids && best in ids
      invariant forall id :: id in ids && id !in todo ==> d.shards[id].seqno <= d.shards[best].seqno
      decreases todo
    {
      var id :| id in todo;
      if d.shards[id].seqno > d.shards[best].seqno { best := id; }
      todo := todo - {id};
    }
  }

  /** GetActorShards: the actor's rows, ascending by sequence number, in any order among equals. */
  method QueryShards(env: Env, d: Disk, aid: Aid) returns (shs: seq<Shard>)
    requires forall id :: id in d.shards ==> d.shards[id].id == id
    ensures Listed(d, aid, shs) && Ascending(shs) && Ids(shs) == RowIds(d, aid)
  {
    shs := [];
    var todo := RowIds(d, aid);
    assert Ids(shs) == {};
    hide Listed, Ascending, Ids;
    while todo != {}
      invariant todo <= RowIds(d, aid) && Ids(shs) == RowIds(d, aid) - todo
      invariant Listed(d, aid, shs) && Ascending(shs)
      invariant forall id, i :: id in todo && 0 <= i < |shs| ==> d.shards[id].seqno <= shs[i].seqno
      decreases todo
    {
      var id := Highest(d, todo);
      var sh := d.shards[id];
      PutFirst(d, aid, sh, shs);
      shs := [sh] + shs;
      todo := todo - {id};
    }
  }

  lemma PutFirst(d: Disk, aid: Aid, sh: Shard, shs: seq<Shard>)
    requires Listed(d, aid, shs) && Ascending(shs) && sh.id in d.shards && d.shards[sh.id] == sh && sh.aid == aid
    requires sh.id !in Ids(shs) && forall i :: 0 <= i < |shs| ==> sh.seqno <= shs[i].seqno
    ensures Listed(d, aid, [sh] + shs) && Ascending([sh] + shs) && Ids([sh] + shs) == Ids(shs) + {sh.id}
  {
    IdsConcat([sh], shs);
    assert Ids([sh]) == {sh.id} by { assert [sh][0] == sh; }
    assert forall i :: 0 <= i < |shs| ==> shs[i].id in Ids(shs);
  }

  lemma RowsHaveIds(env: Env, d: Disk)
    requires Durable(env, d) && env.Valid()
    ensures forall id :: id in d.shards ==> d.shards[id].id == id > 0 && d.shards[id].root.Some?
  {
    hide IsShardFile, RefsOfFile, RefsOf;
    forall id | id in d.shards ensures d.shards[id].id == id > 0 { assert RowOk(env, d, id); }
    forall id | id in d.shards ensures d.shards[id].root.Some? { RootKnown(env, d, id); }
  }

  // ----- what the store is after a write -----

  lemma LastAfterWrite(env: Env, d: Disk, root: Cid, rev: Bytes, aid: Aid, sq: nat, order: seq<Block>, cache: map<Aid, Shard>)
    requires Durable(env, d) && FreshSeq(d, aid, sq) && CacheOk(cache, d)
    ensures var d' := ApplyAll(d, WritePlan(env, root, rev, aid, sq, Key(aid, sq), order));
            var row := NewRow(env, root, rev, aid, sq, Key(aid, sq)).(id := d.nextId);
            && IsLast(d', aid, row) && CacheOk(cache[aid := row], d')
            && forall a :: SeqUniqueFor(d, a) ==> SeqUniqueFor(d', a)
  {
    hide Durable, ApplyAll, WritePlan, FileHeader, ShardFile, Marks, RefsFor, StoredBy, CidsIn;
    WriteEffect(env, d, root, rev, aid, sq, Key(aid, sq), order);
    NextIdUnused(env, d);
    var row := NewRow(env, root, rev, aid, sq, Key(aid, sq)).(id := d.nextId);
    NewestRow(d, ApplyAll(d, WritePlan(env, root, rev, aid, sq, Key(aid, sq), order)), row, cache);
  }

  lemma NewestRow(d: Disk, d': Disk, row: Shard, cache: map<Aid, Shard>)
    requires d'.shards == d.shards[row.id := row] && row.id !in d.shards
    requires FreshSeq(d, row.aid, row.seqno) && CacheOk(cache, d)
    ensures IsLast(d', row.aid, row) && CacheOk(cache[row.aid := row], d')
    ensures forall a :: SeqUniqueFor(d, a) ==> SeqUniqueFor(d', a)
  {
    assert IsLast(d', row.aid, row);
    forall a | a in cache && a != 0 && a != row.aid ensures IsLast(d', a, cache[a]) {
      assert IsLast(d, a, cache[a]);
    }
    forall a | SeqUniqueFor(d, a) ensures SeqUniqueFor(d', a) {
      hide CacheOk, IsLast;
    }
  }

  lemma PartWrite(env: Env, d: Disk, root: Cid, rev: Bytes, aid: Aid, sq: nat, path: Path, order: seq<Block>, n: nat)
    requires n <= 2
    ensures var plan := WritePlan(env, root, rev, aid, sq, path, order);
            var d' := ApplyAll(d, plan[..n]);
            && (n == 2 ==> plan[..n] == plan)
            && (n < 2 ==> d'.shards == d.shards && d'.refs == d.refs && d'.nextId == d.nextId)
            && (n == 0 ==> d' == d)
            && (n == 1 ==> d' == Apply(d, plan[0]))
  {
    hide ShardFile, Marks, FileHeader;
    var plan := WritePlan(env, root, rev, aid, sq, path, order);
    if n == 0 {
      assert plan[..n] == [];
    } else if n == 1 {
      assert plan[..n] == [plan[0]];
      OneStep(d, plan[0]);
    }
  }

  lemma PlanSteps(env: Env, root: Cid, rev: Bytes, aid: Aid, sq: nat, path: Path, order: seq<Block>)
    ensures WritePlan(env, root, rev, aid, sq, path, order)
            == [PutFile(path, ShardFile(env, root, order)),
                InsertRows(Shard(0, Some(root), |FileHeader(env, root)|, sq, path, aid, rev), Marks(env, root, order))]
  {
  }

  lemma WriteOk(env: Env, d: Disk, root: Cid, rev: Bytes, aid: Aid, sq: nat, order: seq<Block>, cache: map<Aid, Shard>, n: nat)
    requires env.Valid() && Durable(env, d) && CacheOk(cache, d) && FreshSeq(d, aid, sq)
    requires Distinct(order) && AllFit(env, order) && n <= 2
    ensures var plan := WritePlan(env, root, rev, aid, sq, Key(aid, sq), order);
            var row := NewRow(env, root, rev, aid, sq, Key(aid, sq)).(id := d.nextId);
            && SafeSteps(env, d, plan) && Durable(env, ApplyAll(d, plan[..n]))
            && CacheOk(if n == 2 then cache[aid := row] else cache, ApplyAll(d, plan[..n]))
  {
    hide Durable, AllFit, Distinct, ApplyAll, FileHeader, ShardFile, Writable, Marks, CacheOk, SafeSteps, FreshSeq,
         Referenced, WritePlan, NewRow;
    var plan := WritePlan(env, root, rev, aid, sq, Key(aid, sq), order);
    FreshUnreferenced(env, d, aid, sq);
    FitWritable(env, order);
    WriteSafeIff(env, d, root, rev, aid, sq, Key(aid, sq), order);
    PlanSteps(env, root, rev, aid, sq, Key(aid, sq), order);
    SafePoint(env, d, plan, n);
    LastAfterWrite(env, d, root, rev, aid, sq, order, cache);
    PartWrite(env, d, root, rev, aid, sq, Key(aid, sq), order, n);
    if n < 2 { SameRows(cache, d, ApplyAll(d, plan[..n])); }
  }

  /** A write that stopped before its rows were there keeps the store valid, whatever its blocks are. */
  lemma UnfinishedOk(env: Env, d: Disk, root: Cid, rev: Bytes, aid: Aid, sq: nat, order: seq<Block>, cache: map<Aid, Shard>, n: nat)
    requires env.Valid() && Durable(env, d) && CacheOk(cache, d) && FreshSeq(d, aid, sq) && n < 2
    ensures var d' := ApplyAll(d, WritePlan(env, root, rev, aid, sq, Key(aid, sq), order)[..n]);
            Durable(env, d') && CacheOk(cache, d')
  {
    hide Durable, ApplyAll, ShardFile, CacheOk, FreshSeq, Referenced, WritePlan;
    FreshUnreferenced(env, d, aid, sq);
    PlanSteps(env, root, rev, aid, sq, Key(aid, sq), order);
    PartWrite(env, d, root, rev, aid, sq, Key(aid, sq), order, n);
    PutFileKeeps(env, d, Key(aid, sq), ShardFile(env, root, order));
    SameRows(cache, d, ApplyAll(d, WritePlan(env, root, rev, aid, sq, Key(aid, sq), order)[..n]));
  }

  lemma SameRows(cache: map<Aid, Shard>, d: Disk, d': Disk)
    requires CacheOk(cache, d) && d'.shards == d.shards
    ensures CacheOk(cache, d')
  {
  }

  // ----- wiping -----

  lemma ApplySnoc(d: Disk, plan: seq<Step>, m: nat)
    requires m < |plan|
    ensures ApplyAll(d, plan[..m + 1]) == Apply(ApplyAll(d, plan[..m]), plan[m])
  {
    hide Apply;
    assert plan[..m + 1] == plan[..m] + [plan[m]];
    ApplyConcat(d, plan[..m], [plan[m]]);
    OneStep(ApplyAll(d, plan[..m]), plan[m]);
  }

  lemma NoDeletes(aid: Aid)
    ensures DeletePlan(aid, []) == []
  {
  }

  /** The two steps of the next chunk, inside the whole plan. */
  lemma NextChunk(aid: Aid, shs: seq<Shard>, i: nat, sl: seq<Shard>, plan: seq<Step>, m: nat)
    requires i < |shs| && m <= |plan| && plan == plan[..m] + DeletePlan(aid, shs[i..])
    requires sl == if |shs| - i > CHUNK then shs[i..][..CHUNK] else shs[i..]
    ensures m + 2 <= |plan| && plan[m] == DeleteRows(Ids(sl)) && plan[m + 1] == DeleteFiles(aid, Seqs(sl))
    ensures i + |sl| <= |shs| && plan == plan[..m + 2] + DeletePlan(aid, shs[i + |sl|..])
  {
    hide Ids, Seqs;
    var rest := DeletePlan(aid, shs[i..]);
    assert shs[i..][|sl|..] == shs[i + |sl|..] && shs[i..][..|sl|] == sl;
    assert rest == [DeleteRows(Ids(sl)), DeleteFiles(aid, Seqs(sl))] + DeletePlan(aid, shs[i + |sl|..]);
    hide DeletePlan;
    assert forall k :: 0 <= k < |rest| ==> plan[m + k] == rest[k];
  }

  /** A wipe that did m steps of its plan. */
  lemma Wiped(env: Env, d: Disk, aid: Aid, shs: seq<Shard>, m: nat, cache: map<Aid, Shard>)
    requires env.Valid() && Durable(env, d) && Listed(d, aid, shs) && Ids(shs) == RowIds(d, aid) && CacheOk(cache, d)
    requires m <= |DeletePlan(aid, shs)|
    ensures var d' := ApplyAll(d, DeletePlan(aid, shs)[..m]);
            && (forall a :: a != aid ==> RowIds(d', a) == RowIds(d, a) && StoredBy(d', a) == StoredBy(d, a))
            && (SeqUniqueFor(d, aid) ==> SafeSteps(env, d, DeletePlan(aid, shs)) && Durable(env, d'))
            && (m == |DeletePlan(aid, shs)| ==>
                  d' == Without(d, aid, shs) && RowIds(d', aid) == {} && StoredBy(d', aid) == {} && CacheOk(cache - {aid}, d'))
  {
    var plan := DeletePlan(aid, shs);
    var d' := ApplyAll(d, plan[..m]);
    BucketStored(env, d, aid, shs);
    hide Durable, ApplyAll, DeletePlan, SafeSteps;
    if SeqUniqueFor(d, aid) {
      UniqueNoTwin(env, d, aid, shs);
      DeleteSafe(env, d, aid, shs);
      SafePoint(env, d, plan, m);
    }
    OthersKept(env, d, aid, shs, m);
    if m == |plan| {
      assert plan[..m] == plan;
      DeleteEffect(env, d, aid, shs);
      WipedCache(d, d', aid, cache);
      assert StoredBy(d', aid) == {} by { NothingStored(env, d, aid, shs); }
    }
  }

  lemma WipeHolds(env: Env, d: Disk, aid: Aid, shs: seq<Shard>, m: nat)
    requires m <= |DeletePlan(aid, shs)|
    ensures OnlyOld(env, d, ApplyAll(d, DeletePlan(aid, shs)[..m]))
  {
    hide DeletePlan, ApplyAll, OnlyOld;
    DeletePlanDeletes(aid, shs);
    DeletesHold(env, d, DeletePlan(aid, shs)[..m]);
  }

  lemma NothingStored(env: Env, d: Disk, aid: Aid, shs: seq<Shard>)
    requires Durable(env, d) && Ids(shs) == RowIds(d, aid)
    ensures StoredBy(Without(d, aid, shs), aid) == {}
  {
    hide Durable, Ids;
    forall r | r in Without(d, aid, shs).refs ensures r.aid != aid { RefAid(env, d, r); }
  }

  lemma WipedCache(d: Disk, d': Disk, aid: Aid, cache: map<Aid, Shard>)
    requires CacheOk(cache, d) && d'.shards == d.shards - RowIds(d, aid)
    ensures CacheOk(cache - {aid}, d') && RowIds(d', aid) == {}
  {
    forall a | a in cache && a != aid && a != 0 ensures IsLast(d', a, cache[a]) {
      assert IsLast(d, a, cache[a]);
    }
  }

  lemma OthersKept(env: Env, d: Disk, aid: Aid, shs: seq<Shard>, m: nat)
    requires Durable(env, d) && Listed(d, aid, shs) && Ids(shs) == RowIds(d, aid) && m <= |DeletePlan(aid, shs)|
    ensures var d' := ApplyAll(d, DeletePlan(aid, shs)[..m]);
            forall a :: a != aid ==> RowIds(d', a) == RowIds(d, a) && StoredBy(d', a) == StoredBy(d, a)
  {
    hide Durable, DeletePlan, ApplyAll, Listed, Ids;
    var d' := ApplyAll(d, DeletePlan(aid, shs)[..m]);
    BucketStored(env, d, aid, shs);
    DeletePrefixRefs(env, d, aid, shs, m);
    if shs != [] { LastRowGoes(env, d, aid, shs, m); } else { NoSteps(d); NoDeletes(aid); }
    forall a | a != aid ensures RowIds(d', a) == RowIds(d, a) && StoredBy(d', a) == StoredBy(d, a) {
      OtherStored(d, d', aid, shs, a);
    }
  }

  lemma OtherStored(d: Disk, d': Disk, aid: Aid, shs: seq<Shard>, a: Aid)
    requires a != aid && Without(d, aid, shs).refs <= d'.refs <= d.refs
    requires forall r :: r in d.refs && r.shard in Ids(shs) ==> r.aid == aid
    ensures StoredBy(d', a) == StoredBy(d, a)
  {
    hide Ids;
    forall c | c in StoredBy(d, a) ensures c in StoredBy(d', a) {
      var r :| r in d.refs && r.aid == a && r.cid == c;
      assert r in Without(d, aid, shs).refs;
    }
  }

  /** When a wipe stops, the cached shard is stale exactly if its row was in a chunk already deleted. */
  lemma StoppedWipe(env: Env, d: Disk, aid: Aid, shs: seq<Shard>, m: nat, cache: map<Aid, Shard>)
    requires Durable(env, d) && Listed(d, aid, shs) && Ids(shs) == RowIds(d, aid) && Ascending(shs)
    requires SeqUniqueFor(d, aid) && CacheOk(cache, d) && aid in cache && aid != 0 && m <= |DeletePlan(aid, shs)|
    ensures CacheOk(cache, ApplyAll(d, DeletePlan(aid, shs)[..m])) <==> m + 1 < |DeletePlan(aid, shs)|
  {
    var sh := cache[aid];
    assert sh.id in Ids(shs);
    var i :| 0 <= i < |shs| && shs[i].id == sh.id;
    assert Newest(shs) == sh by { LastIsCached(d, aid, shs, sh, i); }
    LastRowGoes(env, d, aid, shs, m);
    OthersKept(env, d, aid, shs, m);
    var d' := ApplyAll(d, DeletePlan(aid, shs)[..m]);
    hide Durable, DeletePlan, ApplyAll, Listed, Ids, StoredBy, Ascending;
    if sh.id in d'.shards {
      forall a | a in cache && a != 0 ensures IsLast(d', a, cache[a]) {
        assert IsLast(d, a, cache[a]);
        if a != aid { assert cache[a].id in RowIds(d, a) && RowIds(d, a) == RowIds(d', a); }
      }
    } else {
      assert !IsLast(d', aid, sh);
    }
  }

  lemma LastIsCached(d: Disk, aid: Aid, shs: seq<Shard>, sh: Shard, i: nat)
    requires Listed(d, aid, shs) && Ascending(shs) && SeqUniqueFor(d, aid) && IsLast(d, aid, sh) && i < |shs| && shs[i].id == sh.id
    ensures Newest(shs) == sh
  {
    var last := Newest(shs);
    assert d.shards[last.id] == last && last.aid == aid && shs[i] == sh;
    assert last.seqno <= sh.seqno;
    assert sh.seqno <= last.seqno;
  }
}
