/**
 * How CompactActorShards of user_service/internal/car/store.go groups an actor's shards and
 * which groups it merges.
 */
module Buckets {
  import opened Prelude
  import opened Disk

  /** shardStat; its refs field is never read. */
  datatype ShardStat = ShardStat(id: nat, dirty: nat, seqno: nat, total: nat)

  const LOW_BOUND := 20
  const POSITIONS := 10

  function Max(a: int, b: int): int { if a > b then a else b }

  // ----- aggregating the ref rows -----

  function Count(refs: seq<Ref>, id: nat): nat {
    if refs == [] then 0 else Count(refs[..|refs| - 1], id) + if refs[|refs| - 1].shard == id then 1 else 0
  }

  function ShardsIn(refs: seq<Ref>): set<nat> {
    set i | 0 <= i < |refs| :: refs[i].shard
  }

  predicate SeqSorted(stats: seq<ShardStat>) {
    forall i, j :: 0 <= i < j < |stats| ==> stats[i].seqno <= stats[j].seqno
  }

  predicate StatOf(refs: seq<Ref>, shards: map<nat, Shard>, s: ShardStat) {
    s.id in shards && s == ShardStat(s.id, 0, shards[s.id].seqno, Count(refs, s.id)) && s.total > 0
  }

  function StatIds(stats: seq<ShardStat>): set<nat> {
    set i | 0 <= i < |stats| :: stats[i].id
  }

  predicate DistinctIds(stats: seq<ShardStat>) {
    forall i, j :: 0 <= i < j < |stats| ==> stats[i].id != stats[j].id
  }

  /**
   * aggrRefs: one entry for every shard with a ref, by ascending sequence number, counting its
   * refs. Nothing ever marks a block dirty.
   */
  method AggrRefs(refs: seq<Ref>, shards: map<nat, Shard>) returns (out: seq<ShardStat>)
    requires forall i :: 0 <= i < |refs| ==> refs[i].shard in shards
    ensures SeqSorted(out) && DistinctIds(out) && StatIds(out) == ShardsIn(refs)
    ensures forall i :: 0 <= i < |out| ==> StatOf(refs, shards, out[i])
  {
    var byId: map<nat, ShardStat> := map[];
    for n := 0 to |refs|
      invariant byId.Keys == ShardsIn(refs[..n])
      invariant forall id :: id in byId ==> byId[id].id == id && StatOf(refs[..n], shards, byId[id])
    {
      var id := refs[n].shard;
      var s := if id in byId then byId[id] else ShardStat(id, 0, shards[id].seqno, 0);
      CountStep(refs, n);
      assert id !in byId ==> Count(refs[..n], id) == 0 by { if id !in byId { CountNone(refs[..n], id); } }
      byId := byId[id := s.(total := s.total + 1)];
    }
    assert refs[..|refs|] == refs;
    out := [];
    var todo := byId.Keys;
    while todo != {}
      invariant todo <= byId.Keys && StatIds(out) == byId.Keys - todo
      invariant SeqSorted(out) && DistinctIds(out)
      invariant forall i :: 0 <= i < |out| ==> StatOf(refs, shards, out[i])
      decreases todo
    {
      var id :| id in todo;
      out := InsertBySeq(out, byId[id]);
      todo := todo - {id};
    }
  }

  lemma CountStep(refs: seq<Ref>, n: nat)
    requires n < |refs|
    ensures ShardsIn(refs[..n + 1]) == ShardsIn(refs[..n]) + {refs[n].shard}
    ensures forall id :: Count(refs[..n + 1], id) == Count(refs[..n], id) + if refs[n].shard == id then 1 else 0
  {
    var r := refs[..n + 1];
    assert r[..n] == refs[..n] && r[n] == refs[n];
    forall x ensures x in ShardsIn(r) <==> x in ShardsIn(refs[..n]) || x == refs[n].shard {
      if x in ShardsIn(refs[..n]) {
        var i :| 0 <= i < n && refs[..n][i].shard == x;
        assert r[i].shard == x;
      }
      assert r[n].shard == refs[n].shard;
      if x in ShardsIn(r) {
        var i :| 0 <= i < n + 1 && r[i].shard == x;
        assert i < n ==> refs[..n][i].shard == x;
      }
    }
  }

  lemma {:induction false} CountNone(refs: seq<Ref>, id: nat)
    requires id !in ShardsIn(refs)
    ensures Count(refs, id) == 0
  {
    if refs != [] {
      var n := |refs| - 1;
      assert refs[..n + 1] == refs;
      CountStep(refs, n);
      CountNone(refs[..n], id);
    }
  }

  /** The positions of a shard's refs. */
  function Positions(refs: seq<Ref>, id: nat): set<nat> {
    set i: nat | i < |refs| && refs[i].shard == id
  }

  lemma {:induction false} CountMeans(refs: seq<Ref>, id: nat)
    ensures Count(refs, id) == |Positions(refs, id)|
  {
    if refs == [] {
      assert Positions(refs, id) == {};
    } else {
      var n := |refs| - 1;
      CountMeans(refs[..n], id);
      assert Positions(refs, id) == Positions(refs[..n], id) + if refs[n].shard == id then {n} else {};
    }
  }

  /** The positions of the refs of some shards. */
  function Among(refs: seq<Ref>, ids: set<nat>): set<nat> {
    set i: nat | i < |refs| && refs[i].shard in ids
  }

  /** What a bucket is measured by is how many refs its shards have. */
  lemma {:induction false} CleanMeans(refs: seq<Ref>, b: seq<ShardStat>)
    requires DistinctIds(b) && forall i :: 0 <= i < |b| ==> b[i].dirty == 0 && b[i].total == Count(refs, b[i].id)
    ensures Clean(b) == |Among(refs, StatIds(b))|
  {
    if b == [] {
      assert StatIds(b) == {} && Among(refs, {}) == {};
    } else {
      var n := |b| - 1;
      var rest, id := StatIds(b[..n]), b[n].id;
      CleanMeans(refs, b[..n]);
      CountMeans(refs, id);
      assert StatIds(b) == rest + {id};
      assert forall i :: 0 <= i < n ==> b[..n][i].id != id;
      assert Among(refs, StatIds(b)) == Among(refs, rest) + Positions(refs, id);
      assert Among(refs, rest) !! Positions(refs, id);
    }
  }

  method InsertBySeq(stats: seq<ShardStat>, s: ShardStat) returns (r: seq<ShardStat>)
    requires SeqSorted(stats) && DistinctIds(stats) && s.id !in StatIds(stats)
    ensures SeqSorted(r) && DistinctIds(r) && StatIds(r) == StatIds(stats) + {s.id}
    ensures forall i :: 0 <= i < |r| ==> r[i] == s || r[i] in stats
  {
    var i := 0;
    while i < |stats| && stats[i].seqno <= s.seqno
      invariant i <= |stats| && forall j :: 0 <= j < i ==> stats[j].seqno <= s.seqno
    {
      i := i + 1;
    }
    r := stats[..i] + [s] + stats[i..];
    Inserted(stats, i, s);
  }

  lemma Inserted(stats: seq<ShardStat>, i: nat, s: ShardStat)
    requires SeqSorted(stats) && DistinctIds(stats) && s.id !in StatIds(stats) && i <= |stats|
    requires forall j :: 0 <= j < i ==> stats[j].seqno <= s.seqno
    requires i < |stats| ==> stats[i].seqno > s.seqno
    ensures var r := stats[..i] + [s] + stats[i..];
            && SeqSorted(r) && DistinctIds(r) && StatIds(r) == StatIds(stats) + {s.id}
            && forall j :: 0 <= j < |r| ==> r[j] == s || r[j] in stats
  {
    InsertedIds(stats, i, s);
    var r := stats[..i] + [s] + stats[i..];
    assert SeqSorted(r);
    hide SeqSorted;
    assert forall j :: 0 <= j < |stats| ==> stats[j].id in StatIds(stats);
    hide StatIds;
    assert DistinctIds(r);
  }

  lemma InsertedIds(stats: seq<ShardStat>, i: nat, s: ShardStat)
    requires i <= |stats|
    ensures StatIds(stats[..i] + [s] + stats[i..]) == StatIds(stats) + {s.id}
  {
    var r := stats[..i] + [s] + stats[i..];
    assert r[i] == s;
    forall x | x in StatIds(stats) ensures x in StatIds(r) {
      var j :| 0 <= j < |stats| && stats[j].id == x;
      assert r[if j < i then j else j + 1] == stats[j];
    }
  }

  // ----- the buckets -----

  function Halved(tot: nat, i: nat): nat {
    if i == 0 then tot else Halved(tot, i - 1) / 2
  }

  /** The size aimed at by the i-th bucket: half of what is left, and at least the lower bound. */
  function Threshold(tot: nat, i: nat): nat {
    if i >= POSITIONS then LOW_BOUND else Max(Halved(tot, i + 1), LOW_BOUND)
  }

  function Pow2(k: nat): nat {
    if k == 0 then 1 else 2 * Pow2(k - 1)
  }

  lemma {:induction false} HalvedMeans(tot: nat, i: nat, x: nat)
    ensures x > Halved(tot, i) <==> x * Pow2(i) > tot
  {
    if i > 0 {
      var h := Halved(tot, i - 1);
      assert x > h / 2 <==> 2 * x > h;
      HalvedMeans(tot, i - 1, 2 * x);
      TwiceTimes(x, Pow2(i - 1));
    }
  }

  lemma TwiceTimes(x: nat, p: nat)
    ensures 2 * x * p == x * (2 * p)
  {
  }

  /**
   * The i-th bucket is full with more than 20 blocks and, for the first ten, more than the
   * 2^(i+1)-th part of all of them: half for the first, a quarter for the second, and so on.
   */
  lemma ThresholdMeans(tot: nat, i: nat, x: nat)
    ensures x > Threshold(tot, i) <==> x > 20 && (i < 10 ==> x * Pow2(i + 1) > tot)
  {
    hide Halved, Pow2;
    HalvedMeans(tot, i + 1, x);
  }

  method Thresholds(total: nat) returns (threshs: seq<nat>)
    ensures |threshs| == POSITIONS && forall i :: 0 <= i < POSITIONS ==> threshs[i] == Threshold(total, i)
  {
    threshs := [];
    var tot := total;
    for i := 0 to POSITIONS
      invariant |threshs| == i && tot == Halved(total, i)
      invariant forall j :: 0 <= j < i ==> threshs[j] == Threshold(total, j)
    {
      var v := Max(tot / 2, LOW_BOUND);
      tot := tot / 2;
      threshs := threshs + [v];
    }
  }

  function Clean(b: seq<ShardStat>): int {
    if b == [] then 0 else Clean(b[..|b| - 1]) + (b[|b| - 1].total - b[|b| - 1].dirty)
  }

  function Flatten(queue: seq<seq<ShardStat>>): seq<ShardStat> {
    if queue == [] then [] else Flatten(queue[..|queue| - 1]) + queue[|queue| - 1]
  }

  /** The j-th bucket is closed once it holds enough blocks, or reaches the last two shards of n. */
  predicate Full(b: seq<ShardStat>, tot: nat, j: nat, end: nat, n: nat) {
    Clean(b) > Threshold(tot, j) || end + 1 >= n
  }

  /** Bucket j, which starts at index `start` of the n shards, is closed, and was not closed earlier. */
  predicate ClosedBucket(b: seq<ShardStat>, tot: nat, j: nat, start: nat, n: nat) {
    && b != [] && Full(b, tot, j, start + |b|, n)
    && forall k :: 0 < k < |b| ==> !Full(b[..k], tot, j, start + k, n)
  }

  predicate ClosedBuckets(queue: seq<seq<ShardStat>>, tot: nat, n: nat) {
    forall j :: 0 <= j < |queue| ==> ClosedBucket(queue[j], tot, j, |Flatten(queue[..j])|, n)
  }

  /** The running bucket of the loop: not closed yet. */
  predicate OpenBucket(b: seq<ShardStat>, tot: nat, j: nat, start: nat, n: nat) {
    forall k :: 0 < k <= |b| ==> !Full(b[..k], tot, j, start + k, n)
  }

  /** The buckets are consecutive, non-empty, and cut exactly where the thresholds say. */
  method Bucketize(results: seq<ShardStat>, tot: nat) returns (queue: seq<seq<ShardStat>>)
    ensures Flatten(queue) == results && ClosedBuckets(queue, tot, |results|)
  {
    var threshs := Thresholds(tot);
    hide Threshold, Clean, Flatten, OpenBucket, ClosedBucket, ClosedBuckets;
    var cur: seq<ShardStat>, cleanBlocks, expSize := [], 0, threshs[0];
    queue := [];
    NothingYet(tot, |results|);
    assert results[..0] == [];
    for i := 0 to |results|
      invariant Flatten(queue) + cur == results[..i] && ClosedBuckets(queue, tot, |results|)
      invariant cleanBlocks == Clean(cur) && expSize == Threshold(tot, |queue|)
      invariant OpenBucket(cur, tot, |queue|, |Flatten(queue)|, |results|)
      invariant i > 0 && i + 1 >= |results| ==> cur == []
    {
      var r := results[i];
      assert results[..i + 1] == results[..i] + [r];
      assert Flatten(queue) + (cur + [r]) == results[..i + 1];
      OneMoreShard(cur, r, tot, |queue|, |Flatten(queue)|, |results|);
      cur := cur + [r];
      cleanBlocks := cleanBlocks + (r.total - r.dirty);
      if cleanBlocks > expSize || i > |results| - 3 {
        CloseBucket(queue, cur, tot, |results|);
        queue := queue + [cur];
        cur, cleanBlocks := [], 0;
        expSize := if |queue| >= |threshs| then LOW_BOUND else threshs[|queue|];
        BeyondPositions(tot, |queue|);
        EmptyOpen(tot, |queue|, |Flatten(queue)|, |results|);
        assert Flatten(queue) + [] == Flatten(queue);
      }
    }
    assert results[..|results|] == results;
    assert cur == [] ==> Flatten(queue) + cur == Flatten(queue);
    if cur != [] {
      queue := queue + [cur];
    }
  }

  lemma NothingYet(tot: nat, n: nat)
    ensures Flatten([]) + [] == [] && ClosedBuckets([], tot, n) && Clean([]) == 0
    ensures OpenBucket([], tot, 0, |Flatten([])|, n)
  {
  }

  lemma EmptyOpen(tot: nat, j: nat, start: nat, n: nat)
    ensures OpenBucket([], tot, j, start, n)
  {
  }

  lemma BeyondPositions(tot: nat, j: nat)
    ensures j >= POSITIONS ==> Threshold(tot, j) == LOW_BOUND
  {
  }

  lemma CleanSnoc(b: seq<ShardStat>, r: ShardStat)
    ensures Clean(b + [r]) == Clean(b) + (r.total - r.dirty)
  {
    assert (b + [r])[..|b|] == b;
  }

  /** A shard joins the running bucket, which then is either still open or closed. */
  lemma OneMoreShard(b: seq<ShardStat>, r: ShardStat, tot: nat, j: nat, start: nat, n: nat)
    requires OpenBucket(b, tot, j, start, n)
    ensures Clean(b + [r]) == Clean(b) + (r.total - r.dirty)
    ensures if Clean(b + [r]) > Threshold(tot, j) || start + |b| + 2 >= n
            then ClosedBucket(b + [r], tot, j, start, n) else OpenBucket(b + [r], tot, j, start, n)
  {
    CleanSnoc(b, r);
    hide Threshold, Clean;
    var c := b + [r];
    assert c[..|b|] == b && c[..|c|] == c;
    assert forall k :: 0 < k <= |b| ==> c[..k] == b[..k];
  }

  lemma CloseBucket(queue: seq<seq<ShardStat>>, b: seq<ShardStat>, tot: nat, n: nat)
    requires ClosedBuckets(queue, tot, n) && ClosedBucket(b, tot, |queue|, |Flatten(queue)|, n)
    ensures ClosedBuckets(queue + [b], tot, n) && Flatten(queue + [b]) == Flatten(queue) + b
  {
    hide ClosedBucket;
    var q := queue + [b];
    assert q[..|q| - 1] == queue;
    forall j | 0 <= j < |q| ensures ClosedBucket(q[j], tot, j, |Flatten(q[..j])|, n) {
      assert q[..j] == queue[..j];
      assert j == |queue| ==> queue[..j] == queue;
    }
  }

  lemma {:induction false} FlattenConcat(a: seq<seq<ShardStat>>, b: seq<seq<ShardStat>>)
    ensures Flatten(a + b) == Flatten(a) + Flatten(b)
  {
    if b == [] {
      assert a + b == a;
    } else {
      assert (a + b)[..|a + b| - 1] == a + b[..|b| - 1];
      FlattenConcat(a, b[..|b| - 1]);
    }
  }

  lemma FlattenOne(b: seq<ShardStat>)
    ensures Flatten([b]) == b
  {
    assert Flatten([b]) == Flatten([b][..0]) + b;
  }

  lemma SplitSeq<T>(q: seq<T>, k: nat)
    requires k < |q|
    ensures q == q[..k] + ([q[k]] + q[k + 1..])
  {
  }

  lemma SplitAt(q: seq<seq<ShardStat>>, k: nat)
    requires k < |q|
    ensures Flatten(q) == Flatten(q[..k]) + (q[k] + Flatten(q[k + 1..]))
  {
    hide Flatten;
    SplitSeq(q, k);
    FlattenConcat(q[..k], [q[k]] + q[k + 1..]);
    FlattenConcat([q[k]], q[k + 1..]);
    FlattenOne(q[k]);
  }

  /** Two closed buckets cut from the front of the same shards are equal. */
  lemma SameBucket(a: seq<ShardStat>, b: seq<ShardStat>, all: seq<ShardStat>, tot: nat, j: nat, start: nat, n: nat)
    requires a <= all && b <= all
    requires ClosedBucket(a, tot, j, start, n) && ClosedBucket(b, tot, j, start, n)
    ensures a == b
  {
    hide Full;
    var m := if |a| < |b| then |a| else |b|;
    assert a[..m] == all[..m] == b[..m];
    assert a[..|a|] == a && b[..|b|] == b;
  }

  /** The specification leaves no choice: two bucketings of the same shards are equal. */
  lemma {:induction false} BucketsUnique(p: seq<seq<ShardStat>>, q: seq<seq<ShardStat>>, tot: nat, n: nat, k: nat)
    requires Flatten(p) == Flatten(q)
    requires ClosedBuckets(p, tot, n) && ClosedBuckets(q, tot, n)
    requires k <= |p| && k <= |q| && p[..k] == q[..k]
    ensures p == q
    decreases |p| - k
  {
    hide Full, Clean, Flatten;
    assert p[..|p|] == p && q[..|q|] == q;
    if k < |p| && k < |q| {
      SplitAt(p, k);
      SplitAt(q, k);
      var start := |Flatten(p[..k])|;
      var all := Flatten(p)[start..];
      assert all == p[k] + Flatten(p[k + 1..]) == q[k] + Flatten(q[k + 1..]);
      SameBucket(p[k], q[k], all, tot, k, start, n);
      assert p[..k + 1] == p[..k] + [p[k]] && q[..k + 1] == q[..k] + [q[k]];
      BucketsUnique(p, q, tot, n, k + 1);
    } else if k < |p| {
      SplitAt(p, k);
    } else if k < |q| {
      SplitAt(q, k);
    }
  }

  lemma LastTwoFull(b: seq<ShardStat>, tot: nat, j: nat, end: nat, n: nat)
    requires end + 1 >= n
    ensures Full(b, tot, j, end, n)
  {
  }

  /** Bucket j has enough blocks: more than 20 and, among the first ten, more than the 2^(j+1)-th part of all. */
  predicate Enough(blocks: int, tot: nat, j: nat) {
    blocks > 20 && (j < 10 ==> blocks * Pow2(j + 1) > tot)
  }

  /** A bucket is cut as soon as it has enough blocks, or only one shard or none is left. */
  lemma CutWhere(queue: seq<seq<ShardStat>>, tot: nat, n: nat, j: nat)
    requires ClosedBuckets(queue, tot, n) && j < |queue|
    ensures var b, start := queue[j], |Flatten(queue[..j])|;
            && (Enough(Clean(b), tot, j) || start + |b| + 1 >= n)
            && forall k :: 0 < k < |b| ==> !Enough(Clean(b[..k]), tot, j) && start + k + 1 < n
  {
    hide Clean, Flatten, Threshold, Pow2;
    var b := queue[j];
    assert ClosedBucket(b, tot, j, |Flatten(queue[..j])|, n);
    EnoughMeans(Clean(b), tot, j);
    forall k | 0 < k < |b| ensures !Enough(Clean(b[..k]), tot, j) && |Flatten(queue[..j])| + k + 1 < n {
      EnoughMeans(Clean(b[..k]), tot, j);
    }
  }

  lemma EnoughMeans(blocks: int, tot: nat, j: nat)
    ensures Enough(blocks, tot, j) <==> blocks > Threshold(tot, j)
  {
    if blocks >= 0 {
      hide Threshold, Pow2;
      ThresholdMeans(tot, j, blocks);
    }
  }

  /** The newest shard is always alone in the last bucket. */
  lemma NewestAlone(queue: seq<seq<ShardStat>>, tot: nat)
    requires ClosedBuckets(queue, tot, |Flatten(queue)|) && Flatten(queue) != []
    ensures queue != [] && queue[|queue| - 1] == [Flatten(queue)[|Flatten(queue)| - 1]]
  {
    FlattenLast(queue);
    var n, j := |Flatten(queue)|, |queue| - 1;
    var b, start := queue[j], |Flatten(queue[..j])|;
    assert ClosedBucket(b, tot, j, start, n);
    hide Full, Flatten, ClosedBuckets;
    LastTwoFull(b[..|b| - 1], tot, j, start + (|b| - 1), n);
    assert |b| == 1 && b == [b[0]];
  }

  lemma FlattenLast(queue: seq<seq<ShardStat>>)
    requires Flatten(queue) != []
    ensures queue != [] && Flatten(queue) == Flatten(queue[..|queue| - 1]) + queue[|queue| - 1]
  {
  }

  // ----- which buckets are merged -----

  function FracSum(b: seq<ShardStat>): real
    requires forall i :: 0 <= i < |b| ==> b[i].total > 0
  {
    if b == [] then 0.0
    else FracSum(b[..|b| - 1]) + (b[|b| - 1].dirty as real) / (b[|b| - 1].total as real)
  }

  function ShouldCompact(b: seq<ShardStat>): bool
    requires forall i :: 0 <= i < |b| ==> b[i].total > 0
  {
    if b == [] then false
    else if |b| > 5 then true
    else
      var frac := FracSum(b) / (|b| as real);
      (|b| > 3 && frac > 0.2) || frac > 0.4
  }

  lemma {:induction false} NoFraction(b: seq<ShardStat>)
    requires forall i :: 0 <= i < |b| ==> b[i].total > 0 && b[i].dirty == 0
    ensures FracSum(b) == 0.0
  {
    if b != [] { NoFraction(b[..|b| - 1]); }
  }

  /** Since nothing is dirty, a bucket is merged exactly when it holds more than five shards. */
  lemma CompactedIff(b: seq<ShardStat>)
    requires forall i :: 0 <= i < |b| ==> b[i].total > 0 && b[i].dirty == 0
    ensures ShouldCompact(b) <==> |b| > 5
  {
    NoFraction(b);
  }
}
