/**
 * The write sequences of the store as lists of atomic steps (user_service/internal/car/store.go):
 * writing a shard, and deleting shards chunk by chunk. A sequence is safe when the tables and the
 * files agree after each of its steps, so that it may stop anywhere.
 */
module Writes {
  import opened Prelude
  import opened Cids
  import opened CarFile
  import opened Disk

  // ----- safe sequences -----

  /** The step keeps the invariant and overwrites no file a row names. */
  ghost predicate SafeStep(env: Env, d: Disk, s: Step) {
    Durable(env, Apply(d, s)) && (s.PutFile? ==> !Referenced(d, s.path))
  }

  ghost predicate SafeSteps(env: Env, d: Disk, steps: seq<Step>)
    decreases |steps|
  {
    steps == [] || (SafeStep(env, d, steps[0]) && SafeSteps(env, Apply(d, steps[0]), steps[1..]))
  }

  /** What safety means: wherever the sequence stops, and whatever it writes next. */
  lemma {:induction false} SafePoint(env: Env, d: Disk, steps: seq<Step>, n: nat)
    requires Durable(env, d) && SafeSteps(env, d, steps) && n <= |steps|
    ensures SafeSteps(env, d, steps[..n]) && Durable(env, ApplyAll(d, steps[..n]))
    ensures n < |steps| && steps[n].PutFile? ==> !Referenced(ApplyAll(d, steps[..n]), steps[n].path)
    decreases n
  {
    hide Durable, Apply, Referenced;
    if n > 0 {
      assert steps[..n][0] == steps[0] && steps[..n][1..] == steps[1..][..n - 1];
      SafePoint(env, Apply(d, steps[0]), steps[1..], n - 1);
    }
  }

  lemma {:induction false} SafeConcat(env: Env, d: Disk, a: seq<Step>, b: seq<Step>)
    requires SafeSteps(env, d, a) && SafeSteps(env, ApplyAll(d, a), b)
    ensures SafeSteps(env, d, a + b)
    decreases |a|
  {
    hide SafeStep, Apply;
    if a == [] {
      assert a + b == b;
    } else {
      assert (a + b)[1..] == a[1..] + b;
      SafeConcat(env, Apply(d, a[0]), a[1..], b);
    }
  }

  lemma TwoSteps(env: Env, d: Disk, s1: Step, s2: Step)
    ensures ApplyAll(d, [s1, s2]) == Apply(Apply(d, s1), s2)
    ensures SafeSteps(env, d, [s1, s2]) == (SafeStep(env, d, s1) && SafeStep(env, Apply(d, s1), s2))
  {
    hide Apply, SafeStep;
    var steps := [s1, s2];
    assert steps[1..] == [s2] && [s2][1..] == [];
    var d1 := Apply(d, s1);
    assert ApplyAll(d1, [s2]) == ApplyAll(Apply(d1, s2), []);
    assert SafeSteps(env, d1, [s2]) == SafeStep(env, d1, s2);
  }

  // ----- writing a shard -----

  function NewRow(env: Env, root: Cid, rev: Bytes, aid: Aid, sq: nat, path: Path): Shard {
    Shard(0, Some(root), |FileHeader(env, root)|, sq, path, aid, rev)
  }

  /** The file first, then its rows. */
  function WritePlan(env: Env, root: Cid, rev: Bytes, aid: Aid, sq: nat, path: Path, order: seq<Block>): seq<Step> {
    [PutFile(path, ShardFile(env, root, order)),
     InsertRows(NewRow(env, root, rev, aid, sq, path), Marks(env, root, order))]
  }

  predicate PathFor(path: Path, aid: Aid, sq: nat) {
    path != NoPath && (path.Key? ==> path == Key(aid, sq))
  }

  /** Writing a shard is safe exactly when no row names its path and every block can be read back. */
  lemma WriteSafeIff(env: Env, d: Disk, root: Cid, rev: Bytes, aid: Aid, sq: nat, path: Path, order: seq<Block>)
    requires Durable(env, d) && env.Valid() && PathFor(path, aid, sq)
    requires Distinct(order) && forall i :: 0 <= i < |order| ==> Writable(order[i])
    ensures SafeSteps(env, d, WritePlan(env, root, rev, aid, sq, path, order)) <==> AllFit(env, order) && !Referenced(d, path)
  {
    var plan := WritePlan(env, root, rev, aid, sq, path, order);
    var d1 := Apply(d, plan[0]);
    var d2 := Apply(d1, plan[1]);
    NextIdUnused(env, d);
    TwoSteps(env, d, plan[0], plan[1]);
    if Referenced(d, path) { return; }
    assert !Referenced(d1, path) by { hide Durable; }
    hide ShardFile, FileHeader, Marks, AllFit, Distinct, Durable, SafeSteps, Referenced, IsShardFile;
    PutFileKeeps(env, d, path, ShardFile(env, root, order));
    if AllFit(env, order) {
      InsertRowsKeeps(env, d1, NewRow(env, root, rev, aid, sq, path), order);
    } else {
      NotShardFile(env, root, order);
      assert d2.files[path] == ShardFile(env, root, order);
      if Durable(env, d2) {
        DurableRow(env, d2, d.nextId);
      }
    }
  }

  lemma DurableRow(env: Env, d: Disk, id: nat)
    requires Durable(env, d) && id in d.shards
    ensures RowOk(env, d, id)
  {
    hide RowOk;
  }

  lemma NotShardFile(env: Env, root: Cid, order: seq<Block>)
    requires !AllFit(env, order) && forall i :: 0 <= i < |order| ==> Writable(order[i])
    ensures !IsShardFile(env, ShardFile(env, root, order), Some(root), |FileHeader(env, root)|)
  {
    hide FileHeader, ReadAll, Writable, AllFit, Frame, Distinct;
    FramesRead(env, order);
    var file := ShardFile(env, root, order);
    assert file[|FileHeader(env, root)|..] == Frames(order);
    var n := FitPrefix(env, order);
    assert order == order[..n] + order[n..];
    FramesConcat(order[..n], order[n..]);
    FrameLength(order[n]);
    assert |Frames(order[n..])| > 0;
    assert BlocksIn(env, file, |FileHeader(env, root)|) == order[..n];
  }

  /** The new shard's row gets the next id; its blocks become stored, for its actor only. */
  lemma WriteEffect(env: Env, d: Disk, root: Cid, rev: Bytes, aid: Aid, sq: nat, path: Path, order: seq<Block>)
    ensures var d' := ApplyAll(d, WritePlan(env, root, rev, aid, sq, path, order));
            && d'.files == d.files[path := ShardFile(env, root, order)]
            && d'.shards == d.shards[d.nextId := NewRow(env, root, rev, aid, sq, path).(id := d.nextId)]
            && d'.nextId == d.nextId + 1
            && d'.refs == d.refs + RefsFor(d.nextId, aid, Marks(env, root, order))
            && forall a :: StoredBy(d', a) == StoredBy(d, a) + (if a == aid then CidsIn(order) else {})
  {
    var plan := WritePlan(env, root, rev, aid, sq, path, order);
    var marks := Marks(env, root, order);
    var d' := Apply(Apply(d, plan[0]), plan[1]);
    TwoSteps(env, d, plan[0], plan[1]);
    hide ShardFile, FileHeader, ApplyAll, Marks;
    assert d'.refs == d.refs + RefsFor(d.nextId, aid, marks);
    forall a ensures StoredBy(d', a) == StoredBy(d, a) + (if a == aid then CidsIn(order) else {}) {
      NewlyStored(env, root, d.nextId, aid, order);
      StoredUnion(d, d', RefsFor(d.nextId, aid, marks), a);
    }
  }

  function RefCids(refs: set<Ref>, a: Aid): set<Cid> {
    set r | r in refs && r.aid == a :: r.cid
  }

  lemma StoredUnion(d: Disk, d': Disk, refs: set<Ref>, a: Aid)
    requires d'.refs == d.refs + refs
    ensures StoredBy(d', a) == StoredBy(d, a) + RefCids(refs, a)
  {
    var x, y, z := StoredBy(d', a), StoredBy(d, a), RefCids(refs, a);
    forall c ensures c in x <==> c in y + z {
      if c in x {
        var r :| r in d'.refs && r.aid == a && r.cid == c;
      }
    }
  }

  lemma NewlyStored(env: Env, root: Cid, id: nat, aid: Aid, order: seq<Block>)
    ensures forall a :: RefCids(RefsFor(id, aid, Marks(env, root, order)), a) == if a == aid then CidsIn(order) else {}
  {
    var marks := Marks(env, root, order);
    assert |marks| == |order| && forall i :: 0 <= i < |marks| ==> marks[i].cid == order[i].cid;
    hide Marks;
    var refs := RefsFor(id, aid, marks);
    forall c ensures c in CidsIn(order) <==> c in RefCids(refs, aid) {
      if c in CidsIn(order) {
        var i :| 0 <= i < |order| && order[i].cid == c;
        assert Ref(marks[i].cid, id, marks[i].offset, aid) in refs;
      }
      if c in RefCids(refs, aid) {
        var r :| r in refs && r.aid == aid && r.cid == c;
        var i :| 0 <= i < |marks| && r == Ref(marks[i].cid, id, marks[i].offset, aid);
        assert order[i].cid == c;
      }
    }
  }

  /** Nothing new is held: what a disk holds, another held before. */
  ghost predicate OnlyOld(env: Env, d: Disk, d': Disk) {
    forall b :: Held(env, d', b) ==> Held(env, d, b)
  }

  /** Writing a shard adds its blocks, once its rows are there, and no others. */
  lemma WriteHeld(env: Env, d: Disk, root: Cid, rev: Bytes, aid: Aid, sq: nat, path: Path, order: seq<Block>, n: nat, b: Block)
    requires Durable(env, d) && env.Valid() && !Referenced(d, path) && n <= 2 && (n == 2 ==> AllFit(env, order))
    requires Held(env, ApplyAll(d, WritePlan(env, root, rev, aid, sq, path, order)[..n]), b)
    ensures Held(env, d, b) || (n == 2 && b in order)
  {
    if n == 2 {
      assert WritePlan(env, root, rev, aid, sq, path, order)[..2] == WritePlan(env, root, rev, aid, sq, path, order)
        by { hide ShardFile, FileHeader, Marks; }
      hide Durable, Held, Referenced, WritePlan, ApplyAll, AllFit;
      WrittenHeld(env, d, root, rev, aid, sq, path, order, b);
    } else {
      hide Durable, Held, Referenced, ShardFile, FileHeader, Marks;
      var plan := WritePlan(env, root, rev, aid, sq, path, order);
      if n == 0 {
        assert plan[..n] == [];
      } else {
        assert plan[..n] == [plan[0]];
        assert ApplyAll(d, [plan[0]]) == Apply(d, plan[0]) by { assert [plan[0]][1..] == []; }
        PutHeld(env, d, path, ShardFile(env, root, order), b);
      }
    }
  }

  lemma PutHeld(env: Env, d: Disk, path: Path, bytes: Bytes, b: Block)
    requires !Referenced(d, path) && Held(env, Apply(d, PutFile(path, bytes)), b)
    ensures Held(env, d, b)
  {
    hide BlocksIn;
    var d' := Apply(d, PutFile(path, bytes));
    var id :| id in d'.shards && HeldIn(env, d', id, b);
    assert d.shards[id].path != path;
    assert HeldIn(env, d, id, b);
  }

  lemma WrittenHeld(env: Env, d: Disk, root: Cid, rev: Bytes, aid: Aid, sq: nat, path: Path, order: seq<Block>, b: Block)
    requires Durable(env, d) && env.Valid() && !Referenced(d, path) && AllFit(env, order)
    requires Held(env, ApplyAll(d, WritePlan(env, root, rev, aid, sq, path, order)), b)
    ensures Held(env, d, b) || b in order
  {
    hide BlocksIn, ShardFile, FileHeader, Marks, AllFit, RefsFor, Durable, HeldIn, WritePlan, ApplyAll, Held, Referenced;
    NextIdUnused(env, d);
    BlocksOfFile(env, root, order);
    WriteEffect(env, d, root, rev, aid, sq, path, order);
    HeldWithFile(env, d, ApplyAll(d, WritePlan(env, root, rev, aid, sq, path, order)), path, d.nextId, root, order, b);
  }

  lemma HeldWithFile(env: Env, d: Disk, d': Disk, path: Path, id0: nat, root: Cid, order: seq<Block>, b: Block)
    requires !Referenced(d, path) && Held(env, d', b)
    requires forall p :: p in d'.files && p != path ==> p in d.files && d'.files[p] == d.files[p]
    requires forall id :: id in d'.shards && id in d.shards && id != id0 ==> d'.shards[id] == d.shards[id]
    requires forall id :: id in d'.shards ==> id in d.shards || id == id0
    requires id0 in d'.shards && id0 !in d.shards ==> path in d'.files && d'.files[path] == ShardFile(env, root, order)
    requires id0 in d'.shards && id0 !in d.shards ==> d'.shards[id0].path == path && d'.shards[id0].dataStart == |FileHeader(env, root)|
    requires id0 in d'.shards && id0 in d.shards ==> d'.shards[id0] == d.shards[id0]
    requires id0 in d'.shards && id0 !in d.shards ==> BlocksIn(env, ShardFile(env, root, order), |FileHeader(env, root)|) == order
    ensures Held(env, d, b) || (id0 in d'.shards && id0 !in d.shards && b in order)
  {
    hide BlocksIn, ShardFile, FileHeader;
    var id :| id in d'.shards && HeldIn(env, d', id, b);
    if id in d.shards {
      assert d.shards[id].path != path;
      assert HeldIn(env, d, id, b);
    }
  }

  // ----- deleting shards -----

  const CHUNK := 2000

  function Ids(shs: seq<Shard>): set<nat> { set i | 0 <= i < |shs| :: shs[i].id }

  function Seqs(shs: seq<Shard>): set<nat> { set i | 0 <= i < |shs| :: shs[i].seqno }

  function Take(shs: seq<Shard>): (k: nat)
    ensures k <= |shs| && (shs != [] ==> k > 0)
  {
    if |shs| > CHUNK then CHUNK else |shs|
  }

  /** Chunk by chunk: the rows first, then the files, addressed by actor and sequence number. */
  function DeletePlan(aid: Aid, shs: seq<Shard>): seq<Step>
    decreases |shs|
  {
    if shs == [] then [] else
    var k := Take(shs);
    [DeleteRows(Ids(shs[..k])), DeleteFiles(aid, Seqs(shs[..k]))] + DeletePlan(aid, shs[k..])
  }

  /** A list of rows of the actor, each once. */
  predicate Listed(d: Disk, aid: Aid, shs: seq<Shard>) {
    && (forall i :: 0 <= i < |shs| ==> shs[i].id in d.shards && d.shards[shs[i].id] == shs[i] && shs[i].aid == aid)
    && forall i, j :: 0 <= i < j < |shs| ==> shs[i].id != shs[j].id
  }

  /** No other row names a file that is deleted with the listed rows. */
  predicate NoKeyTwin(d: Disk, aid: Aid, shs: seq<Shard>) {
    forall i, id :: 0 <= i < |shs| && id in d.shards && d.shards[id].path == Key(aid, shs[i].seqno) ==> id == shs[i].id
  }

  predicate SeqUniqueFor(d: Disk, aid: Aid) {
    forall i, j :: i in d.shards && j in d.shards && i != j && d.shards[i].aid == aid && d.shards[j].aid == aid ==>
      d.shards[i].seqno != d.shards[j].seqno
  }

  lemma UniqueNoTwin(env: Env, d: Disk, aid: Aid, shs: seq<Shard>)
    requires Durable(env, d) && SeqUniqueFor(d, aid) && Listed(d, aid, shs)
    ensures NoKeyTwin(d, aid, shs)
  {
    hide IsShardFile, RefsOfFile, RefsOf;
    forall i, id | 0 <= i < |shs| && id in d.shards && d.shards[id].path == Key(aid, shs[i].seqno) ensures id == shs[i].id {
      assert RowOk(env, d, id);
    }
  }

  /** The disk without the listed shards. */
  function Without(d: Disk, aid: Aid, shs: seq<Shard>): Disk {
    Disk(map p | p in d.files && !(p.Key? && p.aid == aid && p.seqno in Seqs(shs)) :: d.files[p],
         d.shards - Ids(shs),
         (set r | r in d.refs && r.shard !in Ids(shs)),
         d.nextId)
  }

  lemma {:induction false} DeleteEffect(env: Env, d: Disk, aid: Aid, shs: seq<Shard>)
    ensures ApplyAll(d, DeletePlan(aid, shs)) == Without(d, aid, shs)
    decreases |shs|
  {
    if shs == [] {
      assert Without(d, aid, shs) == d;
    } else {
      var k := Take(shs);
      var a, b := shs[..k], shs[k..];
      var chunk := [DeleteRows(Ids(a)), DeleteFiles(aid, Seqs(a))];
      ApplyConcat(d, chunk, DeletePlan(aid, b));
      ChunkEffect(env, d, aid, a);
      DeleteEffect(env, Without(d, aid, a), aid, b);
      WithoutBoth(d, aid, a, b);
      assert a + b == shs;
    }
  }

  lemma ChunkEffect(env: Env, d: Disk, aid: Aid, a: seq<Shard>)
    ensures ApplyAll(d, [DeleteRows(Ids(a)), DeleteFiles(aid, Seqs(a))]) == Without(d, aid, a)
  {
    hide Ids, Seqs;
    TwoSteps(env, d, DeleteRows(Ids(a)), DeleteFiles(aid, Seqs(a)));
  }

  lemma IdsConcat(a: seq<Shard>, b: seq<Shard>)
    ensures Ids(a + b) == Ids(a) + Ids(b) && Seqs(a + b) == Seqs(a) + Seqs(b)
  {
    var c := a + b;
    forall x ensures x in Ids(c) <==> x in Ids(a) + Ids(b) {
      if x in Ids(a) { var i :| 0 <= i < |a| && a[i].id == x; assert c[i].id == x; }
      if x in Ids(b) { var i :| 0 <= i < |b| && b[i].id == x; assert c[|a| + i].id == x; }
    }
    forall x ensures x in Seqs(c) <==> x in Seqs(a) + Seqs(b) {
      if x in Seqs(a) { var i :| 0 <= i < |a| && a[i].seqno == x; assert c[i].seqno == x; }
      if x in Seqs(b) { var i :| 0 <= i < |b| && b[i].seqno == x; assert c[|a| + i].seqno == x; }
    }
  }

  lemma WithoutBoth(d: Disk, aid: Aid, a: seq<Shard>, b: seq<Shard>)
    ensures Without(Without(d, aid, a), aid, b) == Without(d, aid, a + b)
  {
    IdsConcat(a, b);
    hide Ids, Seqs;
    var x, y := Without(Without(d, aid, a), aid, b), Without(d, aid, a + b);
    assert x.refs == y.refs;
    assert x.shards == y.shards;
    assert x.files == y.files;
  }

  /** Deleting listed shards is safe at every point when no other row shares one of their keys. */
  lemma {:induction false} DeleteSafe(env: Env, d: Disk, aid: Aid, shs: seq<Shard>)
    requires Durable(env, d) && Listed(d, aid, shs) && NoKeyTwin(d, aid, shs)
    ensures SafeSteps(env, d, DeletePlan(aid, shs))
    decreases |shs|
  {
    hide Durable;
    if shs != [] {
      var k := Take(shs);
      var a, b := shs[..k], shs[k..];
      assert a + b == shs;
      var chunk := [DeleteRows(Ids(a)), DeleteFiles(aid, Seqs(a))];
      ChunkSafeIff(env, d, aid, a);
      ChunkEffect(env, d, aid, a);
      var d' := Without(d, aid, a);
      SafePoint(env, d, chunk, 2);
      assert chunk[..2] == chunk;
      StillListed(d, aid, a, b);
      DeleteSafe(env, d', aid, b);
      SafeConcat(env, d, chunk, DeletePlan(aid, b));
    }
  }

  lemma StillListed(d: Disk, aid: Aid, a: seq<Shard>, b: seq<Shard>)
    requires Listed(d, aid, a + b) && NoKeyTwin(d, aid, a + b)
    ensures Listed(Without(d, aid, a), aid, b) && NoKeyTwin(Without(d, aid, a), aid, b)
  {
    var c := a + b;
    var d' := Without(d, aid, a);
    forall i | 0 <= i < |b| ensures b[i].id in d'.shards && d'.shards[b[i].id] == b[i] && b[i].aid == aid {
      assert c[|a| + i] == b[i];
      forall k | 0 <= k < |a| ensures a[k].id != b[i].id { assert c[k] == a[k]; }
    }
    forall i, j | 0 <= i < j < |b| ensures b[i].id != b[j].id {
      assert c[|a| + i] == b[i] && c[|a| + j] == b[j];
    }
    forall i, id | 0 <= i < |b| && id in d'.shards && d'.shards[id].path == Key(aid, b[i].seqno) ensures id == b[i].id {
      assert c[|a| + i] == b[i];
    }
  }

  /** One chunk is safe exactly when no other row names a file it deletes. */
  lemma ChunkSafeIff(env: Env, d: Disk, aid: Aid, a: seq<Shard>)
    requires Durable(env, d)
    ensures var outside := forall id, i :: id in d.shards && 0 <= i < |a| && d.shards[id].path == Key(aid, a[i].seqno) ==> id in Ids(a);
            SafeSteps(env, d, [DeleteRows(Ids(a)), DeleteFiles(aid, Seqs(a))]) <==> outside
    ensures Listed(d, aid, a) && NoKeyTwin(d, aid, a) ==>
              forall id, i :: id in d.shards && 0 <= i < |a| && d.shards[id].path == Key(aid, a[i].seqno) ==> id in Ids(a)
  {
    var s1, s2 := DeleteRows(Ids(a)), DeleteFiles(aid, Seqs(a));
    var d1 := Apply(d, s1);
    TwoSteps(env, d, s1, s2);
    hide Durable, SafeSteps;
    DeleteRowsKeeps(env, d, Ids(a));
    DeleteFilesKeepsIff(env, d1, aid, Seqs(a));
    if KeysFree(d1, aid, Seqs(a)) {
      forall id, i | id in d.shards && 0 <= i < |a| && d.shards[id].path == Key(aid, a[i].seqno) ensures id in Ids(a) {
        assert a[i].seqno in Seqs(a);
        assert id in Ids(a) || id in d1.shards;
      }
    } else {
      var id :| id in d1.shards && d1.shards[id].path.Key? && d1.shards[id].path.aid == aid && d1.shards[id].path.seqno in Seqs(a);
      var i :| 0 <= i < |a| && a[i].seqno == d1.shards[id].path.seqno;
      assert d.shards[id].path == Key(aid, a[i].seqno) && id !in Ids(a);
    }
  }
}
