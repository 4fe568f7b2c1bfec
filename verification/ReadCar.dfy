/**
 * Exporting an actor's repository as one CAR stream (ReadActorCar of
 * user_service/internal/car/store.go, with SeqForRev and GetActorShardsDesc of meta.go).
 */
module ReadCar {
  import opened Prelude
  import opened Cids
  import opened CarFile
  import opened Disk
  import opened Writes
  import opened Compaction
  import opened Heads

  // ----- the queries -----

  /** rev >= since, in Go's (and the C collation's) string order. */
  predicate AtOrAfter(rev: Bytes, since: Bytes) { rev == since || Lex(since, rev) }

  /** A row of the actor at or after the revision, and none of those is at an earlier revision. */
  ghost predicate EarliestSince(d: Disk, aid: Aid, since: Bytes, sh: Shard) {
    && sh.id in d.shards && d.shards[sh.id] == sh && sh.aid == aid && AtOrAfter(sh.rev, since)
    && forall id :: id in d.shards && d.shards[id].aid == aid && AtOrAfter(d.shards[id].rev, since) ==> AtOrAfter(d.shards[id].rev, sh.rev)
  }

  predicate Descending(shs: seq<Shard>) {
    forall i, j :: 0 <= i < j < |shs| ==> shs[i].seqno >= shs[j].seqno
  }

  function RowsFrom(d: Disk, aid: Aid, minSeq: nat): set<nat> {
    set id | id in RowIds(d, aid) && d.shards[id].seqno >= minSeq
  }

  /** SeqForRev: the first of the rows at or after the revision, by revision; an error if there is none. */
  method SeqForRev(env: Env, d: Disk, aid: Aid, since: Bytes) returns (r: Option<nat>, ghost sh: Shard, ghost fault: bool)
    requires forall id :: id in d.shards ==> d.shards[id].id == id
    ensures r.Some? ==> EarliestSince(d, aid, since, sh) && r.value == sh.seqno
    ensures r.Some? ==> exists id :: id in RowIds(d, aid) && EarliestSince(d, aid, since, d.shards[id]) && r.value == d.shards[id].seqno
    ensures r.None? && !fault && since != [] ==> NothingSince(d, aid, since)
    ensures fault ==> r.None? && env.faulty
  {
    hide Lex;
    var broken := Fails(env);
    sh, fault := NO_SHARD, broken;
    if broken { return None, sh, fault; }
    var rows := set id | id in RowIds(d, aid) && AtOrAfter(d.shards[id].rev, since);
    assert forall id :: id in d.shards && d.shards[id].aid == aid ==> id in RowIds(d, aid);
    if rows == {} {
      assert forall id :: id in RowIds(d, aid) && AtOrAfter(d.shards[id].rev, since) ==> id in rows;
      return None, sh, fault;
    }
    var best :| best in rows;
    var todo := rows;
    while todo != {}
      invariant todo <= rows && best in rows
      invariant forall id :: id in rows && id !in todo ==> AtOrAfter(d.shards[id].rev, d.shards[best].rev)
      decreases todo
    {
      var id :| id in todo;
      ghost var was := best;
      if !AtOrAfter(d.shards[id].rev, d.shards[best].rev) { best := id; }
      todo := todo - {id};
      Ordered(d.shards[id].rev, d.shards[was].rev, d.shards[was].rev);
      forall k | k in rows && k !in todo ensures AtOrAfter(d.shards[k].rev, d.shards[best].rev) {
        Ordered(d.shards[k].rev, d.shards[was].rev, d.shards[best].rev);
      }
    }
    sh := d.shards[best];
    return Some(d.shards[best].seqno), sh, fault;
  }

  lemma Ordered(a: Bytes, b: Bytes, c: Bytes)
    ensures AtOrAfter(a, b) && AtOrAfter(b, c) ==> AtOrAfter(a, c)
    ensures AtOrAfter(a, b) || AtOrAfter(b, a)
    ensures AtOrAfter(a, b) && AtOrAfter(b, a) ==> a == b
  {
    hide Lex;
    LexTotal(a, b);
    if Lex(c, b) && Lex(b, a) { LexTransitive(c, b, a); }
    if Lex(a, b) && Lex(b, a) { LexTransitive(a, b, a); LexIrreflexive(a); }
  }

  predicate Exported(d: Disk, aid: Aid, minSeq: nat, shs: seq<Shard>) {
    Listed(d, aid, shs) && Descending(shs) && Ids(shs) == RowsFrom(d, aid, minSeq)
  }

  /** GetActorShardsDesc. */
  method QueryShardsDesc(d: Disk, aid: Aid, minSeq: nat) returns (shs: seq<Shard>)
    requires forall id :: id in d.shards ==> d.shards[id].id == id
    ensures Exported(d, aid, minSeq, shs)
  {
    shs := [];
    var todo := RowsFrom(d, aid, minSeq);
    assert Ids(shs) == {};
    hide Listed, Descending, Ids;
    EmptyList(d, aid);
    while todo != {}
      invariant todo <= RowsFrom(d, aid, minSeq) && Ids(shs) == RowsFrom(d, aid, minSeq) - todo
      invariant Listed(d, aid, shs) && Descending(shs)
      invariant forall id, i :: id in todo && 0 <= i < |shs| ==> d.shards[id].seqno <= shs[i].seqno
      decreases todo
    {
      var id := Highest(d, todo);
      PutLast(d, aid, d.shards[id], shs);
      shs := shs + [d.shards[id]];
      todo := todo - {id};
    }
  }

  lemma EmptyList(d: Disk, aid: Aid)
    ensures Listed(d, aid, []) && Descending([])
  {
  }

  lemma PutLast(d: Disk, aid: Aid, sh: Shard, shs: seq<Shard>)
    requires Listed(d, aid, shs) && Descending(shs) && sh.id in d.shards && d.shards[sh.id] == sh && sh.aid == aid
    requires sh.id !in Ids(shs) && forall i :: 0 <= i < |shs| ==> sh.seqno <= shs[i].seqno
    ensures Listed(d, aid, shs + [sh]) && Descending(shs + [sh]) && Ids(shs + [sh]) == Ids(shs) + {sh.id}
  {
    IdsConcat(shs, [sh]);
    assert Ids([sh]) == {sh.id} by { assert [sh][0] == sh; }
    assert forall i :: 0 <= i < |shs| ==> shs[i].id in Ids(shs);
  }

  // ----- the stream -----

  /** The blocks of the shards, one after the other. */
  function AllBlocks(env: Env, d: Disk, shs: seq<Shard>): seq<Block> {
    if shs == [] then [] else AllBlocks(env, d, shs[..|shs| - 1]) + BlocksOf(env, d, shs[|shs| - 1])
  }

  /** The blocks of the first shard come first. */
  lemma {:induction false} AllBlocksFirst(env: Env, d: Disk, shs: seq<Shard>)
    requires shs != []
    ensures AllBlocks(env, d, shs) == BlocksOf(env, d, shs[0]) + AllBlocks(env, d, shs[1..])
  {
    hide BlocksOf;
    var n := |shs| - 1;
    if n == 0 {
      assert AllBlocks(env, d, shs[..0]) == [] && AllBlocks(env, d, shs[1..]) == [];
    } else {
      AllBlocksFirst(env, d, shs[..n]);
      assert shs[..n][1..] == shs[1..][..n - 1] && shs[1..][n - 1] == shs[n];
    }
  }

  predicate HasBlocks(env: Env, d: Disk, shs: seq<Shard>) {
    forall i :: 0 <= i < |shs| ==> BlocksOf(env, d, shs[i]) != []
  }

  /** A ranged request; one that starts at the end of the file is refused. */
  method ReadRange(env: Env, d: Disk, path: Path, offset: nat) returns (r: Option<Bytes>, ghost fault: bool)
    ensures r.Some? ==> path in d.files && offset < |d.files[path]| && r.value == d.files[path][offset..]
    ensures r.None? && !fault && path in d.files ==> offset >= |d.files[path]|
    ensures fault ==> r.None? && env.faulty
  {
    var broken := Fails(env);
    fault := broken;
    if broken || path !in d.files || offset >= |d.files[path]| { return None, fault; }
    return Some(d.files[path][offset..]), fault;
  }

  lemma ShardTail(env: Env, d: Disk, sh: Shard)
    requires Durable(env, d) && env.Valid() && sh.id in d.shards && d.shards[sh.id] == sh
    ensures sh.path in d.files && sh.dataStart <= |d.files[sh.path]|
    ensures d.files[sh.path][sh.dataStart..] == Frames(BlocksOf(env, d, sh))
    ensures sh.dataStart == |d.files[sh.path]| <==> BlocksOf(env, d, sh) == []
  {
    hide FileHeader, BlocksIn, AllFit, Distinct, RefsOf, RefsOfFile, Frame, BlocksOf;
    assert RowOk(env, d, sh.id);
    BlocksOfRow(env, d, sh);
    var bs := BlocksOf(env, d, sh);
    assert d.files[sh.path] == FileHeader(env, sh.root.value) + Frames(bs);
    if bs != [] { FrameLength(bs[0]); }
  }

  /** The shards to export, newest first; none when there is nothing to export or a query failed. */
  method ChooseShards(env: Env, d: Disk, actor: Aid, sinceRev: Bytes)
    returns (shs: seq<Shard>, ghost early: Option<Shard>, ghost fault: bool)
    requires Durable(env, d) && env.Valid()
    ensures early.Some? ==> sinceRev != [] && EarliestSince(d, actor, sinceRev, early.value)
    ensures shs != [] ==> (early.None? ==> sinceRev == []) && Exported(d, actor, FirstSeq(early), shs)
    ensures shs != [] ==> shs[0].root.Some? && IsLast(d, actor, shs[0]) && Listed(d, actor, shs)
    ensures shs == [] && !fault ==> NothingSince(d, actor, sinceRev)
    ensures fault ==> shs == [] && env.faulty
  {
    RowsHaveIds(env, d);
    hide Durable, Listed, Descending, Ids, EarliestSince, AtOrAfter, IsLast, RowIds, Exported, NothingSince;
    early, shs := None, [];
    var earlySeq: nat := 0;
    if sinceRev != [] {
      var s;
      ghost var row;
      s, row, fault := SeqForRev(env, d, actor, sinceRev);
      if s.None? { return; }
      earlySeq := s.value;
      early := Some(row);
    }
    var broken := Fails(env);
    fault := broken;
    if broken { return; }
    shs := QueryShardsDesc(d, actor, earlySeq);
    NewestFirst(d, actor, early, sinceRev, earlySeq, shs);
    ListedRows(d, actor, shs);
  }

  /** The first sequence number to export: that of the earliest shard since the revision, if one is given. */
  function FirstSeq(early: Option<Shard>): nat { if early.Some? then early.value.seqno else 0 }

  /** The loop over writeShardBlocks: the files from their data start on. */
  method CopyShards(env: Env, d: Disk, ghost actor: Aid, shards: seq<Shard>, out: Buffer) returns (ok: bool, ghost fault: bool)
    requires Durable(env, d) && env.Valid() && Listed(d, actor, shards)
    modifies out
    ensures ok ==> out.bytes == old(out.bytes) + Frames(AllBlocks(env, d, shards))
    ensures !ok && !fault ==> !HasBlocks(env, d, shards)
    ensures fault ==> !ok && env.faulty
  {
    ListedRows(d, actor, shards);
    NoFrames(env, d, shards);
    hide Durable, Listed, BlocksOf, Streamed, Frames, HasBlocks, AllBlocks;
    ok, fault := false, false;
    for i := 0 to |shards|
      invariant out.bytes == old(out.bytes) + Streamed(env, d, shards, i)
    {
      ShardTail(env, d, shards[i]);
      var body, cut := ReadRange(env, d, shards[i].path, shards[i].dataStart);
      if body.None? {
        fault := cut;
        if !cut { EmptyShard(env, d, shards, i); }
        return;
      }
      MoreBlocks(env, d, shards, i);
      out.bytes := out.bytes + body.value;
    }
    StreamedAll(env, d, shards);
    ok := true;
  }

  /** What the loop has written after i shards. */
  function Streamed(env: Env, d: Disk, shs: seq<Shard>, i: nat): Bytes
    requires i <= |shs|
  {
    Frames(AllBlocks(env, d, shs[..i]))
  }

  lemma StreamedAll(env: Env, d: Disk, shs: seq<Shard>)
    ensures Streamed(env, d, shs, |shs|) == Frames(AllBlocks(env, d, shs))
  {
    assert shs[..|shs|] == shs;
  }

  /**
   * ReadActorCar over the store's tables and files. On success the stream is one header with the
   * head's root and the blocks of all shards from the revision on, newest first. Without a fault
   * it fails exactly when there is no shard at or after the revision, or one holds no block.
   */
  method ReadActorCar(env: Env, d: Disk, actor: Aid, sinceRev: Bytes, out: Buffer)
    returns (ok: bool, ghost early: Option<Shard>, ghost shs: seq<Shard>, ghost fault: bool)
    requires Durable(env, d) && env.Valid()
    modifies out
    ensures early.Some? ==> sinceRev != [] && EarliestSince(d, actor, sinceRev, early.value)
    ensures ok ==> (early.None? ==> sinceRev == []) && Exported(d, actor, FirstSeq(early), shs)
    ensures ok ==> shs != [] && shs[0].root.Some? && IsLast(d, actor, shs[0])
    ensures ok ==> out.bytes == old(out.bytes) + ShardFile(env, shs[0].root.value, AllBlocks(env, d, shs))
    ensures !ok && !fault ==> NothingSince(d, actor, sinceRev) || (Listed(d, actor, shs) && !HasBlocks(env, d, shs))
    ensures fault ==> !ok && env.faulty
  {
    hide Durable, Listed, Descending, Ids, BlocksOf, AllBlocks, FileHeader, Frames, EarliestSince, HasBlocks,
         AtOrAfter, IsLast, RowIds, ShardFile, Exported, NothingSince, Section, HeaderCbor, Concat, FirstSeq;
    ok := false;
    var shards;
    shards, early, fault := ChooseShards(env, d, actor, sinceRev);
    shs := shards;
    if shards == [] { return; }
    ListedRows(d, actor, shs);
    var root := shards[0].root.value;
    HeaderShort(root);
    ConcatOne(env.header(root));
    HeaderSection(env, root);
    var hnw := LdWrite(out, [env.header(root)]);
    ok, fault := CopyShards(env, d, actor, shards, out);
    WholeStream(env, root, AllBlocks(env, d, shs), old(out.bytes));
  }

  /** Nothing to export: no shard, or none at or after the revision. */
  ghost predicate NothingSince(d: Disk, aid: Aid, since: Bytes) {
    forall id :: id in RowIds(d, aid) ==> since != [] && !AtOrAfter(d.shards[id].rev, since)
  }

  lemma EmptyShard(env: Env, d: Disk, shs: seq<Shard>, i: nat)
    requires i < |shs| && BlocksOf(env, d, shs[i]) == []
    ensures !HasBlocks(env, d, shs)
  {
  }

  lemma ListedRows(d: Disk, aid: Aid, shs: seq<Shard>)
    requires Listed(d, aid, shs)
    ensures forall i :: 0 <= i < |shs| ==> shs[i].id in d.shards && d.shards[shs[i].id] == shs[i] && shs[i].aid == aid
  {
  }

  lemma NoFrames(env: Env, d: Disk, shs: seq<Shard>)
    ensures Streamed(env, d, shs, 0) == []
  {
    assert shs[..0] == [];
  }

  lemma WholeStream(env: Env, root: Cid, bs: seq<Block>, before: Bytes)
    ensures before + FileHeader(env, root) + Frames(bs) == before + ShardFile(env, root, bs)
  {
    hide FileHeader, Frames;
  }

  lemma MoreBlocks(env: Env, d: Disk, shs: seq<Shard>, i: nat)
    requires i < |shs|
    ensures forall before: Bytes :: before + Streamed(env, d, shs, i + 1) == (before + Streamed(env, d, shs, i)) + Frames(BlocksOf(env, d, shs[i]))
  {
    hide Frames, BlocksOf;
    assert shs[..i + 1][..i] == shs[..i];
    FramesConcat(AllBlocks(env, d, shs[..i]), BlocksOf(env, d, shs[i]));
  }

  /** The first listed shard is the actor's head, and the list is empty only without shards. */
  lemma NewestFirst(d: Disk, aid: Aid, early: Option<Shard>, since: Bytes, minSeq: nat, shs: seq<Shard>)
    requires Exported(d, aid, minSeq, shs)
    requires if early.Some? then EarliestSince(d, aid, since, early.value) && minSeq == early.value.seqno else minSeq == 0
    ensures Listed(d, aid, shs) && (shs != [] ==> IsLast(d, aid, shs[0]))
    ensures shs == [] ==> NothingSince(d, aid, since)
  {
    if early.Some? { assert early.value.id in RowsFrom(d, aid, minSeq); }
    if shs != [] {
      forall id | id in d.shards && d.shards[id].aid == aid ensures d.shards[id].seqno <= shs[0].seqno {
        assert shs[0].id in Ids(shs);
        if d.shards[id].seqno >= minSeq {
          assert id in RowsFrom(d, aid, minSeq);
          var i :| 0 <= i < |shs| && shs[i].id == id;
        }
      }
    } else {
      assert RowsFrom(d, aid, minSeq) == {};
      if early.None? {
        forall id | id in RowIds(d, aid) ensures id in RowsFrom(d, aid, minSeq) {}
      }
    }
  }

  // ----- what the stream means -----

  lemma {:induction false} AllBlocksFit(env: Env, d: Disk, aid: Aid, shs: seq<Shard>)
    requires Durable(env, d) && env.Valid() && Listed(d, aid, shs)
    ensures AllFit(env, AllBlocks(env, d, shs))
  {
    if shs != [] {
      var n := |shs| - 1;
      hide Durable, BlocksOf, Fits;
      assert Listed(d, aid, shs[..n]);
      AllBlocksFit(env, d, aid, shs[..n]);
      RootKnown(env, d, shs[n].id);
      hide AllFit, Distinct, Listed;
      FitConcat(env, AllBlocks(env, d, shs[..n]), BlocksOf(env, d, shs[n]));
    }
  }

  lemma FitConcat(env: Env, a: seq<Block>, b: seq<Block>)
    requires AllFit(env, a) && AllFit(env, b)
    ensures AllFit(env, a + b)
  {
    hide Fits;
  }

  /** The exported stream parses back to the head's root and the listed shards' blocks, cleanly. */
  lemma ExportRoundTrip(env: Env, d: Disk, aid: Aid, shs: seq<Shard>)
    requires Durable(env, d) && env.Valid() && Listed(d, aid, shs) && shs != [] && shs[0].root.Some?
    ensures var all := AllBlocks(env, d, shs);
            && ParseHeader(ShardFile(env, shs[0].root.value, all), env.limit) == Got(shs[0].root.value, Frames(all))
            && ReadAll(env, Frames(all)) == Blocks(all, true)
  {
    hide Durable, AllBlocks, ParseHeader, ReadAll, FileHeader, Frames, AllFit, Listed;
    AllBlocksFit(env, d, aid, shs);
    ShardRoundTrip(env, shs[0].root.value, AllBlocks(env, d, shs));
  }

  lemma {:induction false} AllBlocksCids(env: Env, d: Disk, shs: seq<Shard>, c: Cid)
    ensures c in CidsIn(AllBlocks(env, d, shs)) <==> exists i :: 0 <= i < |shs| && c in CidsIn(BlocksOf(env, d, shs[i]))
  {
    hide BlocksOf;
    if shs == [] {
      assert CidsIn(AllBlocks(env, d, shs)) == {};
    } else {
      var n := |shs| - 1;
      AllBlocksCids(env, d, shs[..n], c);
      CidsUnionOf(AllBlocks(env, d, shs[..n]), BlocksOf(env, d, shs[n]));
      hide CidsIn, AllBlocks;
      if i :| 0 <= i < n && c in CidsIn(BlocksOf(env, d, shs[..n][i])) { assert shs[i] == shs[..n][i]; }
      if i :| 0 <= i < |shs| && c in CidsIn(BlocksOf(env, d, shs[i])) { assert i < n ==> shs[i] == shs[..n][i]; }
    }
  }

  lemma CidsUnionOf(a: seq<Block>, b: seq<Block>)
    ensures CidsIn(a + b) == CidsIn(a) + CidsIn(b)
  {
    var r := a + b;
    forall c ensures c in CidsIn(r) <==> c in CidsIn(a) + CidsIn(b) {
      if c in CidsIn(a) { var i :| 0 <= i < |a| && a[i].cid == c; assert r[i].cid == c; }
      if c in CidsIn(b) { var i :| 0 <= i < |b| && b[i].cid == c; assert r[|a| + i].cid == c; }
    }
  }

  /** Later shards have later revisions. */
  predicate RevsIncrease(d: Disk, aid: Aid) {
    forall i, j :: i in RowIds(d, aid) && j in RowIds(d, aid) && d.shards[i].seqno < d.shards[j].seqno ==>
      Lex(d.shards[i].rev, d.shards[j].rev)
  }

  /**
   * If revisions increase with the sequence numbers, the export since a revision holds exactly the
   * shards at or after it, so exactly the blocks those shards hold.
   */
  lemma ExportSince(env: Env, d: Disk, aid: Aid, since: Bytes, early: Shard, shs: seq<Shard>, c: Cid)
    requires Durable(env, d) && env.Valid() && SeqUniqueFor(d, aid) && RevsIncrease(d, aid)
    requires EarliestSince(d, aid, since, early) && Exported(d, aid, early.seqno, shs)
    ensures forall id :: id in Ids(shs) <==> id in RowIds(d, aid) && AtOrAfter(d.shards[id].rev, since)
    ensures c in CidsIn(AllBlocks(env, d, shs)) <==>
              exists r :: r in d.refs && r.cid == c && r.shard in RowIds(d, aid) && AtOrAfter(d.shards[r.shard].rev, since)
  {
    forall id ensures id in Ids(shs) <==> id in RowIds(d, aid) && AtOrAfter(d.shards[id].rev, since) {
      if id in RowIds(d, aid) { SinceIff(d, aid, since, early, d.shards[id]); }
    }
    AllBlocksCids(env, d, shs, c);
    ListedRows(d, aid, shs);
    hide Durable, Listed, Descending, AllBlocks, BlocksOf, CidsIn, RevsIncrease, EarliestSince, SeqUniqueFor, Lex;
    if c in CidsIn(AllBlocks(env, d, shs)) {
      var i :| 0 <= i < |shs| && c in CidsIn(BlocksOf(env, d, shs[i]));
      RowCids(env, d, shs[i], c);
      var r :| r in d.refs && r.shard == shs[i].id && r.cid == c;
      assert r.shard in Ids(shs);
    }
    if r :| r in d.refs && r.cid == c && r.shard in RowIds(d, aid) && AtOrAfter(d.shards[r.shard].rev, since) {
      assert r.shard in Ids(shs);
      var i :| 0 <= i < |shs| && shs[i].id == r.shard;
      RowCids(env, d, shs[i], c);
    }
  }

  lemma SinceIff(d: Disk, aid: Aid, since: Bytes, early: Shard, sh: Shard)
    requires EarliestSince(d, aid, since, early) && RevsIncrease(d, aid) && SeqUniqueFor(d, aid)
    requires sh.id in d.shards && d.shards[sh.id] == sh && sh.aid == aid
    ensures sh.seqno >= early.seqno <==> AtOrAfter(sh.rev, since)
  {
    assert sh.id in RowIds(d, aid) && early.id in RowIds(d, aid);
    hide Lex;
    Ordered(sh.rev, early.rev, since);
    Ordered(early.rev, sh.rev, early.rev);
    if sh.seqno < early.seqno { LexIrreflexive(sh.rev); }
  }
}
