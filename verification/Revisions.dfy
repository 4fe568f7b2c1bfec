/**
 * Why an actor's revisions increase with its shards: every commit takes its revision from
 * NextTID (user_service/internal/repo/tid.go and repo.go), and later ids are greater strings as
 * long as the clock stays in range.
 */
module Revisions {
  import opened Prelude
  import opened Cids
  import opened CarFile
  import opened Disk
  import opened Writes
  import opened Compaction
  import opened Heads
  import opened ReadCar
  import opened Tid

  /** The revision is the id of a time handed out by then. */
  ghost predicate Stamp(rev: Bytes, last: nat, clockId: nat) {
    exists t: nat :: EARLIEST <= t <= last && rev == TidOf(t, clockId)
  }

  ghost predicate RevsOk(d: Disk, last: nat, clockId: nat) {
    && last < LATEST
    && (forall id :: id in d.shards ==> Stamp(d.shards[id].rev, last, clockId))
    && forall a :: RevsIncrease(d, a)
  }

  lemma StampLess(rev: Bytes, last: nat, t: nat, clockId: nat)
    requires Stamp(rev, last, clockId) && last < t < LATEST
    ensures Lex(rev, TidOf(t, clockId)) && Stamp(rev, t, clockId)
  {
    hide TidOf;
    var u: nat :| EARLIEST <= u <= last && rev == TidOf(u, clockId);
    TidLess(u, t, clockId);
  }

  lemma NoRevs(clockId: nat)
    ensures RevsOk(EMPTY, 0, clockId)
  {
  }

  /** Time passes. */
  lemma LaterRevs(d: Disk, last: nat, t: nat, clockId: nat)
    requires RevsOk(d, last, clockId) && last < t < LATEST
    ensures RevsOk(d, t, clockId)
  {
    hide TidOf, Stamp, Lex;
    forall id | id in d.shards ensures Stamp(d.shards[id].rev, t, clockId) { StampLess(d.shards[id].rev, last, t, clockId); }
  }

  /** A commit whose revision is the id just handed out. */
  lemma CommitRevs(d: Disk, d': Disk, row: Shard, last: nat, t: nat, clockId: nat)
    requires RevsOk(d, last, clockId) && last < t && EARLIEST <= t < LATEST
    requires d'.shards == d.shards[row.id := row] && row.id !in d.shards
    requires FreshSeq(d, row.aid, row.seqno) && row.rev == TidOf(t, clockId)
    ensures RevsOk(d', t, clockId)
  {
    hide TidOf, Lex;
    assert Stamp(row.rev, t, clockId);
    hide Stamp;
    forall id | id in d.shards ensures Stamp(d.shards[id].rev, t, clockId) && Lex(d.shards[id].rev, row.rev) {
      StampLess(d.shards[id].rev, last, t, clockId);
    }
    forall a, i, j | i in RowIds(d', a) && j in RowIds(d', a) && d'.shards[i].seqno < d'.shards[j].seqno
      ensures Lex(d'.shards[i].rev, d'.shards[j].rev)
    {
      assert RevsIncrease(d, a);
      assert i != row.id ==> i in RowIds(d, a);
      assert j != row.id ==> j in RowIds(d, a);
    }
  }

  /** Rows that only go away. */
  lemma FewerRevs(d: Disk, d': Disk, last: nat, clockId: nat)
    requires RevsOk(d, last, clockId) && forall id :: id in d'.shards ==> id in d.shards && d.shards[id] == d'.shards[id]
    ensures RevsOk(d', last, clockId)
  {
    hide Stamp, Lex;
    forall a ensures RevsIncrease(d', a) {
      assert RevsIncrease(d, a);
      assert forall id :: id in RowIds(d', a) ==> id in RowIds(d, a);
    }
  }

  /** Compaction keeps revisions in step with sequence numbers: a merged row has both from a row it replaced. */
  lemma CompactionKeepsRevs(d: Disk, d': Disk, aid: Aid, removed: set<nat>, last: nat, clockId: nat)
    requires RevsOk(d, last, clockId) && RowsWithin(d, d', aid, removed)
    ensures RevsOk(d', last, clockId)
  {
    hide Stamp, Lex, Stands;
    forall id | id in d'.shards ensures Stamp(d'.shards[id].rev, last, clockId) {
      var k := StandIn(d, d', aid, removed, id);
    }
    forall a, i, j | i in RowIds(d', a) && j in RowIds(d', a) && d'.shards[i].seqno < d'.shards[j].seqno
      ensures Lex(d'.shards[i].rev, d'.shards[j].rev)
    {
      var k := StandIn(d, d', aid, removed, i);
      var l := StandIn(d, d', aid, removed, j);
      assert RevsIncrease(d, a);
      assert k in RowIds(d, a) && l in RowIds(d, a);
    }
  }

  lemma StandIn(d: Disk, d': Disk, aid: Aid, removed: set<nat>, id: nat) returns (k: nat)
    requires RowsWithin(d, d', aid, removed) && id in d'.shards
    ensures k in d.shards && d.shards[k].aid == d'.shards[id].aid
    ensures d.shards[k].seqno == d'.shards[id].seqno && d.shards[k].rev == d'.shards[id].rev
  {
    if id in d.shards {
      k := id;
    } else {
      assert Replaces(d, removed, aid, d'.shards[id]);
      k :| k in removed && Stands(d, k, d'.shards[id]);
    }
  }
}
