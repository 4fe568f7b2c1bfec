/**
 * The repo manager (user_service/internal/repo/manager.go) over the CAR store: every operation
 * that writes records acts on one map from path to record per actor, commits it as one new shard,
 * and otherwise leaves what is persisted alone. The operations of one actor run under its lock.
 */
module Managers {
  import opened Prelude
  import opened Cids
  import opened CarFile
  import opened Disk
  import opened Writes
  import opened Compaction
  import opened Heads
  import opened CompactRun
  import opened CarStore
  import opened Sessions
  import opened Repos
  import opened Batches
  import opened ReadCar
  import opened Revisions
  import opened Tid
  import CommitCodec
  import R = Records

  // ----- what the store holds for an actor -----

  /** Everything reading the records takes, besides their tree, is stored for the actor itself. */
  ghost predicate Complete(d: Disk, aid: Aid, root: Cid, m: Records) {
    root in StoredBy(d, aid) && forall p :: p in m ==> m[p] in StoredBy(d, aid)
  }

  ghost predicate RepoAt(lib: Lib, d: Disk, known: map<Cid, Bytes>, aid: Aid, root: Cid, m: Records) {
    Complete(d, aid, root, m) && TreeStored(lib, d, aid, m, known) && root in known && CommitOf(lib, known[root], m)
  }

  ghost predicate HeadAt(lib: Lib, d: Disk, known: map<Cid, Bytes>, aid: Aid, sh: Shard, m: Records) {
    IsLast(d, aid, sh) && sh.root.Some? && RepoAt(lib, d, known, aid, sh.root.value, m)
  }

  /** No shard at all, or the head commit is to these records. */
  ghost predicate RepoIs(lib: Lib, d: Disk, known: map<Cid, Bytes>, aid: Aid, m: Option<Records>) {
    match m
    case None => forall id :: id in d.shards ==> d.shards[id].aid != aid
    case Some(records) => exists sh :: HeadAt(lib, d, known, aid, sh, records)
  }

  function Lookup(repos: map<Aid, Records>, aid: Aid): Option<Records> {
    if aid in repos then Some(repos[aid]) else None
  }

  /** The store holds exactly these repositories; every stored block has the content known for its identifier. */
  ghost predicate Refines(env: Env, lib: Lib, d: Disk, known: map<Cid, Bytes>, repos: map<Aid, Records>) {
    && KnownBy(env, d, known)
    && 0 !in repos
    && forall a :: RepoIs(lib, d, known, a, Lookup(repos, a)) && SeqUniqueFor(d, a)
  }

  /** Nothing known is forgotten or changed. */
  predicate Extends(known: map<Cid, Bytes>, known': map<Cid, Bytes>) {
    forall c :: c in known ==> Knows(known', Block(c, known[c]))
  }

  lemma LastUnique(d: Disk, aid: Aid, x: Shard, y: Shard)
    requires SeqUniqueFor(d, aid) && IsLast(d, aid, x) && IsLast(d, aid, y)
    ensures x == y
  {
  }

  /** The head row of an actor, once it is known. */
  lemma HeadOf(env: Env, lib: Lib, d: Disk, known: map<Cid, Bytes>, repos: map<Aid, Records>, aid: Aid, last: Shard)
    requires Refines(env, lib, d, known, repos) && LastOf(d, aid, last)
    ensures aid !in repos ==> last == NO_SHARD
    ensures aid in repos ==> IsLast(d, aid, last) && last.root.Some? && RepoAt(lib, d, known, aid, last.root.value, repos[aid])
  {
    hide RepoAt, KnownBy;
    assert RepoIs(lib, d, known, aid, Lookup(repos, aid));
    if aid in repos {
      var sh :| HeadAt(lib, d, known, aid, sh, repos[aid]);
      assert last != NO_SHARD;
      assert SeqUniqueFor(d, aid);
      LastUnique(d, aid, sh, last);
    }
  }

  // ----- the store determines the records -----

  /** The map the store holds is determined by it, whatever is known of blocks it does not hold. */
  lemma RecordsUnique(env: Env, lib: Lib, d: Disk, kp: map<Cid, Bytes>, p: map<Aid, Records>, kq: map<Cid, Bytes>, q: map<Aid, Records>)
    requires Durable(env, d) && env.Valid() && Refines(env, lib, d, kp, p) && Refines(env, lib, d, kq, q)
    ensures p == q
  {
    hide Durable, HeadAt, CommitOf, TreeStored, KnownBy;
    forall a ensures Lookup(p, a) == Lookup(q, a) {
      assert RepoIs(lib, d, kp, a, Lookup(p, a)) && RepoIs(lib, d, kq, a, Lookup(q, a));
      if a in p && a in q {
        var x :| HeadAt(lib, d, kp, a, x, p[a]);
        HeadOfSome(env, lib, d, kq, q, a, x, kp, p[a]);
        SameRecords(env, lib, d, a, x.root.value, kp, p[a], kq, q[a]);
      } else if a in p {
        var x :| HeadAt(lib, d, kp, a, x, p[a]);
        HeadMeans(lib, d, kp, a, x, p[a]);
      } else if a in q {
        var x :| HeadAt(lib, d, kq, a, x, q[a]);
        HeadMeans(lib, d, kq, a, x, q[a]);
      }
    }
    forall a | a in p ensures a in q && p[a] == q[a] { assert Lookup(p, a) == Lookup(q, a); }
    forall a | a in q ensures a in p { assert Lookup(p, a) == Lookup(q, a); }
  }

  lemma HeadMeans(lib: Lib, d: Disk, known: map<Cid, Bytes>, aid: Aid, sh: Shard, m: Records)
    requires HeadAt(lib, d, known, aid, sh, m)
    ensures IsLast(d, aid, sh) && LastOf(d, aid, sh) && sh.root.Some? && RepoAt(lib, d, known, aid, sh.root.value, m)
  {
    hide RepoAt;
  }

  lemma HeadOfSome(env: Env, lib: Lib, d: Disk, known: map<Cid, Bytes>, repos: map<Aid, Records>, aid: Aid, sh: Shard,
                   known': map<Cid, Bytes>, m: Records)
    requires Refines(env, lib, d, known, repos) && aid in repos && HeadAt(lib, d, known', aid, sh, m)
    ensures sh.root.Some? && RepoAt(lib, d, known', aid, sh.root.value, m) && RepoAt(lib, d, known, aid, sh.root.value, repos[aid])
  {
    HeadMeans(lib, d, known', aid, sh, m);
    hide Refines, RepoAt, HeadAt;
    HeadOf(env, lib, d, known, repos, aid, sh);
  }

  lemma StoredKnown(env: Env, d: Disk, aid: Aid, c: Cid, kp: map<Cid, Bytes>, kq: map<Cid, Bytes>)
    requires Durable(env, d) && env.Valid() && c in StoredBy(d, aid) && KnownBy(env, d, kp) && KnownBy(env, d, kq)
    ensures c in kp && c in kq && kp[c] == kq[c]
  {
    hide Durable, Held;
    var r :| r in d.refs && r.aid == aid && r.cid == c;
    var b := RefHeld(env, d, r);
  }

  lemma SameRecords(env: Env, lib: Lib, d: Disk, aid: Aid, root: Cid, kp: map<Cid, Bytes>, m: Records, kq: map<Cid, Bytes>, n: Records)
    requires Durable(env, d) && env.Valid() && KnownBy(env, d, kp) && KnownBy(env, d, kq)
    requires RepoAt(lib, d, kp, aid, root, m) && RepoAt(lib, d, kq, aid, root, n)
    ensures m == n
  {
    hide Durable, KnownBy, StoredBy, CommitCodec.DecodeSigned, SignatureOk;
    StoredKnown(env, d, aid, root, kp, kq);
    assert lib.pointer(m) == lib.pointer(n);
    var view := map c | c in lib.nodes(m) && c in lib.nodes(n) :: lib.nodes(m)[c];
    forall c | c in view ensures lib.nodes(m)[c] == lib.nodes(n)[c] { StoredKnown(env, d, aid, c, kp, kq); }
    assert Shows(lib, m, view) && Shows(lib, n, view);
  }

  // ----- what keeps the repositories -----

  /** Other rows and more stored blocks of other actors do not matter, and neither does knowing more. */
  lemma RepoKept(lib: Lib, d: Disk, d': Disk, known: map<Cid, Bytes>, known': map<Cid, Bytes>, aid: Aid, m: Option<Records>)
    requires RepoIs(lib, d, known, aid, m) && StoredBy(d', aid) == StoredBy(d, aid) && Extends(known, known')
    requires forall id :: id in d'.shards && d'.shards[id].aid == aid ==> id in d.shards && d.shards[id] == d'.shards[id]
    requires forall id :: id in d.shards && d.shards[id].aid == aid ==> id in d'.shards && d.shards[id] == d'.shards[id]
    ensures RepoIs(lib, d', known', aid, m)
  {
    hide StoredBy, RepoAt;
    if m.Some? {
      var sh :| HeadAt(lib, d, known, aid, sh, m.value);
      MoreKnownRepo(lib, d, d', known, known', aid, sh.root.value, m.value);
      assert HeadAt(lib, d', known', aid, sh, m.value);
    }
  }

  lemma MoreKnownRepo(lib: Lib, d: Disk, d': Disk, known: map<Cid, Bytes>, known': map<Cid, Bytes>, aid: Aid, root: Cid, m: Records)
    requires RepoAt(lib, d, known, aid, root, m) && StoredBy(d', aid) == StoredBy(d, aid) && Extends(known, known')
    ensures RepoAt(lib, d', known', aid, root, m)
  {
    hide StoredBy, CommitOf, Sound;
    assert Knows(known', Block(root, known[root]));
  }

  lemma ExtendsSelf(known: map<Cid, Bytes>)
    ensures Extends(known, known)
  {
  }

  /** A commit: the actor's repository becomes t, nobody else's changes. */
  lemma CommitRefines(env: Env, lib: Lib, d: Disk, known: map<Cid, Bytes>, repos: map<Aid, Records>, aid: Aid, root: Cid, rev: Bytes, sq: nat,
                      order: seq<Block>, known': map<Cid, Bytes>, t: Records)
    requires Durable(env, d) && env.Valid() && Refines(env, lib, d, known, repos) && aid != 0 && FreshSeq(d, aid, sq)
    requires AllFit(env, order) && Extends(known, known') && forall b :: b in order ==> Knows(known', b)
    requires root in known' && CommitOf(lib, known'[root], t) && root in CidsIn(order) && Sound(lib, t)
    requires forall c :: c in lib.nodes(t) ==> Knows(known', Block(c, lib.nodes(t)[c])) && (c in CidsIn(order) || c in StoredBy(d, aid))
    requires forall p :: p in t ==> t[p] in CidsIn(order) || t[p] in StoredBy(d, aid)
    ensures Refines(env, lib, ApplyAll(d, WritePlan(env, root, rev, aid, sq, Key(aid, sq), order)), known', repos[aid := t])
  {
    hide Durable, CommitOf, StoredBy, CidsIn, WritePlan, ApplyAll, FileHeader, ShardFile, Marks, RefsFor, RepoIs, Sound,
         AllFit, Held;
    var d' := ApplyAll(d, WritePlan(env, root, rev, aid, sq, Key(aid, sq), order));
    WriteEffect(env, d, root, rev, aid, sq, Key(aid, sq), order);
    NextIdUnused(env, d);
    LastAfterWrite(env, d, root, rev, aid, sq, order, map[]);
    var row := NewRow(env, root, rev, aid, sq, Key(aid, sq)).(id := d.nextId);
    var repos' := repos[aid := t];
    forall a ensures RepoIs(lib, d', known', a, Lookup(repos', a)) && SeqUniqueFor(d', a) {
      assert RepoIs(lib, d, known, a, Lookup(repos, a)) && SeqUniqueFor(d, a);
      if a == aid {
        assert Complete(d', aid, root, t);
        assert TreeStored(lib, d', aid, t, known');
        HeadIs(lib, d', known', aid, row, t);
      } else {
        RepoKept(lib, d, d', known, known', a, Lookup(repos, a));
      }
    }
    WrittenKnown(env, d, root, rev, aid, sq, order, 2, known, known');
    assert WritePlan(env, root, rev, aid, sq, Key(aid, sq), order)[..2] == WritePlan(env, root, rev, aid, sq, Key(aid, sq), order)
      by { PlanSteps(env, root, rev, aid, sq, Key(aid, sq), order); }
  }

  /** A write, finished or not, adds only blocks that are known. */
  lemma WrittenKnown(env: Env, d: Disk, root: Cid, rev: Bytes, aid: Aid, sq: nat, order: seq<Block>, n: nat,
                     known: map<Cid, Bytes>, known': map<Cid, Bytes>)
    requires Durable(env, d) && env.Valid() && FreshSeq(d, aid, sq) && n <= 2 && KnownBy(env, d, known) && Extends(known, known')
    requires n == 2 ==> AllFit(env, order) && forall b :: b in order ==> Knows(known', b)
    ensures KnownBy(env, ApplyAll(d, WritePlan(env, root, rev, aid, sq, Key(aid, sq), order)[..n]), known')
  {
    hide Durable, AllFit, Held, ApplyAll, WritePlan, FreshSeq, Referenced;
    FreshUnreferenced(env, d, aid, sq);
    PlanSteps(env, root, rev, aid, sq, Key(aid, sq), order);
    var d' := ApplyAll(d, WritePlan(env, root, rev, aid, sq, Key(aid, sq), order)[..n]);
    forall b | Held(env, d', b) ensures Knows(known', b) {
      WriteHeld(env, d, root, rev, aid, sq, Key(aid, sq), order, n, b);
      if Held(env, d, b) { assert Knows(known, b) && Knows(known', Block(b.cid, known[b.cid])); }
    }
  }

  lemma HeadIs(lib: Lib, d: Disk, known: map<Cid, Bytes>, aid: Aid, sh: Shard, m: Records)
    requires IsLast(d, aid, sh) && sh.root.Some? && Complete(d, aid, sh.root.value, m) && TreeStored(lib, d, aid, m, known)
    requires sh.root.value in known && CommitOf(lib, known[sh.root.value], m)
    ensures RepoIs(lib, d, known, aid, Some(m))
  {
    hide CommitOf, Complete, IsLast, TreeStored;
    assert HeadAt(lib, d, known, aid, sh, m);
  }

  /** The rows and refs did not change. */
  predicate SameTables(d: Disk, d': Disk) {
    d'.shards == d.shards && d'.refs == d.refs
  }

  lemma SameRefines(env: Env, lib: Lib, d: Disk, d': Disk, known: map<Cid, Bytes>, repos: map<Aid, Records>)
    requires Refines(env, lib, d, known, repos) && SameTables(d, d') && KnownBy(env, d', known)
    ensures Refines(env, lib, d', known, repos)
  {
    hide RepoIs, KnownBy;
    ExtendsSelf(known);
    forall a ensures RepoIs(lib, d', known, a, Lookup(repos, a)) && SeqUniqueFor(d', a) {
      assert RepoIs(lib, d, known, a, Lookup(repos, a)) && SeqUniqueFor(d, a);
      SameRefs(d, d', a);
      RepoKept(lib, d, d', known, known, a, Lookup(repos, a));
    }
  }

  lemma StillKnown(env: Env, d: Disk, d': Disk, known: map<Cid, Bytes>)
    requires KnownBy(env, d, known) && OnlyOld(env, d, d')
    ensures KnownBy(env, d', known)
  {
    hide Held;
  }

  /** Compacting an actor changes nobody's repository. */
  lemma CompactionKeepsRepos(env: Env, lib: Lib, d: Disk, d': Disk, known: map<Cid, Bytes>, repos: map<Aid, Records>,
                             aid: Aid, steps: seq<Step>, removed: set<nat>)
    requires Durable(env, d) && Refines(env, lib, d, known, repos) && Running(env, d, d', aid, steps, removed) && Quiet(d, steps)
    requires forall sh :: IsLast(d, aid, sh) ==> sh.id !in removed
    ensures Refines(env, lib, d', known, repos)
  {
    hide Durable, RepoIs, RepoAt, SafeSteps, StoredBy, ApplyAll, KnownBy, OnlyOld;
    StillKnown(env, d, d', known);
    ExtendsSelf(known);
    forall a ensures RepoIs(lib, d', known, a, Lookup(repos, a)) && SeqUniqueFor(d', a) {
      assert RepoIs(lib, d, known, a, Lookup(repos, a)) && SeqUniqueFor(d, a);
      assert steps[..|steps|] == steps;
      assert StoredBy(ApplyAll(d, steps[..|steps|]), a) == StoredBy(d, a);
      if a == aid {
        OwnHeadKept(lib, d, d', known, aid, removed, Lookup(repos, aid));
      } else {
        OthersRows(d, d', aid, removed, a);
        RepoKept(lib, d, d', known, known, a, Lookup(repos, a));
      }
    }
  }

  lemma OthersRows(d: Disk, d': Disk, aid: Aid, removed: set<nat>, a: Aid)
    requires RowsWithin(d, d', aid, removed) && a != aid
    requires forall id :: id in removed ==> id in d.shards && d.shards[id].aid == aid
    ensures forall id :: id in d'.shards && d'.shards[id].aid == a ==> id in d.shards && d.shards[id] == d'.shards[id]
    ensures forall id :: id in d.shards && d.shards[id].aid == a ==> id in d'.shards && d.shards[id] == d'.shards[id]
    ensures SeqUniqueFor(d, a) ==> SeqUniqueFor(d', a)
  {
    forall id | id in d'.shards && d'.shards[id].aid == a ensures id in d.shards && d.shards[id] == d'.shards[id] {
      assert id !in d.shards ==> Replaces(d, removed, aid, d'.shards[id]);
    }
  }

  lemma OwnHeadKept(lib: Lib, d: Disk, d': Disk, known: map<Cid, Bytes>, aid: Aid, removed: set<nat>, m: Option<Records>)
    requires RepoIs(lib, d, known, aid, m) && RowsWithin(d, d', aid, removed) && StoredBy(d', aid) == StoredBy(d, aid)
    requires forall sh :: IsLast(d, aid, sh) ==> sh.id !in removed
    ensures RepoIs(lib, d', known, aid, m)
  {
    hide StoredBy, RepoAt;
    forall id | id in d'.shards && id !in d.shards
      ensures d'.shards[id].aid == aid && exists k :: k in d.shards && d.shards[k].aid == aid && d.shards[k].seqno == d'.shards[id].seqno
    {
      assert Replaces(d, removed, aid, d'.shards[id]);
    }
    if m.Some? {
      var sh :| HeadAt(lib, d, known, aid, sh, m.value);
      ExtendsSelf(known);
      MoreKnownRepo(lib, d, d', known, known, aid, sh.root.value, m.value);
      assert IsLast(d', aid, sh);
      assert HeadAt(lib, d', known, aid, sh, m.value);
    }
  }

  /** A wipe removes the actor's repository and no other. */
  lemma WipeRefines(env: Env, lib: Lib, d: Disk, d': Disk, known: map<Cid, Bytes>, repos: map<Aid, Records>, aid: Aid)
    requires Refines(env, lib, d, known, repos) && RowIds(d', aid) == {} && OnlyOld(env, d, d')
    requires forall id :: id in d'.shards ==> id in d.shards && d.shards[id] == d'.shards[id]
    requires forall a :: a != aid ==> RowIds(d', a) == RowIds(d, a) && StoredBy(d', a) == StoredBy(d, a)
    ensures Refines(env, lib, d', known, repos - {aid})
  {
    hide RepoIs, StoredBy, KnownBy, OnlyOld;
    StillKnown(env, d, d', known);
    ExtendsSelf(known);
    forall a ensures RepoIs(lib, d', known, a, Lookup(repos - {aid}, a)) && SeqUniqueFor(d', a) {
      assert RepoIs(lib, d, known, a, Lookup(repos, a)) && SeqUniqueFor(d, a);
      if a == aid {
        NoRepo(lib, d', known, aid);
      } else {
        forall id | id in d.shards && d.shards[id].aid == a ensures id in d'.shards {
          assert id in RowIds(d, a);
          assert id in RowIds(d', a);
        }
        RepoKept(lib, d, d', known, known, a, Lookup(repos, a));
      }
    }
  }

  lemma NoRepo(lib: Lib, d: Disk, known: map<Cid, Bytes>, aid: Aid)
    requires RowIds(d, aid) == {}
    ensures RepoIs(lib, d, known, aid, None)
  {
    forall id | id in d.shards ensures d.shards[id].aid != aid {
      assert d.shards[id].aid == aid ==> id in RowIds(d, aid);
    }
  }

  // ----- the writes of a batch -----

  /** The records the writes carry, in order. */
  function Values(ws: seq<Write>): seq<Bytes> {
    if ws == [] then [] else
    var w := ws[|ws| - 1];
    Values(ws[..|ws| - 1]) + if w.Create? || w.Update? then [w.value] else []
  }

  function RecordBlocks(lib: Lib, values: seq<Bytes>): seq<Block> {
    seq(|values|, i requires 0 <= i < |values| => Block(lib.hash(values[i]), values[i]))
  }

  lemma ValuesSnoc(lib: Lib, ws: seq<Write>, w: Write)
    ensures Values(ws + [w]) == Values(ws) + if w.Create? || w.Update? then [w.value] else []
    ensures RecordBlocks(lib, Values(ws + [w])) ==
            RecordBlocks(lib, Values(ws)) + if w.Create? || w.Update? then [Block(lib.hash(w.value), w.value)] else []
  {
    assert (ws + [w])[..|ws|] == ws;
  }

  lemma OneRecord(lib: Lib, v: Bytes)
    ensures RecordBlocks(lib, [v]) == [Block(lib.hash(v), v)]
  {
  }

  /** The blocks of a write that reaches its commit: the records, then the tree of t and the commit to it. */
  ghost predicate Puts(env: Env, lib: Lib, values: seq<Bytes>, t: Records, puts: seq<Block>) {
    RecordBlocks(lib, values) <= puts && Committing(env, lib, t, puts[|values|..])
  }

  /** Why a write may end in a fault though no request failed: no signature, or a block over the reader's limit. */
  ghost predicate Unsuited(env: Env, lib: Lib, values: seq<Bytes>, t: Records, puts: seq<Block>) {
    !Signs(lib) || (Puts(env, lib, values, t, puts) && !Sized(env, puts))
  }

  // ----- the keys of creates that name none -----

  predicate Keyless(w: Write) { w.Create? && w.rkey.None? }

  function KeyOf(w: Write): Bytes { if w.Create? && w.rkey.Some? then w.rkey.value else [] }

  /** The key is the id of some time. */
  ghost predicate IsId(key: Bytes, clockId: nat) { exists t: nat :: key == TidOf(t, clockId) }

  ghost predicate IsIdWithin(key: Bytes, from: nat, to: nat, clockId: nat) {
    exists t: nat :: from < t <= to && EARLIEST <= t < LATEST && key == TidOf(t, clockId)
  }

  /** They are the ids of times after `from`, and ascend in the order of the writes. */
  ghost predicate KeysGiven(ws: seq<Write>, done: seq<Write>, from: nat, to: nat, clockId: nat) {
    && |done| <= |ws|
    && (forall i :: 0 <= i < |done| && Keyless(ws[i]) ==> IsIdWithin(KeyOf(done[i]), from, to, clockId))
    && (forall i, j :: 0 <= i < j < |done| && Keyless(ws[i]) && Keyless(ws[j]) ==> Lex(KeyOf(done[i]), KeyOf(done[j])))
  }

  lemma KeysSnoc(ws: seq<Write>, done: seq<Write>, v: Write, from: nat, to: nat, to': nat, clockId: nat)
    requires KeysGiven(ws, done, from, to, clockId) && from <= to <= to' && |done| < |ws|
    requires Keyless(ws[|done|]) ==> to < to' && EARLIEST <= to' < LATEST && KeyOf(v) == TidOf(to', clockId)
    ensures KeysGiven(ws, done + [v], from, to', clockId)
  {
    hide KeyOf, TidOf, Lex;
    var n, more := |done|, done + [v];
    assert forall i :: 0 <= i < n ==> more[i] == done[i];
    forall i | 0 <= i < n && Keyless(ws[i])
      ensures IsIdWithin(KeyOf(done[i]), from, to', clockId)
      ensures Keyless(ws[n]) ==> Lex(KeyOf(done[i]), KeyOf(v))
    {
      var t: nat :| from < t <= to && EARLIEST <= t < LATEST && KeyOf(done[i]) == TidOf(t, clockId);
      if Keyless(ws[n]) { TidLess(t, to', clockId); }
    }
  }

  lemma NoKeys(ws: seq<Write>, from: nat, to: nat, clockId: nat)
    ensures KeysGiven(ws, [], from, to, clockId)
  {
  }

  lemma ItsId(w: Write, t: nat, clockId: nat)
    requires KeyOf(w) == TidOf(t, clockId)
    ensures IsId(KeyOf(w), clockId)
  {
    hide TidOf, KeyOf;
  }

  /** Time passes. */
  lemma KeysLater(ws: seq<Write>, done: seq<Write>, from: nat, to: nat, to': nat, clockId: nat)
    requires KeysGiven(ws, done, from, to, clockId) && to <= to'
    ensures KeysGiven(ws, done, from, to', clockId)
  {
    hide KeyOf, TidOf, Lex;
    forall i | 0 <= i < |done| && Keyless(ws[i]) ensures IsIdWithin(KeyOf(done[i]), from, to', clockId) {
      var t: nat :| from < t <= to && EARLIEST <= t < LATEST && KeyOf(done[i]) == TidOf(t, clockId);
    }
  }

  class Manager {
    const store: CarStore
    const lib: Lib
    const tids: TidSource
    ghost var repos: map<Aid, Records>
    ghost var known: map<Cid, Bytes>    // the contents identifiers have been used for
    ghost var punctual: bool            // every id so far was for a time in range

    ghost predicate Valid()
      reads this, store, tids
    {
      && store.Valid() && Lawful(store.env, lib) && Refines(store.env, lib, store.disk, known, repos)
      && (0 in store.cache ==> store.cache[0] == NO_SHARD)
      && tids.clockId < 32 && tids.lastTime < TWO_64
      && (punctual ==> RevsOk(store.disk, tids.lastTime, tids.clockId))
    }

    constructor (store: CarStore, lib: Lib)
      requires store.Valid() && store.disk == EMPTY && store.cache == map[] && Lawful(store.env, lib)
      ensures this.store == store && this.lib == lib && repos == map[] && known == map[] && Valid() && punctual && fresh(tids)
    {
      var randomBits: nat := *;
      this.store, this.lib, repos, known, punctual := store, lib, map[], map[], true;
      tids := new TidSource(randomBits);
      new;
      assert Refines(store.env, lib, store.disk, known, repos);
      NoRevs(tids.clockId);
    }

    /** An id for whatever the clock reads. */
    method NextTid() returns (t: Bytes)
      requires Valid()
      modifies this`punctual, tids
      ensures Valid() && t == TidOf(tids.lastTime, tids.clockId) && R.FitsText(t)
      ensures punctual ==> old(punctual) && old(tids.lastTime) < tids.lastTime && EARLIEST <= tids.lastTime < LATEST
    {
      hide Durable, CacheOk, Refines, Lawful, RevsOk, S32;
      var now: nat := *;
      if now >= TWO_64 { now := 0; }
      t := tids.NextTID(now);
      TidShort(tids.lastTime, tids.clockId);
      RevsBound(store.disk, old(tids.lastTime), tids.clockId, punctual);
      if punctual && EARLIEST <= tids.lastTime < LATEST {
        LaterRevs(store.disk, old(tids.lastTime), tids.lastTime, tids.clockId);
      } else {
        punctual := false;
      }
    }

    /** How every write starts: the head's revision, a session on it, the repository opened there. */
    method Begin(actor: Aid) returns (r: Option<Repo>, ghost last: Shard, ghost fault: bool)
      requires Valid()
      modifies store`cache
      ensures Valid()
      ensures r.Some? ==> actor != 0 && actor in repos && fresh(r.value) && fresh(r.value.session) && fresh(r.value.session.base)
      ensures r.Some? ==> r.value.lib == lib && r.value.session.store == store && r.value.session.actor == actor
                          && !r.value.session.readonly && r.value.session.sq == last.seqno + 1
      ensures r.Some? ==> r.value.Working(Some(repos[actor]), repos[actor], known) && r.value.puts == [] && R.FitsText(r.value.sc.did)
      ensures r.Some? ==> LastOf(store.disk, actor, last)
      ensures r.None? && !fault && Unstuck(store.env, store.disk, actor) ==> actor !in repos
      ensures fault ==> r.None? && store.env.faulty
    {
      hide Durable, CacheOk, Refines, RepoIs, Lawful, Unstuck, StoredBy, Openable, CommitCodec.DecodeSigned, LastOf;
      r, last, fault := None, NO_SHARD, true;
      ZeroRight(store.env, lib, store.disk, known, repos, store.cache);
      var rev, seen := store.GetActorRepoRev(actor);
      if rev.None? { return; }
      ZeroKept(store.env, lib, store.disk, known, repos, old(store.cache), store.cache, actor, seen);
      ZeroRight(store.env, lib, store.disk, known, repos, store.cache);
      label Looked:
      var session;
      session, last, fault := NewDeltaSession(store, actor, rev);
      if !fault {
        SameHead(store.env, lib, store.disk, known, repos, actor, seen, last);
        ZeroKept(store.env, lib, store.disk, known, repos, old@Looked(store.cache), store.cache, actor, last);
      }
      if session.None? { return; }
      var head := session.value.baseCid;
      HeadOf(store.env, lib, store.disk, known, repos, actor, last);
      RefinesKnown(store.env, lib, store.disk, known, repos);
      NothingPut(store.env);
      if actor in repos { HeadOpens(store.env, lib, store.disk, known, repos, actor, last); }
      r, fault := OpenRepo(lib, session.value, head, known);
      if r.Some? { OpenedHead(store.env, lib, store.disk, known, repos, actor, last); }
    }

    /**
     * How every write ends: commit, and close the session with the new root. On success there is
     * exactly one new shard, numbered one above the highest, and if what was put is accepted the
     * actor's records are t. On failure the tables are untouched.
     */
    method End(actor: Aid, repo: Repo, ghost m0: Option<Records>, ghost t: Records, ghost values: seq<Bytes>)
      returns (slice: Option<Bytes>, ghost row: Shard, ghost fault: bool)
      requires Valid() && repo.Working(m0, t, known) && repo.lib == lib && repo.session.store == store && repo.session.actor == actor
      requires !repo.session.readonly && actor != 0 && FreshSeq(store.disk, actor, repo.session.sq)
      requires repo.puts == RecordBlocks(lib, values)
      modifies this, tids, store, repo, repo.session, repo.session.base`cache
      ensures slice.Some? ==> repos == old(repos)[actor := t] && NewShard(old(store.disk), store.disk, actor, repo.session.sq, row)
      ensures slice.Some? ==> known == old(known) + Contents(repo.puts) && Puts(store.env, lib, values, t, repo.puts)
      ensures slice.Some? ==> row.rev == TidOf(tids.lastTime, tids.clockId)
      ensures punctual ==> old(punctual) && old(tids.lastTime) < tids.lastTime
      ensures slice.Some? && Accepted(store.env, lib, old(known), repo.puts, t) ==> Valid() && Extends(old(known), known)
      ensures slice.None? ==> Valid() && repos == old(repos) && known == old(known) && SameTables(old(store.disk), store.disk)
      ensures slice.None? && !fault && Unstuck(store.env, old(store.disk), actor) ==> !R.FitsText(old(repo.sc).did)
      ensures fault ==> slice.None? && (store.env.faulty || Unsuited(store.env, lib, values, t, repo.puts))
    {
      hide Durable, CacheOk, Refines, Lawful, Unstuck, StoredBy, CommitOf, Fits, CommitCodec.DecodeSigned, ApplyAll,
           WritePlan, CidsIn, Contents, Distinct, AllFit, FreshSeq, FileHeader, ShardFile, Sound, TreeStored, KnownBy,
           AllWritable, Sized, Checked, NoClash, Committing, CacheKnown, Extends, Signs, TidOf, RevsOk, NewShard, Puts, IsShardFile;
      row := NO_SHARD;
      var nrev := NextTid();
      ghost var d, bytes, known0 := store.disk, [], known;
      LoadedTree(repo, m0, t, known);
      var nroot;
      nroot, bytes, fault := repo.Commit(nrev, m0, t, known);
      if nroot.None? { return None, row, fault; }
      ghost var puts := repo.puts;
      PutsAre(store.env, lib, values, t, old(repo.puts), puts);
      var s := repo.session;
      var out, order, n := s.CloseWithRoot(nroot.value, nrev);
      slice := out;
      PartWrite(store.env, d, nroot.value, nrev, actor, s.sq, Key(actor, s.sq), order, n);
      if n == 2 {
        known := known + Contents(puts);
        repos := repos[actor := t];
        row := ShardWritten(store.env, d, nroot.value, nrev, actor, s.sq, order);
        if Accepted(store.env, lib, known0, puts, t) {
          if punctual { NewRevs(store.env, d, store.disk, nroot.value, actor, s.sq, order, old(tids.lastTime), tids.lastTime, tids.clockId); }
          Landed(store.env, lib, d, known0, old(repos), actor, nroot.value, bytes, nrev, s.sq, order, puts, m0, t);
        }
      } else {
        if punctual { FewerRevs(d, store.disk, tids.lastTime, tids.clockId); }
        NotWritten(store.env, lib, d, nroot.value, nrev, actor, s.sq, order, n, known, repos);
        if Sized(store.env, puts) { SizedWritable(store.env, puts); }
        fault := true;
      }
    }

    /**
     * CreateRecord: the path is added to the actor's records, in one new shard, or nothing changes.
     * Without a fault it fails exactly when there is no repository or the path is taken.
     */
    method CreateRecord(actor: Aid, nsid: Bytes, key: Bytes, rec: Bytes)
      returns (r: Option<Cid>, ghost row: Shard, ghost puts: seq<Block>, ghost fault: bool)
      requires Valid()
      modifies this, tids, store
      ensures r.Some? ==> Changed(old(repos), repos, actor, PathOf(nsid, key), r) && r.value == lib.hash(rec)
      ensures r.Some? && SLASH !in nsid ==> OnlyAt(old(repos)[actor], repos[actor], nsid, key, r)
      ensures r.Some? ==> PathOf(nsid, key) !in old(repos)[actor] && Committed(old(store.disk), store.disk, actor, row)
      ensures r.Some? ==> row.rev == TidOf(tids.lastTime, tids.clockId)
      ensures r.Some? ==> known == old(known) + Contents(puts) && Puts(store.env, lib, [rec], repos[actor], puts)
      ensures r.Some? && Accepted(store.env, lib, old(known), puts, repos[actor]) ==>
                Valid() && Extends(old(known), known) && Knows(known, Block(r.value, rec))
      ensures r.None? ==> Valid() && repos == old(repos) && known == old(known) && SameTables(old(store.disk), store.disk)
      ensures r.None? && !fault && Unstuck(store.env, old(store.disk), actor) ==>
                actor !in repos || PathOf(nsid, key) in repos[actor]
      ensures fault ==> r.None?
      ensures fault && !store.env.faulty ==>
                actor in repos && Unsuited(store.env, lib, [rec], repos[actor][PathOf(nsid, key) := lib.hash(rec)], puts)
    {
      hide Durable, CacheOk, Refines, RepoIs, Lawful, Unstuck, StoredBy, Fits, ApplyAll, WritePlan, CidsIn,
           CommitCodec.DecodeSigned, Committing, Contents, Sized, NoClash, Signs, Sound, Extends, RecordBlocks, Repo.Working, PathOf, OnlyAt;
      row, puts := NO_SHARD, [];
      ghost var last, d := NO_SHARD, store.disk;
      var repo;
      repo, last, fault := Begin(actor);
      if repo.None? { return None, row, puts, fault; }
      ghost var m := repos[actor];
      r, fault := repo.value.CreateRecord(PathOf(nsid, key), rec, Some(m), m, known);
      if r.None? { return None, row, puts, fault; }
      NextSeqFresh(store.env, d, actor, last);
      OneRecord(lib, rec);
      var slice;
      slice, row, fault := End(actor, repo.value, Some(m), m[PathOf(nsid, key) := r.value], [rec]);
      puts := repo.value.puts;
      CommittedRow(d, store.disk, actor, last, row);
      if slice.None? { return None, row, puts, fault; }
      if SLASH !in nsid { SetOnlyAt(m, nsid, key, r); }
      RecordKnown(store.env, lib, old(known), [rec], repos[actor], puts, 0);
    }

    /** UpdateRecord: the path, which must be there, gets the new record. */
    method UpdateRecord(actor: Aid, nsid: Bytes, key: Bytes, rec: Bytes)
      returns (r: Option<Cid>, ghost row: Shard, ghost puts: seq<Block>, ghost fault: bool)
      requires Valid()
      modifies this, tids, store
      ensures r.Some? ==> Changed(old(repos), repos, actor, PathOf(nsid, key), r) && r.value == lib.hash(rec)
      ensures r.Some? && SLASH !in nsid ==> OnlyAt(old(repos)[actor], repos[actor], nsid, key, r)
      ensures r.Some? ==> PathOf(nsid, key) in old(repos)[actor] && Committed(old(store.disk), store.disk, actor, row)
      ensures r.Some? ==> row.rev == TidOf(tids.lastTime, tids.clockId)
      ensures r.Some? ==> known == old(known) + Contents(puts) && Puts(store.env, lib, [rec], repos[actor], puts)
      ensures r.Some? && Accepted(store.env, lib, old(known), puts, repos[actor]) ==>
                Valid() && Extends(old(known), known) && Knows(known, Block(r.value, rec))
      ensures r.None? ==> Valid() && repos == old(repos) && known == old(known) && SameTables(old(store.disk), store.disk)
      ensures r.None? && !fault && Unstuck(store.env, old(store.disk), actor) ==>
                actor !in repos || PathOf(nsid, key) !in repos[actor]
      ensures fault ==> r.None?
      ensures fault && !store.env.faulty ==>
                actor in repos && Unsuited(store.env, lib, [rec], repos[actor][PathOf(nsid, key) := lib.hash(rec)], puts)
    {
      hide Durable, CacheOk, Refines, RepoIs, Lawful, Unstuck, StoredBy, Fits, ApplyAll, WritePlan, CidsIn,
           CommitCodec.DecodeSigned, Committing, Contents, Sized, NoClash, Signs, Sound, Extends, RecordBlocks, Repo.Working, PathOf, OnlyAt;
      row, puts := NO_SHARD, [];
      ghost var last, d := NO_SHARD, store.disk;
      var repo;
      repo, last, fault := Begin(actor);
      if repo.None? { return None, row, puts, fault; }
      ghost var m := repos[actor];
      r, fault := repo.value.UpdateRecord(PathOf(nsid, key), rec, Some(m), m, known);
      if r.None? { return None, row, puts, fault; }
      NextSeqFresh(store.env, d, actor, last);
      OneRecord(lib, rec);
      var slice;
      slice, row, fault := End(actor, repo.value, Some(m), m[PathOf(nsid, key) := r.value], [rec]);
      puts := repo.value.puts;
      CommittedRow(d, store.disk, actor, last, row);
      if slice.None? { return None, row, puts, fault; }
      if SLASH !in nsid { SetOnlyAt(m, nsid, key, r); }
      RecordKnown(store.env, lib, old(known), [rec], repos[actor], puts, 0);
    }

    /** DeleteRecord: the path, which must be there, goes. */
    method DeleteRecord(actor: Aid, nsid: Bytes, key: Bytes) returns (ok: bool, ghost row: Shard, ghost puts: seq<Block>, ghost fault: bool)
      requires Valid()
      modifies this, tids, store
      ensures ok ==> Changed(old(repos), repos, actor, PathOf(nsid, key), None) && PathOf(nsid, key) in old(repos)[actor]
      ensures ok && SLASH !in nsid ==> OnlyAt(old(repos)[actor], repos[actor], nsid, key, None)
      ensures ok ==> Committed(old(store.disk), store.disk, actor, row) && row.rev == TidOf(tids.lastTime, tids.clockId)
      ensures ok ==> known == old(known) + Contents(puts) && Puts(store.env, lib, [], repos[actor], puts)
      ensures ok && Accepted(store.env, lib, old(known), puts, repos[actor]) ==> Valid() && Extends(old(known), known)
      ensures !ok ==> Valid() && repos == old(repos) && known == old(known) && SameTables(old(store.disk), store.disk)
      ensures !ok && !fault && Unstuck(store.env, old(store.disk), actor) ==>
                actor !in repos || PathOf(nsid, key) !in repos[actor]
      ensures fault ==> !ok
      ensures fault && !store.env.faulty ==>
                actor in repos && Unsuited(store.env, lib, [], repos[actor] - {PathOf(nsid, key)}, puts)
    {
      hide Durable, CacheOk, Refines, RepoIs, Lawful, Unstuck, StoredBy, Fits, ApplyAll, WritePlan, CidsIn,
           CommitCodec.DecodeSigned, Committing, Contents, Sized, NoClash, Signs, Sound, Extends, Repo.Working, PathOf, OnlyAt;
      row, puts := NO_SHARD, [];
      ghost var last, d := NO_SHARD, store.disk;
      var repo;
      repo, last, fault := Begin(actor);
      if repo.None? { return false, row, puts, fault; }
      ghost var m := repos[actor];
      ok, fault := repo.value.DeleteRecord(PathOf(nsid, key), Some(m), m, known);
      if !ok { return false, row, puts, fault; }
      NextSeqFresh(store.env, d, actor, last);
      var slice;
      slice, row, fault := End(actor, repo.value, Some(m), m - {PathOf(nsid, key)}, []);
      puts := repo.value.puts;
      CommittedRow(d, store.disk, actor, last, row);
      ok := slice.Some?;
      if SLASH !in nsid { SetOnlyAt(m, nsid, key, None); }
    }

    /**
     * InitNewRepo: the actor's records become one profile record, whatever they were before. It
     * refuses actor 0 and an empty DID.
     */
    method InitNewRepo(actor: Aid, did: Bytes, nsid: Bytes, key: Bytes, prof: Bytes)
      returns (ok: bool, ghost row: Shard, ghost puts: seq<Block>, ghost fault: bool)
      requires Valid()
      modifies this, tids, store
      ensures ok ==> did != [] && actor != 0 && repos == old(repos)[actor := map[PathOf(nsid, key) := lib.hash(prof)]]
      ensures ok && SLASH !in nsid ==> OnlyAt(map[], repos[actor], nsid, key, Some(lib.hash(prof)))
      ensures ok ==> Committed(old(store.disk), store.disk, actor, row) && row.rev == TidOf(tids.lastTime, tids.clockId)
      ensures ok ==> known == old(known) + Contents(puts) && Puts(store.env, lib, [prof], repos[actor], puts)
      ensures ok && Accepted(store.env, lib, old(known), puts, repos[actor]) ==>
                Valid() && Extends(old(known), known) && Knows(known, Block(lib.hash(prof), prof))
      ensures !ok ==> Valid() && repos == old(repos) && known == old(known) && SameTables(old(store.disk), store.disk)
      ensures !ok && !fault && Unstuck(store.env, old(store.disk), actor) ==> did == [] || actor == 0 || !R.FitsText(did)
      ensures fault ==> !ok
      ensures fault && !store.env.faulty ==>
                Unsuited(store.env, lib, [prof], map[PathOf(nsid, key) := lib.hash(prof)], puts)
    {
      hide Durable, CacheOk, Refines, RepoIs, Lawful, Unstuck, StoredBy, Fits, ApplyAll, WritePlan, CidsIn,
           CommitCodec.DecodeSigned, LastOf, Committing, Contents, Sized, NoClash, Signs, Sound, Extends, RecordBlocks, PathOf, OnlyAt;
      row, puts, fault := NO_SHARD, [], false;
      ghost var last, d := NO_SHARD, store.disk;
      if did == [] || actor == 0 { return false, row, puts, fault; }
      var session;
      session, last, fault := NewDeltaSession(store, actor, None);
      if !fault { ZeroKept(store.env, lib, store.disk, known, repos, old(store.cache), store.cache, actor, last); }
      if session.None? { return false, row, puts, fault; }
      var repo := new Repo.New(lib, did, session.value);
      RefinesKnown(store.env, lib, store.disk, known, repos);
      NothingPut(store.env);
      var cc;
      cc, fault := repo.CreateRecord(PathOf(nsid, key), prof, None, map[], known);
      if cc.None? { return false, row, puts, fault; }
      NextSeqFresh(store.env, d, actor, last);
      OneRecord(lib, prof);
      var slice;
      slice, row, fault := End(actor, repo, None, map[][PathOf(nsid, key) := cc.value], [prof]);
      puts := repo.puts;
      CommittedRow(d, store.disk, actor, last, row);
      ok := slice.Some?;
      if SLASH !in nsid { SetOnlyAt(map[], nsid, key, cc); }
      if ok { RecordKnown(store.env, lib, old(known), [prof], repos[actor], puts, 0); }
    }

    /** One element of the batch; v is the write with its key. */
    method ApplyOne(r: Repo, w: Write, ghost m0: Option<Records>, ghost t: Records, ghost done: seq<Write>)
      returns (accepted: bool, ghost v: Write, ghost u: Records, ghost fault: bool)
      requires Valid() && r.Working(m0, t, known) && r.lib == lib && !r.session.readonly && r.session.store == store
      requires r.puts == RecordBlocks(lib, Values(done))
      modifies this`punctual, tids, r, r.session, r.session.base`cache
      ensures Valid() && r.sc == old(r.sc) && Resolves(w, v)
      ensures if Keyless(w) then KeyOf(v) == TidOf(tids.lastTime, tids.clockId) else tids.lastTime == old(tids.lastTime)
      ensures punctual ==> old(punctual) && (Keyless(w) ==> old(tids.lastTime) < tids.lastTime && EARLIEST <= tids.lastTime < LATEST)
      ensures accepted ==> ApplyWrite(lib, t, v) == Some(u) && r.Working(m0, u, known) && r.puts == RecordBlocks(lib, Values(done + [v]))
      ensures !accepted && !fault && Clear(r.session) ==> ApplyWrite(lib, t, v) == None
      ensures fault ==> !accepted && store.env.faulty
    {
      hide Durable, CacheOk, Lawful, Unstuck, StoredBy, Fits, PathOf, RecordBlocks, Values, Refines, Contents, KnownBy,
           CacheKnown, TreeStored, Checked, TidOf;
      v, u, fault := w, t, false;
      match w
      case Create(c, rkey, value) =>
        var k;
        if rkey.Some? { k := rkey.value; } else { k := NextTid(); }
        v := Create(c, Some(k), value);
        ValuesSnoc(lib, done, v);
        var cc;
        cc, fault := r.CreateRecord(PathOf(c, k), value, m0, t, known);
        accepted := cc.Some?;
        if accepted { u := t[PathOf(c, k) := cc.value]; }
      case Update(c, k, value) =>
        ValuesSnoc(lib, done, v);
        var cc;
        cc, fault := r.UpdateRecord(PathOf(c, k), value, m0, t, known);
        accepted := cc.Some?;
        if accepted { u := t[PathOf(c, k) := cc.value]; }
      case Delete(c, k) =>
        ValuesSnoc(lib, done, v);
        accepted, fault := r.DeleteRecord(PathOf(c, k), m0, t, known);
        u := t - {PathOf(c, k)};
      case NoOperation =>
        accepted := false;
    }

    /**
     * BatchWrite: all writes in order, as one commit, or none of them: the actor's records become
     * the left fold of the writes over them. Without a fault it fails exactly when some write is
     * refused (or there is no repository).
     */
    method BatchWrite(actor: Aid, writes: seq<Write>)
      returns (ok: bool, ghost done: seq<Write>, ghost row: Shard, ghost puts: seq<Block>, ghost fault: bool)
      requires Valid()
      modifies this, tids, store
      ensures |done| <= |writes| && forall i :: 0 <= i < |done| ==> Resolves(writes[i], done[i])
      ensures forall i :: 0 <= i < |done| && Keyless(writes[i]) ==> IsId(KeyOf(done[i]), tids.clockId)
      ensures punctual ==> KeysGiven(writes, done, old(tids.lastTime), tids.lastTime, tids.clockId)
      ensures ok ==> |done| == |writes| && actor in old(repos) && FoldWrites(lib, old(repos)[actor], done).Some?
      ensures ok ==> repos == old(repos)[actor := FoldWrites(lib, old(repos)[actor], done).value]
      ensures ok ==> AllAdmitted(old(repos)[actor], done) && LastWins(lib, old(repos)[actor], done, repos[actor])
      ensures ok ==> forall c, k :: done == [Delete(c, k)] ==> Changed(old(repos), repos, actor, PathOf(c, k), None)
      ensures ok ==> forall c, k, v :: done == [Create(c, Some(k), v)] || done == [Update(c, k, v)] ==>
                Changed(old(repos), repos, actor, PathOf(c, k), Some(lib.hash(v)))
      ensures ok ==> Committed(old(store.disk), store.disk, actor, row) && row.rev == TidOf(tids.lastTime, tids.clockId)
      ensures ok ==> known == old(known) + Contents(puts) && Puts(store.env, lib, Values(done), repos[actor], puts)
      ensures ok && Accepted(store.env, lib, old(known), puts, repos[actor]) ==> Valid() && Extends(old(known), known)
      ensures ok && Accepted(store.env, lib, old(known), puts, repos[actor]) ==>
                forall v :: v in Values(done) ==> Knows(known, Block(lib.hash(v), v))
      ensures !ok ==> Valid() && repos == old(repos) && known == old(known) && SameTables(old(store.disk), store.disk)
      ensures !ok && !fault && Unstuck(store.env, old(store.disk), actor) ==>
                actor !in repos || (FoldWrites(lib, repos[actor], done).None? && !AllAdmitted(repos[actor], done))
      ensures fault ==> !ok
      ensures fault && !store.env.faulty ==>
                |done| == |writes| && actor in repos && FoldWrites(lib, repos[actor], done).Some?
                && Unsuited(store.env, lib, Values(done), FoldWrites(lib, repos[actor], done).value, puts)
    {
      hide Durable, CacheOk, Refines, RepoIs, Lawful, Unstuck, StoredBy, Fits, ApplyAll, WritePlan, CidsIn,
           CommitCodec.DecodeSigned, FoldWrites, ApplyWrite, LastOf, Resolves, Committing, Contents, Sized, NoClash, Signs, Sound, Extends,
           RecordBlocks, Values, Repo.Working, PathOf, LastWins, AllAdmitted, KeyOf, IsId, KeysGiven, TidOf;
      NoKeys(writes, tids.lastTime, tids.lastTime, tids.clockId);
      row, puts, done := NO_SHARD, [], [];
      ghost var last, d := NO_SHARD, store.disk;
      var repo;
      repo, last, fault := Begin(actor);
      if repo.None? { return false, done, row, puts, fault; }
      var r := repo.value;
      ghost var m := repos[actor];
      ghost var t := m;
      NoWrites(lib, m);
      for i := 0 to |writes|
        invariant fresh(r) && fresh(r.session) && fresh(r.session.base) && Valid() && store.disk == d
        invariant repos == old(repos) && known == old(known)
        invariant r.Working(Some(m), t, known) && r.lib == lib && r.session.store == store && r.session.actor == actor && !r.session.readonly
        invariant R.FitsText(r.sc.did) && r.session.sq == last.seqno + 1 && r.puts == RecordBlocks(lib, Values(done))
        invariant |done| == i && forall k :: 0 <= k < i ==> Resolves(writes[k], done[k])
        invariant FoldWrites(lib, m, done) == Some(t)
        invariant forall k :: 0 <= k < i && Keyless(writes[k]) ==> IsId(KeyOf(done[k]), tids.clockId)
        invariant punctual ==> old(tids.lastTime) <= tids.lastTime
        invariant punctual ==> KeysGiven(writes, done, old(tids.lastTime), tids.lastTime, tids.clockId)
      {
        ghost var was := tids.lastTime;
        ghost var v, u;
        var accepted;
        accepted, v, u, fault := ApplyOne(r, writes[i], Some(m), t, done);
        if Keyless(writes[i]) { ItsId(v, tids.lastTime, tids.clockId); }
        if punctual { KeysSnoc(writes, done, v, old(tids.lastTime), was, tids.lastTime, tids.clockId); }
        FoldSnoc(lib, m, done, v);
        done := done + [v];
        FoldMeans(lib, m, done);
        if !accepted { return false, done, row, puts, fault; }
        t := u;
      }
      NextSeqFresh(store.env, d, actor, last);
      var slice;
      ghost var was := tids.lastTime;
      slice, row, fault := End(actor, r, Some(m), t, Values(done));
      if punctual { KeysLater(writes, done, old(tids.lastTime), was, tids.lastTime, tids.clockId); }
      puts := r.puts;
      CommittedRow(d, store.disk, actor, last, row);
      ok := slice.Some?;
      FoldMeans(lib, m, done);
      if |done| == 1 {
        assert done == [done[0]];
        OneWrite(lib, m, done[0], t);
      }
      if ok {
        forall i | 0 <= i < |Values(done)| && Accepted(store.env, lib, old(known), puts, t)
          ensures Knows(known, Block(lib.hash(Values(done)[i]), Values(done)[i]))
        {
          RecordKnown(store.env, lib, old(known), Values(done), t, puts, i);
        }
      }
    }

    /**
     * GetRecord: the identifier the actor's records have at the path, and the content known for
     * it. A caller that expects another identifier is refused. Read-only sessions never prefetch.
     */
    method GetRecord(actor: Aid, nsid: Bytes, key: Bytes, maybeCid: Option<Cid>) returns (r: Option<(Cid, Bytes)>, ghost fault: bool)
      requires Valid()
      modifies store`cache
      ensures Valid()
      ensures r.Some? ==> actor in repos && RecordAt(repos[actor], nsid, key) == Some(r.value.0)
      ensures r.Some? ==> Knows(known, Block(r.value.0, r.value.1)) && (maybeCid.Some? ==> maybeCid.value == r.value.0)
      ensures r.None? && !fault ==>
                actor !in repos || RecordAt(repos[actor], nsid, key).None?
                || (maybeCid.Some? && maybeCid != RecordAt(repos[actor], nsid, key))
      ensures fault ==> r.None? && store.env.faulty
    {
      hide Durable, CacheOk, Refines, RepoIs, Lawful, Unstuck, StoredBy, Fits, ApplyAll, WritePlan, CidsIn,
           CommitCodec.DecodeSigned, LastOf, Openable, PathOf, TreeStored, KnownBy;
      fault := true;
      var bs := ReadOnlySession(store, actor);
      ZeroRight(store.env, lib, store.disk, known, repos, store.cache);
      var head, last := store.GetActorRepoHead(actor);
      if head.None? { return None, fault; }
      ZeroKept(store.env, lib, store.disk, known, repos, old(store.cache), store.cache, actor, last);
      HeadOf(store.env, lib, store.disk, known, repos, actor, last);
      RefinesKnown(store.env, lib, store.disk, known, repos);
      NothingPut(store.env);
      var repo;
      if actor in repos { HeadOpens(store.env, lib, store.disk, known, repos, actor, last); }
      repo, fault := OpenRepo(lib, bs, head.value, known);
      if repo.None? { return None, fault; }
      OpenedHead(store.env, lib, store.disk, known, repos, actor, last);
      ghost var m := repos[actor];
      r, fault := repo.value.GetRecord(PathOf(nsid, key), Some(m), m, known);
      if r.None? { return None, fault; }
      if maybeCid.Some? && r.value.0 != maybeCid.value { return None, fault; }
    }

    /**
     * ReadRepo: the export of the actor's repository. As long as the clock was in range, the
     * export since a revision holds exactly the shards committed at or after it.
     */
    method ReadRepo(actor: Aid, since: Bytes, out: Buffer)
      returns (ok: bool, ghost early: Option<Shard>, ghost shs: seq<Shard>, ghost fault: bool)
      requires Valid()
      modifies out
      ensures ok ==> shs != [] && shs[0].root.Some? && IsLast(store.disk, actor, shs[0])
      ensures ok ==> out.bytes == old(out.bytes) + ShardFile(store.env, shs[0].root.value, AllBlocks(store.env, store.disk, shs))
      ensures ok ==> Exported(store.disk, actor, FirstSeq(early), shs) && (since != [] ==> early.Some?)
      ensures ok && since != [] && punctual ==>
                forall id :: id in Ids(shs) <==> id in RowIds(store.disk, actor) && AtOrAfter(store.disk.shards[id].rev, since)
      ensures !ok && !fault ==> NothingSince(store.disk, actor, since)
                                || (Listed(store.disk, actor, shs) && !HasBlocks(store.env, store.disk, shs))
    {
      hide Durable, CacheOk, Refines, Lawful, RevsOk, Exported, AllBlocks, ShardFile, NothingSince, HasBlocks, Listed,
           RowIds, AtOrAfter, Ids, IsLast, FirstSeq;
      ok, early, shs, fault := ReadActorCar(store.env, store.disk, actor, since, out);
      if ok && since != [] && punctual {
        UniqueHere(store.env, lib, store.disk, known, repos, actor);
        Increasing(store.disk, tids.lastTime, tids.clockId, actor);
        EarlySeq(early);
        var root := shs[0].root.value;
        ExportSince(store.env, store.disk, actor, since, early.value, shs, root);
      }
    }

    /** TakeDownRepo: the actor's repository is gone, everybody else's is as before. */
    method TakeDownRepo(actor: Aid) returns (ok: bool)
      requires Valid()
      modifies this, tids, store
      ensures ok ==> Valid() && repos == old(repos) - {actor} && RowIds(store.disk, actor) == {}
      ensures !ok ==> repos == old(repos) && Durable(store.env, store.disk) && store.env.faulty
      ensures known == old(known)
      ensures forall a :: a != actor ==> RowIds(store.disk, a) == RowIds(old(store.disk), a)
    {
      hide Durable, CacheOk, Refines, RepoIs, Lawful, Unstuck, StoredBy, Fits, ApplyAll, WritePlan, CidsIn,
           CommitCodec.DecodeSigned;
      ghost var d, shs, m := store.disk, [], 0;
      UniqueHere(store.env, lib, d, known, repos, actor);
      ok, shs, m := store.WipeActorData(actor);
      if ok {
        repos := repos - {actor};
        WithoutRows(d, actor, shs);
        if punctual { FewerRevs(d, store.disk, tids.lastTime, tids.clockId); }
        WipeRefines(store.env, lib, d, store.disk, known, old(repos), actor);
      }
    }
  }

  lemma Increasing(d: Disk, last: nat, clockId: nat, aid: Aid)
    requires RevsOk(d, last, clockId)
    ensures RevsIncrease(d, aid)
  {
    hide Stamp, RevsIncrease;
  }

  lemma EarlySeq(early: Option<Shard>)
    requires early.Some?
    ensures FirstSeq(early) == early.value.seqno
  {
  }

  lemma RevsBound(d: Disk, last: nat, clockId: nat, punctual: bool)
    requires punctual ==> RevsOk(d, last, clockId)
    ensures punctual ==> last < LATEST
  {
  }

  lemma NewRevs(env: Env, d: Disk, d': Disk, root: Cid, aid: Aid, sq: nat, order: seq<Block>, last: nat, t: nat, clockId: nat)
    requires Durable(env, d) && FreshSeq(d, aid, sq) && d' == ApplyAll(d, WritePlan(env, root, TidOf(t, clockId), aid, sq, Key(aid, sq), order))
    requires RevsOk(d, last, clockId) && last < t && EARLIEST <= t < LATEST
    ensures RevsOk(d', t, clockId)
  {
    hide Durable, ApplyAll, WritePlan, RevsOk, TidOf, FileHeader, Marks, ShardFile, StoredBy, CidsIn, RefsFor;
    WriteEffect(env, d, root, TidOf(t, clockId), aid, sq, Key(aid, sq), order);
    NextIdUnused(env, d);
    CommitRevs(d, d', NewRow(env, root, TidOf(t, clockId), aid, sq, Key(aid, sq)).(id := d.nextId), last, t, clockId);
  }

  lemma UniqueHere(env: Env, lib: Lib, d: Disk, known: map<Cid, Bytes>, repos: map<Aid, Records>, aid: Aid)
    requires Refines(env, lib, d, known, repos)
    ensures SeqUniqueFor(d, aid)
  {
    hide RepoIs, KnownBy;
    assert RepoIs(lib, d, known, aid, Lookup(repos, aid)) && SeqUniqueFor(d, aid);
  }

  lemma WithoutRows(d: Disk, aid: Aid, shs: seq<Shard>)
    ensures forall id :: id in Without(d, aid, shs).shards ==> id in d.shards && d.shards[id] == Without(d, aid, shs).shards[id]
  {
  }

  lemma NoWrites(lib: Lib, m: Records)
    ensures FoldWrites(lib, m, []) == Some(m) && RecordBlocks(lib, Values([])) == []
  {
  }

  /** One actor's records changed at one path: set to an identifier, or removed. */
  predicate Changed(before: map<Aid, Records>, after: map<Aid, Records>, aid: Aid, path: Bytes, c: Option<Cid>) {
    aid in before && after == before[aid := if c.Some? then before[aid][path := c.value] else before[aid] - {path}]
  }

  /** Exactly one new row, numbered one above the actor's highest before. */
  predicate Committed(d: Disk, d': Disk, aid: Aid, row: Shard) {
    NewShard(d, d', aid, row.seqno, row) && FreshSeq(d, aid, row.seqno)
    && (row.seqno == 1 || exists id :: id in d.shards && d.shards[id].aid == aid && d.shards[id].seqno + 1 == row.seqno)
  }

  lemma CommittedRow(d: Disk, d': Disk, aid: Aid, last: Shard, row: Shard)
    requires LastOf(d, aid, last)
    ensures NewShard(d, d', aid, last.seqno + 1, row) ==> Committed(d, d', aid, row)
  {
    if last != NO_SHARD { assert d.shards[last.id].seqno + 1 == last.seqno + 1; }
  }

  /** One row more, for this actor and with this number, and no row less. */
  predicate NewShard(d: Disk, d': Disk, aid: Aid, sq: nat, row: Shard) {
    row.aid == aid && row.seqno == sq && row.id == d.nextId && d'.shards == d.shards[d.nextId := row]
  }

  lemma ShardWritten(env: Env, d: Disk, root: Cid, rev: Bytes, aid: Aid, sq: nat, order: seq<Block>) returns (row: Shard)
    ensures NewShard(d, ApplyAll(d, WritePlan(env, root, rev, aid, sq, Key(aid, sq), order)), aid, sq, row) && row.rev == rev
  {
    hide ApplyAll, WritePlan, FileHeader, Marks, ShardFile, StoredBy, CidsIn, RefsFor;
    WriteEffect(env, d, root, rev, aid, sq, Key(aid, sq), order);
    row := NewRow(env, root, rev, aid, sq, Key(aid, sq)).(id := d.nextId);
  }

  /** A write that did not get to its rows changes no records. */
  lemma NotWritten(env: Env, lib: Lib, d: Disk, root: Cid, rev: Bytes, aid: Aid, sq: nat, order: seq<Block>, n: nat,
                   known: map<Cid, Bytes>, repos: map<Aid, Records>)
    requires Durable(env, d) && env.Valid() && FreshSeq(d, aid, sq) && n < 2 && Refines(env, lib, d, known, repos)
    ensures var d' := ApplyAll(d, WritePlan(env, root, rev, aid, sq, Key(aid, sq), order)[..n]);
            Refines(env, lib, d', known, repos) && SameTables(d, d')
  {
    var d' := ApplyAll(d, WritePlan(env, root, rev, aid, sq, Key(aid, sq), order)[..n]);
    RefinesKnown(env, lib, d, known, repos);
    hide Durable, Refines, ApplyAll, WritePlan, KnownBy, Extends, FreshSeq;
    PartWrite(env, d, root, rev, aid, sq, Key(aid, sq), order, n);
    ExtendsSelf(known);
    WrittenKnown(env, d, root, rev, aid, sq, order, n, known, known);
    SameRefines(env, lib, d, d', known, repos);
  }

  lemma OrderCids(order: seq<Block>, blks: map<Cid, Bytes>)
    requires Distinct(order) && Contents(order) == blks
    ensures CidsIn(order) == blks.Keys
  {
    ContentsOf(order);
  }

  /** Actor 0 never has a shard here, so the zero shard is the right answer for it. */
  lemma ZeroRight(env: Env, lib: Lib, d: Disk, known: map<Cid, Bytes>, repos: map<Aid, Records>, cache: map<Aid, Shard>)
    requires Refines(env, lib, d, known, repos) && (0 in cache ==> cache[0] == NO_SHARD)
    ensures CachedRight(cache, d, 0)
  {
    hide KnownBy;
    assert RepoIs(lib, d, known, 0, Lookup(repos, 0));
  }

  lemma ZeroKept(env: Env, lib: Lib, d: Disk, known: map<Cid, Bytes>, repos: map<Aid, Records>, before: map<Aid, Shard>, after: map<Aid, Shard>, aid: Aid, last: Shard)
    requires Refines(env, lib, d, known, repos) && (0 in before ==> before[0] == NO_SHARD)
    requires CachedAfter(before, after, aid, last) && LastOf(d, aid, last)
    ensures 0 in after ==> after[0] == NO_SHARD
  {
    hide KnownBy;
    assert RepoIs(lib, d, known, 0, Lookup(repos, 0));
  }

  lemma SameHead(env: Env, lib: Lib, d: Disk, known: map<Cid, Bytes>, repos: map<Aid, Records>, aid: Aid, x: Shard, y: Shard)
    requires Refines(env, lib, d, known, repos) && LastOf(d, aid, x) && LastOf(d, aid, y)
    ensures x == y
  {
    HeadOf(env, lib, d, known, repos, aid, x);
    HeadOf(env, lib, d, known, repos, aid, y);
    assert SeqUniqueFor(d, aid);
    hide RepoAt;
    if aid in repos { LastUnique(d, aid, x, y); }
  }

  lemma RefinesKnown(env: Env, lib: Lib, d: Disk, known: map<Cid, Bytes>, repos: map<Aid, Records>)
    requires Refines(env, lib, d, known, repos)
    ensures KnownBy(env, d, known)
  {
  }

  lemma NothingPut(env: Env)
    ensures Contents([]) == map[] && Checked(env, [])
  {
  }

  /** The block at the head is the commit to the actor's records. */
  lemma OpenedHead(env: Env, lib: Lib, d: Disk, known: map<Cid, Bytes>, repos: map<Aid, Records>, aid: Aid, last: Shard)
    requires Refines(env, lib, d, known, repos) && LastOf(d, aid, last) && last.root.Some?
    ensures aid != 0 && aid in repos && last.root.value in known && CommitOf(lib, known[last.root.value], repos[aid])
    ensures Complete(d, aid, last.root.value, repos[aid]) && TreeStored(lib, d, aid, repos[aid], known)
    ensures R.FitsText(CommitCodec.DecodeSigned(known[last.root.value]).value.did)
  {
    assert 0 !in repos;
    hide Refines, CommitCodec.DecodeSigned, CommitCodec.EncodeUnsigned, Complete, TreeStored;
    HeadOf(env, lib, d, known, repos, aid, last);
  }

  lemma HeadOpens(env: Env, lib: Lib, d: Disk, known: map<Cid, Bytes>, repos: map<Aid, Records>, aid: Aid, last: Shard)
    requires Refines(env, lib, d, known, repos) && LastOf(d, aid, last) && aid in repos
    ensures last.root.Some? && last.root.value in StoredBy(d, aid) && last.root.value in known && Openable(known[last.root.value])
  {
    hide Refines, CommitCodec.DecodeSigned, SignatureOk, TreeStored;
    HeadOf(env, lib, d, known, repos, aid, last);
  }

  /** What a working repository knows of the tree it was loaded from. */
  lemma LoadedTree(repo: Repo, m0: Option<Records>, t: Records, known: map<Cid, Bytes>)
    requires repo.Working(m0, t, known)
    ensures m0.Some? ==> TreeStored(repo.lib, repo.session.store.disk, repo.session.actor, m0.value, known)
    ensures Lawful(repo.session.store.env, repo.lib) && KnownBy(repo.session.store.env, repo.session.store.disk, known)
  {
    hide TreeStored, Lawful, KnownBy, Contents, Checked, CacheKnown;
  }

  /** The shard of accepted blocks fits, and all it holds is known afterwards. */
  lemma OrderKnown(env: Env, known: map<Cid, Bytes>, puts: seq<Block>, order: seq<Block>)
    requires NoClash(known, puts) && Sized(env, puts) && Checked(env, puts)
    requires Distinct(order) && Contents(order) == Contents(puts)
    ensures AllFit(env, order) && Extends(known, known + Contents(puts))
    ensures forall b :: b in order ==> Knows(known + Contents(puts), b)
    ensures forall b :: b in puts ==> Knows(known + Contents(puts), b) && b.cid in CidsIn(order)
  {
    MoreKnown(known, puts);
    OrderCids(order, Contents(puts));
    ContentsOf(order);
    hide Contents, NoClash, Distinct;
    forall i | 0 <= i < |order| ensures Fits(env, order[i]) && Knows(known + Contents(puts), order[i]) {
      assert Contents(order)[order[i].cid] == order[i].data;
      ContentsFrom(puts, order[i].cid);
      assert order[i] in puts;
      FitsMeans(env, order[i]);
    }
    hide Knows;
    forall b | b in puts ensures b.cid in CidsIn(order) {
      assert Knows(known + Contents(puts), b);
      PutKept(puts, b);
    }
  }

  lemma {:induction false} PutKept(puts: seq<Block>, b: Block)
    requires b in puts
    ensures b.cid in Contents(puts)
  {
    var n := |puts| - 1;
    assert puts == puts[..n] + [puts[n]];
    if b.cid != puts[n].cid { PutKept(puts[..n], b); }
  }

  /** Every node of the new tree is put, or was there with the same content. */
  lemma NodesKnown(env: Env, lib: Lib, d: Disk, aid: Aid, m0: Option<Records>, t: Records, known: map<Cid, Bytes>,
                   puts: seq<Block>, order: seq<Block>)
    requires Lawful(env, lib) && Sound(lib, t) && (m0.Some? ==> TreeStored(lib, d, aid, m0.value, known))
    requires Extends(known, known + Contents(puts))
    requires forall b :: b in puts ==> Knows(known + Contents(puts), b) && b.cid in CidsIn(order)
    requires forall c :: c in lib.written(m0, t) ==> c in lib.nodes(t) && Block(c, lib.nodes(t)[c]) in puts
    ensures forall c :: c in lib.nodes(t) ==> Knows(known + Contents(puts), Block(c, lib.nodes(t)[c])) && (c in CidsIn(order) || c in StoredBy(d, aid))
  {
    assert Saves(lib, m0, t) by { hide Contents, CidsIn, StoredBy, NodeLaw, WrittenLaw, HashLaw, SignLaw, Shows; }
    hide Contents, CidsIn, StoredBy, Lawful, Sound;
    var known' := known + Contents(puts);
    forall c | c in lib.nodes(t) ensures Knows(known', Block(c, lib.nodes(t)[c])) && (c in CidsIn(order) || c in StoredBy(d, aid)) {
      if c in lib.written(m0, t) {
        assert Block(c, lib.nodes(t)[c]) in puts;
      } else {
        assert Knows(known, Block(c, lib.nodes(m0.value)[c]));
        assert Knows(known', Block(c, known[c]));
      }
    }
  }

  /** A finished write of accepted blocks: the actor's records are those of the commit. */
  lemma Landed(env: Env, lib: Lib, d: Disk, known: map<Cid, Bytes>, repos: map<Aid, Records>, aid: Aid, root: Cid, bytes: Bytes,
               rev: Bytes, sq: nat, order: seq<Block>, puts: seq<Block>, m0: Option<Records>, t: Records)
    requires Durable(env, d) && env.Valid() && Lawful(env, lib) && Refines(env, lib, d, known, repos) && aid != 0 && FreshSeq(d, aid, sq)
    requires Accepted(env, lib, known, puts, t) && Checked(env, puts) && Distinct(order) && Contents(order) == Contents(puts)
    requires Block(root, bytes) in puts && CommitOf(lib, bytes, t) && (m0.Some? ==> TreeStored(lib, d, aid, m0.value, known))
    requires forall c :: c in lib.written(m0, t) ==> c in lib.nodes(t) && Block(c, lib.nodes(t)[c]) in puts
    requires forall p :: p in t ==> t[p] in Contents(puts) || t[p] in StoredBy(d, aid)
    ensures AllFit(env, order) && Extends(known, known + Contents(puts))
    ensures Refines(env, lib, ApplyAll(d, WritePlan(env, root, rev, aid, sq, Key(aid, sq), order)), known + Contents(puts), repos[aid := t])
  {
    hide Durable, Lawful, Refines, FreshSeq, Sized, NoClash, Sound, Checked, Distinct, Contents, CommitOf, TreeStored, StoredBy,
         AllFit, Extends, ApplyAll, WritePlan, CidsIn;
    OrderKnown(env, known, puts, order);
    OrderCids(order, Contents(puts));
    NodesKnown(env, lib, d, aid, m0, t, known, puts, order);
    assert Knows(known + Contents(puts), Block(root, bytes));
    CommitRefines(env, lib, d, known, repos, aid, root, rev, sq, order, known + Contents(puts), t);
  }

  lemma SizedWritable(env: Env, puts: seq<Block>)
    requires env.Valid() && Sized(env, puts)
    ensures AllWritable(Contents(puts))
  {
    hide Contents, Body, Writable;
    forall c | c in Contents(puts) ensures |Body(Block(c, Contents(puts)[c]))| <= env.limit { ContentsFrom(puts, c); }
    FitOrder(env, Contents(puts));
  }

  /** A record of a write is known after it. */
  lemma RecordKnown(env: Env, lib: Lib, known: map<Cid, Bytes>, values: seq<Bytes>, t: Records, puts: seq<Block>, i: nat)
    requires Puts(env, lib, values, t, puts) && i < |values|
    ensures NoClash(known, puts) ==> Knows(known + Contents(puts), Block(lib.hash(values[i]), values[i]))
  {
    hide Committing, Contents, NoClash;
    assert puts[i] == RecordBlocks(lib, values)[i];
    if NoClash(known, puts) { MoreKnown(known, puts); }
  }

  /** Records, then what the commit put. */
  lemma PutsAre(env: Env, lib: Lib, values: seq<Bytes>, t: Records, before: seq<Block>, puts: seq<Block>)
    requires before == RecordBlocks(lib, values) && before <= puts
    requires Committing(env, lib, t, puts[|before|..])
    ensures Puts(env, lib, values, t, puts)
  {
    hide Committing;
  }
}
