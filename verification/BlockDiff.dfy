/**
 * BlockDiff of user_service/internal/car/store.go: which blocks of the old tree a commit stops
 * using. Its worklist has no visited set, so blocks can be walked many times.
 */
module BlockDiff {
  import opened Prelude
  import opened Cids
  import opened Cbor
  import opened Items
  import opened Graph
  import opened Traversals

  datatype DiffError = NewUnreadable | RootKept | OldUnreadable

  /** The new identifiers and everything their blocks link to directly. */
  function KeepSet(bs: map<Cid, Bytes>, newcids: set<Cid>): set<Cid> {
    newcids + set c, l | c in newcids && Readable(bs, c) && l in LinksOf(bs, c) :: l
  }

  function NotKept(keep: set<Cid>): Cid -> bool {
    (c: Cid) => c.codec == DAG_CBOR && c !in keep
  }

  /** What the second walk follows: dag-cbor links outside the keep set. */
  function OldGraph(bs: map<Cid, Bytes>, keep: set<Cid>): Links {
    LinkGraph(bs, NotKept(keep))
  }

  // ----- why the worklist runs dry -----

  /** Links lead to blocks of smaller rank: block links form no cycle. */
  ghost predicate Ranked(g: Links, rank: Cid -> nat) {
    forall x, y :: x in g && y in g[x] ==> rank(y) < rank(x)
  }

  /** How often the worklist takes x or anything below it: one plus the paths that start at x. */
  ghost function Weight(g: Links, rank: Cid -> nat, x: Cid): nat
    requires Ranked(g, rank)
    decreases rank(x), 1, 0
  {
    1 + if x in g then WeightSum(g, rank, g[x], rank(x)) else 0
  }

  ghost function WeightSum(g: Links, rank: Cid -> nat, xs: seq<Cid>, bound: nat): nat
    requires Ranked(g, rank) && forall x :: x in xs ==> rank(x) < bound
    decreases bound, 0, |xs|
  {
    if xs == [] then 0 else Weight(g, rank, xs[0]) + WeightSum(g, rank, xs[1..], bound)
  }

  ghost function QueueWeight(g: Links, rank: Cid -> nat, xs: seq<Cid>): nat
    requires Ranked(g, rank)
  {
    if xs == [] then 0 else Weight(g, rank, xs[0]) + QueueWeight(g, rank, xs[1..])
  }

  lemma {:induction false} QueueWeightConcat(g: Links, rank: Cid -> nat, a: seq<Cid>, b: seq<Cid>)
    requires Ranked(g, rank)
    ensures QueueWeight(g, rank, a + b) == QueueWeight(g, rank, a) + QueueWeight(g, rank, b)
  {
    if a == [] {
      assert a + b == b;
    } else {
      assert (a + b)[1..] == a[1..] + b;
      QueueWeightConcat(g, rank, a[1..], b);
    }
  }

  lemma {:induction false} SumIsQueueWeight(g: Links, rank: Cid -> nat, xs: seq<Cid>, bound: nat)
    requires Ranked(g, rank) && forall x :: x in xs ==> rank(x) < bound
    ensures WeightSum(g, rank, xs, bound) == QueueWeight(g, rank, xs)
  {
    if xs != [] { SumIsQueueWeight(g, rank, xs[1..], bound); }
  }

  /** One round of the worklist: take the first block, append the links it has in the graph. */
  ghost function Round(g: Links, queue: seq<Cid>): seq<Cid>
    requires queue != []
  {
    queue[1..] + if queue[0] in g then g[queue[0]] else []
  }

  lemma RoundShrinks(g: Links, rank: Cid -> nat, queue: seq<Cid>)
    requires Ranked(g, rank) && queue != []
    ensures QueueWeight(g, rank, Round(g, queue)) < QueueWeight(g, rank, queue)
  {
    var x := queue[0];
    if x in g {
      QueueWeightConcat(g, rank, queue[1..], g[x]);
      SumIsQueueWeight(g, rank, g[x], rank(x));
    } else {
      assert Round(g, queue) == queue[1..];
    }
  }

  ghost function Rounds(g: Links, queue: seq<Cid>, n: nat): seq<Cid>
    decreases n
  {
    if n == 0 || queue == [] then queue else Rounds(g, Round(g, queue), n - 1)
  }

  ghost predicate Hits(queue: seq<Cid>, cycle: set<Cid>) {
    exists c :: c in cycle && c in queue
  }

  /** Every member of the set has a link back into it. */
  ghost predicate Closes(g: Links, cycle: set<Cid>) {
    forall c :: c in cycle ==> c in g && Hits(g[c], cycle)
  }

  lemma RoundHits(g: Links, cycle: set<Cid>, queue: seq<Cid>)
    requires Closes(g, cycle) && Hits(queue, cycle)
    ensures Hits(Round(g, queue), cycle)
  {
    var c :| c in cycle && c in queue;
    var next := Round(g, queue);
    if c == queue[0] {
      var d :| d in cycle && d in g[c];
      assert d in next;
    } else {
      assert queue == [queue[0]] + queue[1..];
      assert c in next;
    }
  }

  /** With a cycle in reach the worklist never runs dry, so acyclicity is needed. */
  lemma {:induction false} CycleNeverEnds(g: Links, cycle: set<Cid>, queue: seq<Cid>, n: nat)
    requires Closes(g, cycle) && Hits(queue, cycle)
    ensures Rounds(g, queue, n) != []
    decreases n
  {
    if n > 0 {
      assert queue != [];
      hide Round, Hits, Closes;
      RoundHits(g, cycle, queue);
      CycleNeverEnds(g, cycle, Round(g, queue), n - 1);
    }
  }

  // ----- the method -----

  /**
   * On acyclic stores the result is exactly the old root and what is reachable from it along
   * dag-cbor links outside the keep set; it is refused exactly when a block needed is missing or
   * unreadable or the old root is kept.
   */
  method Diff(bs: map<Cid, Bytes>, oldroot: Option<Cid>, newcids: set<Cid>, ghost rank: Cid -> nat)
    returns (r: Result<set<Cid>, DiffError>)
    requires Ranked(FullGraph(bs), rank)
    ensures oldroot.None? ==> r == Ok({})
    ensures oldroot.Some? ==>
      var keep := KeepSet(bs, newcids);
      var g := OldGraph(bs, keep);
      && (r.Ok? <==>
            && (forall c :: c in newcids ==> Readable(bs, c))
            && oldroot.value !in keep
            && (forall x :: Reaches(g, oldroot.value, x) ==> Readable(bs, x)))
      && (r.Ok? ==> forall x :: x in r.value <==> Reaches(g, oldroot.value, x))
    ensures oldroot.Some? && r.Ok? ==> DropMeans(bs, oldroot.value, newcids, r.value)
    ensures oldroot.Some? ==>
      (r.Ok? <==>
         && (forall c :: c in newcids ==> Readable(bs, c)) && !Kept(bs, newcids, oldroot.value)
         && exists s :: Droppable(bs, oldroot.value, newcids, s))
    ensures oldroot.Some? && r.Ok? ==> forall s :: Droppable(bs, oldroot.value, newcids, s) ==> r.value <= s
  {
    hide DropMeans, Kept, Droppable;
    if oldroot.Some? {
      KeptIs(bs, newcids, oldroot.value);
      forall s | Droppable(bs, oldroot.value, newcids, s)
        ensures forall x :: Reaches(OldGraph(bs, KeepSet(bs, newcids)), oldroot.value, x) ==> x in s && Readable(bs, x)
      {
        DropLeast(bs, oldroot.value, newcids, s);
      }
    }
    hide Reaches, Readable, ScanForLinks, LinkGraph, QueueWeight;
    if oldroot.None? { return Ok({}); }
    var root := oldroot.value;
    var k := MarkNew(bs, newcids);
    if k.None? { return Err(NewUnreadable); }
    var keep := k.value;
    if root in keep { return Err(RootKept); }
    ghost var g := OldGraph(bs, keep);
    OldGraphRanked(bs, keep, rank);
    ReachesSelf(g, root);
    var drop := {root};
    var queue := [root];
    while queue != []
      invariant Ranked(g, rank)
      invariant root in drop && ToSet(queue) <= drop
      invariant forall x :: x in drop ==> Reaches(g, root, x)
      invariant forall x :: x in drop && x !in queue ==> Readable(bs, x) && x in g && ToSet(g[x]) <= drop
      decreases QueueWeight(g, rank, queue)
    {
      ghost var was := queue;
      RoundShrinks(g, rank, queue);
      var c := queue[0];
      queue := queue[1..];
      assert was == [c] + queue;
      assert c in ToSet(was);
      var links := ReadLinks(bs, c);
      if links.None? { return Err(OldUnreadable); }
      OldLinks(bs, keep, c);
      var drop0 := drop;
      queue, drop := Enqueue(links.value, keep, queue, drop);
      assert queue == Round(g, was);
      forall x | x in drop ensures Reaches(g, root, x) {
        if x !in drop0 {
          ReachesEdge(g, c, x);
          ReachesTrans(g, root, c, x);
        }
      }
      forall x | x in drop && x !in queue
        ensures Readable(bs, x) && x in g && ToSet(g[x]) <= drop
      {
        assert x in drop0;
        assert x in was ==> x == c;
      }
    }
    forall x | Reaches(g, root, x) ensures x in drop {
      ClosedContains(g, drop, root, x);
    }
    DropIs(bs, root, newcids, drop);
    DroppedAll(bs, root, newcids, drop);
    return Ok(drop);
  }

  /** New, or linked to directly by a new block. */
  predicate Kept(bs: map<Cid, Bytes>, newcids: set<Cid>, x: Cid) {
    x in newcids || exists n :: n in newcids && Readable(bs, n) && x in LinksOf(bs, n)
  }

  /**
   * What is dropped, without the graph: the old root; besides it, only dag-cbor blocks that are
   * not kept and that a dropped block links to; and all of these.
   */
  predicate DropMeans(bs: map<Cid, Bytes>, root: Cid, newcids: set<Cid>, drop: set<Cid>) {
    && root in drop
    && (forall x :: x in drop && x != root ==>
          x.codec == DAG_CBOR && !Kept(bs, newcids, x) && exists y :: y in drop && Readable(bs, y) && x in LinksOf(bs, y))
    && (forall x, y :: y in drop && Readable(bs, y) && x in LinksOf(bs, y) && x.codec == DAG_CBOR && !Kept(bs, newcids, x) ==>
          x in drop)
  }

  /** These blocks could be dropped: the old root and, for each of them, all dag-cbor blocks it links to that are not kept. */
  predicate Droppable(bs: map<Cid, Bytes>, root: Cid, newcids: set<Cid>, s: set<Cid>) {
    && root in s && (forall x :: x in s ==> Readable(bs, x))
    && forall x, y :: y in s && x in LinksOf(bs, y) && x.codec == DAG_CBOR && !Kept(bs, newcids, x) ==> x in s
  }

  lemma DroppedAll(bs: map<Cid, Bytes>, root: Cid, newcids: set<Cid>, drop: set<Cid>)
    requires DropMeans(bs, root, newcids, drop) && forall x :: x in drop ==> Readable(bs, x)
    ensures Droppable(bs, root, newcids, drop)
  {
    hide ScanForLinks, Kept;
  }

  lemma DropLeast(bs: map<Cid, Bytes>, root: Cid, newcids: set<Cid>, s: set<Cid>)
    requires Droppable(bs, root, newcids, s)
    ensures forall x :: Reaches(OldGraph(bs, KeepSet(bs, newcids)), root, x) ==> x in s && Readable(bs, x)
  {
    hide Reaches, ScanForLinks, KeepSet, Kept;
    var g := OldGraph(bs, KeepSet(bs, newcids));
    forall y | y in s && y in g ensures ToSet(g[y]) <= s {
      forall x | x in g[y] ensures x in s { KeptIs(bs, newcids, x); }
    }
    forall x | Reaches(g, root, x) ensures x in s {
      ClosedContains(g, s, root, x);
    }
  }

  lemma KeptIs(bs: map<Cid, Bytes>, newcids: set<Cid>, x: Cid)
    ensures x in KeepSet(bs, newcids) <==> Kept(bs, newcids, x)
  {
    hide ScanForLinks;
  }

  lemma DropIs(bs: map<Cid, Bytes>, root: Cid, newcids: set<Cid>, drop: set<Cid>)
    requires forall x :: x in drop <==> Reaches(OldGraph(bs, KeepSet(bs, newcids)), root, x)
    ensures DropMeans(bs, root, newcids, drop)
  {
    hide Reaches, ScanForLinks, KeepSet, Kept;
    var g := OldGraph(bs, KeepSet(bs, newcids));
    ReachesSelf(g, root);
    forall x | x in drop && x != root
      ensures x.codec == DAG_CBOR && !Kept(bs, newcids, x) && exists y :: y in drop && Readable(bs, y) && x in LinksOf(bs, y)
    {
      var y := LastEdge(g, root, x);
      KeptIs(bs, newcids, x);
    }
    forall x, y | y in drop && Readable(bs, y) && x in LinksOf(bs, y) && x.codec == DAG_CBOR && !Kept(bs, newcids, x)
      ensures x in drop
    {
      KeptIs(bs, newcids, x);
      ReachesEdge(g, y, x);
      ReachesTrans(g, root, y, x);
    }
  }

  /** Get and scan one block; None stands for either error. */
  method ReadLinks(bs: map<Cid, Bytes>, c: Cid) returns (links: Option<seq<Cid>>)
    ensures links == if Readable(bs, c) then Some(LinksOf(bs, c)) else None
  {
    if c !in bs { return None; }
    return ScanForLinks(bs[c]);
  }

  method MarkNew(bs: map<Cid, Bytes>, newcids: set<Cid>) returns (keep: Option<set<Cid>>)
    ensures keep.Some? <==> forall c :: c in newcids ==> Readable(bs, c)
    ensures keep.Some? ==> keep.value == KeepSet(bs, newcids)
  {
    hide Readable, LinksOf;
    var todo := newcids;
    var k: set<Cid> := {};
    while todo != {}
      invariant todo <= newcids
      invariant forall c :: c in newcids - todo ==> Readable(bs, c)
      invariant k == KeepSet(bs, newcids - todo)
      decreases todo
    {
      var c :| c in todo;
      ghost var seen := newcids - todo;
      todo := todo - {c};
      var links := ReadLinks(bs, c);
      if links.None? { return None; }
      k := k + {c} + ToSet(links.value);
      assert newcids - todo == seen + {c};
    }
    assert newcids - todo == newcids;
    return Some(k);
  }

  /** The callback of the second scan: each accepted link is dropped and queued, repetitions included. */
  method Enqueue(links: seq<Cid>, keep: set<Cid>, queue0: seq<Cid>, drop0: set<Cid>)
    returns (queue: seq<Cid>, drop: set<Cid>)
    ensures queue == queue0 + Filter(links, NotKept(keep))
    ensures drop == drop0 + ToSet(Filter(links, NotKept(keep)))
  {
    hide Filter, ToSet;
    queue, drop := queue0, drop0;
    assert Filter([], NotKept(keep)) == [] && ToSet<Cid>([]) == {} by { FilterNone(NotKept(keep)); }
    assert links[..0] == [];
    for i := 0 to |links|
      invariant queue == queue0 + Filter(links[..i], NotKept(keep))
      invariant drop == drop0 + ToSet(Filter(links[..i], NotKept(keep)))
    {
      var l := links[i];
      assert links[..i + 1] == links[..i] + [l];
      FilterSnoc(links[..i], l, NotKept(keep));
      UnionSnoc(Filter(links[..i], NotKept(keep)), l);
      if l.codec == DAG_CBOR && l !in keep {
        drop := drop + {l};
        queue := queue + [l];
      }
    }
    assert links[..|links|] == links;
  }

  lemma UnionSnoc(cs: seq<Cid>, c: Cid)
    ensures ToSet(cs + [c]) == ToSet(cs) + {c}
    ensures cs + [] == cs
  {
  }

  lemma FilterNone(keep: Cid -> bool)
    ensures Filter([], keep) == [] && ToSet<Cid>([]) == {}
  {
  }

  lemma OldGraphRanked(bs: map<Cid, Bytes>, keep: set<Cid>, rank: Cid -> nat)
    requires Ranked(FullGraph(bs), rank)
    ensures Ranked(OldGraph(bs, keep), rank)
  {
    hide ScanForLinks;
    var g, full := OldGraph(bs, keep), FullGraph(bs);
    forall x, y | x in g && y in g[x] ensures rank(y) < rank(x) {
      assert x in full && y in full[x];
    }
  }

  lemma OldLinks(bs: map<Cid, Bytes>, keep: set<Cid>, c: Cid)
    requires Readable(bs, c)
    ensures var g := OldGraph(bs, keep); c in g && g[c] == Filter(LinksOf(bs, c), NotKept(keep))
  {
  }

  // ----- is it safe to drop them? -----

  ghost predicate Dropped(bs: map<Cid, Bytes>, root: Cid, newcids: set<Cid>, x: Cid) {
    Reaches(OldGraph(bs, KeepSet(bs, newcids)), root, x)
  }

  /** Still in use: some new block reaches it. */
  ghost predicate InUse(bs: map<Cid, Bytes>, newcids: set<Cid>, x: Cid) {
    exists n :: n in newcids && Reaches(FullGraph(bs), n, x)
  }

  /** No old block that is still in use, and stays, links to one that goes. */
  ghost predicate CutOff(bs: map<Cid, Bytes>, root: Cid, newcids: set<Cid>) {
    forall y, x :: InUse(bs, newcids, y) && y !in newcids && Edge(FullGraph(bs), y, x) && Dropped(bs, root, newcids, x) ==>
      Dropped(bs, root, newcids, y)
  }

  /** Nothing that is still in use is dropped, exactly when no old block in use loses a link. */
  lemma DropIsSafeIff(bs: map<Cid, Bytes>, root: Cid, newcids: set<Cid>)
    requires (forall c :: c in newcids ==> Readable(bs, c)) && root !in KeepSet(bs, newcids)
    ensures (forall x :: InUse(bs, newcids, x) ==> !Dropped(bs, root, newcids, x)) <==> CutOff(bs, root, newcids)
  {
    hide Reaches, PathFromTo, LinkGraph, KeepSet, Readable, Dropped;
    if CutOff(bs, root, newcids) {
      forall x | InUse(bs, newcids, x) ensures !Dropped(bs, root, newcids, x) {
        var n :| n in newcids && Reaches(FullGraph(bs), n, x);
        var p := PathOf(FullGraph(bs), n, x);
        if Dropped(bs, root, newcids, x) {
          WalkBack(bs, root, newcids, p, |p| - 1);
          NewNotDropped(bs, root, newcids, n);
        }
      }
    } else {
      var y, x :| InUse(bs, newcids, y) && y !in newcids && Edge(FullGraph(bs), y, x) && Dropped(bs, root, newcids, x)
                  && !Dropped(bs, root, newcids, y);
      InUseStep(bs, newcids, y, x);
    }
  }

  lemma InUseStep(bs: map<Cid, Bytes>, newcids: set<Cid>, y: Cid, x: Cid)
    requires InUse(bs, newcids, y) && Edge(FullGraph(bs), y, x)
    ensures InUse(bs, newcids, x)
  {
    hide Reaches, LinkGraph;
    var full := FullGraph(bs);
    var n :| n in newcids && Reaches(full, n, y);
    ReachesEdge(full, y, x);
    ReachesTrans(full, n, y, x);
  }

  lemma NewNotDropped(bs: map<Cid, Bytes>, root: Cid, newcids: set<Cid>, n: Cid)
    requires n in newcids && root !in KeepSet(bs, newcids)
    ensures !Dropped(bs, root, newcids, n)
  {
    hide Reaches, LinkGraph, Readable;
    if Dropped(bs, root, newcids, n) { DroppedNotKept(bs, root, KeepSet(bs, newcids), n); }
  }

  /** A block of the old tree, or one still in use. */
  ghost predicate Live(bs: map<Cid, Bytes>, root: Cid, newcids: set<Cid>, p: Cid) {
    Reaches(FullGraph(bs), root, p) || InUse(bs, newcids, p)
  }

  /** Among the live old blocks no dropped one has two parents, and the old root has none. */
  ghost predicate OneOldParent(bs: map<Cid, Bytes>, root: Cid, newcids: set<Cid>) {
    var full := FullGraph(bs);
    && (forall p :: p !in newcids && Live(bs, root, newcids, p) ==> !Edge(full, p, root))
    && (forall p, q, x ::
          (p !in newcids && q !in newcids && Live(bs, root, newcids, p) && Live(bs, root, newcids, q)
           && Edge(full, p, x) && Edge(full, q, x) && Dropped(bs, root, newcids, x)) ==> p == q)
  }

  /** So dropping is safe when the old tree shares no block with itself. */
  lemma DropIsSafe(bs: map<Cid, Bytes>, root: Cid, newcids: set<Cid>, x: Cid)
    requires (forall c :: c in newcids ==> Readable(bs, c)) && root !in KeepSet(bs, newcids)
    requires OneOldParent(bs, root, newcids) && InUse(bs, newcids, x)
    ensures !Dropped(bs, root, newcids, x)
  {
    DropIsSafeIff(bs, root, newcids);
    hide Reaches, LinkGraph, KeepSet, Readable, InUse;
    var keep := KeepSet(bs, newcids);
    var g, full := OldGraph(bs, keep), FullGraph(bs);
    forall y, x | InUse(bs, newcids, y) && y !in newcids && Edge(full, y, x) && Dropped(bs, root, newcids, x)
      ensures Dropped(bs, root, newcids, y)
    {
      assert Live(bs, root, newcids, y) && x != root;
      var z := LastEdge(g, root, x);
      OldReaches(bs, keep, root, z);
      OldEdgeIsEdge(bs, keep, z, x);
      if z in newcids { NewNotDropped(bs, root, newcids, z); }
      assert Live(bs, root, newcids, z);
    }
  }

  lemma OldReaches(bs: map<Cid, Bytes>, keep: set<Cid>, a: Cid, b: Cid)
    requires Reaches(OldGraph(bs, keep), a, b)
    ensures Reaches(FullGraph(bs), a, b)
  {
    hide LinkGraph;
    var p := PathOf(OldGraph(bs, keep), a, b);
    forall i | 0 <= i < |p| - 1 ensures Edge(FullGraph(bs), p[i], p[i + 1]) {
      OldEdgeIsEdge(bs, keep, p[i], p[i + 1]);
    }
    assert PathFromTo(FullGraph(bs), a, b, p);
  }

  lemma PathOf(g: Links, a: Cid, b: Cid) returns (p: seq<Cid>)
    requires Reaches(g, a, b)
    ensures IsPath(g, p) && p[0] == a && p[|p| - 1] == b
  {
    p :| PathFromTo(g, a, b, p);
  }

  lemma DroppedNotKept(bs: map<Cid, Bytes>, root: Cid, keep: set<Cid>, x: Cid)
    requires root !in keep && Reaches(OldGraph(bs, keep), root, x)
    ensures x !in keep
  {
    hide Reaches, ScanForLinks;
    if x != root {
      var z := LastEdge(OldGraph(bs, keep), root, x);
    }
  }

  lemma {:induction false} WalkBack(bs: map<Cid, Bytes>, root: Cid, newcids: set<Cid>, p: seq<Cid>, i: nat)
    requires forall c :: c in newcids ==> Readable(bs, c)
    requires root !in KeepSet(bs, newcids) && CutOff(bs, root, newcids)
    requires IsPath(FullGraph(bs), p) && i < |p| && p[0] in newcids && Dropped(bs, root, newcids, p[i])
    ensures Dropped(bs, root, newcids, p[0])
    decreases i
  {
    hide Reaches, Readable, LinkGraph;
    if i > 0 {
      var keep, full := KeepSet(bs, newcids), FullGraph(bs);
      var y, x := p[i - 1], p[i];
      assert Edge(full, y, x);
      DroppedNotKept(bs, root, keep, x);
      if y in newcids {
        FullLinks(bs, y);
      } else {
        OnPath(bs, newcids, p, i - 1);
        WalkBack(bs, root, newcids, p, i - 1);
      }
    }
  }

  lemma OnPath(bs: map<Cid, Bytes>, newcids: set<Cid>, p: seq<Cid>, i: nat)
    requires IsPath(FullGraph(bs), p) && i < |p| && p[0] in newcids
    ensures InUse(bs, newcids, p[i])
  {
    hide LinkGraph;
    var q := p[..i + 1];
    forall k | 0 <= k < |q| - 1 ensures Edge(FullGraph(bs), q[k], q[k + 1]) {
      assert Edge(FullGraph(bs), p[k], p[k + 1]);
    }
    assert PathFromTo(FullGraph(bs), p[0], p[i], q);
  }

  lemma FullLinks(bs: map<Cid, Bytes>, c: Cid)
    requires Readable(bs, c)
    ensures c in FullGraph(bs) && FullGraph(bs)[c] == LinksOf(bs, c)
  {
    AllLinks(bs, c);
  }

  lemma OldEdgeIsEdge(bs: map<Cid, Bytes>, keep: set<Cid>, a: Cid, b: Cid)
    requires Edge(OldGraph(bs, keep), a, b)
    ensures Edge(FullGraph(bs), a, b)
  {
    hide ScanForLinks;
  }

  // ----- the hypothesis is needed -----

  /** A block holding just an array of links. */
  function LinkBlock(ls: seq<Cid>): Bytes
    requires |ls| < TWO_64
  {
    Encode(LinkList(ls))
  }

  function LinkList(ls: seq<Cid>): (i: Item)
    ensures |ls| < TWO_64 ==> WellFormed(i)
  {
    List(seq(|ls|, k requires 0 <= k < |ls| => Link(ls[k])))
  }

  lemma {:induction false} LinkListLinks(ls: seq<Cid>)
    ensures LinksIn(LinkList(ls)) == ls
  {
    if ls != [] {
      LinkListLinks(ls[1..]);
      var items := LinkList(ls).items;
      assert items[1..] == LinkList(ls[1..]).items;
      assert ListLinks(items) == LinksIn(items[0]) + ListLinks(items[1..]);
      assert [ls[0]] + ls[1..] == ls;
    }
  }

  /** Scanning such a block finds exactly its links. */
  lemma LinkBlockScan(ls: seq<Cid>)
    requires |ls| < TWO_64 && forall i :: 0 <= i < |ls| ==> |CidBytes(ls[i])| < MAX_LINK
    ensures ScanForLinks(LinkBlock(ls)) == Some(ls)
  {
    hide LinkList, Encode, LinksIn, ScanForLinks;
    LinkListLinks(ls);
    LinksFound(LinkList(ls));
  }

  /** The i-th of some small dag-cbor identifiers. */
  function Small(i: byte): Cid { Cid(DAG_CBOR, 0x12, [i]) }

  lemma SmallBytes(i: byte)
    ensures |CidBytes(Small(i))| < MAX_LINK
  {
    assert Uvarint(1) == [1] && Uvarint(0x71) == [0x71] && Uvarint(0x12) == [0x12];
  }

  /**
   * Two old records with the same bytes are one block with two parents. The old root 1 links to
   * 2 and 3, which both link to the record 4. The new root 5 keeps 3 and replaces 2 by 6, so
   * record 4 is still in use, and it is dropped.
   */
  lemma SharedRecordDropped() returns (bs: map<Cid, Bytes>, newcids: set<Cid>)
    ensures forall c :: c in newcids ==> Readable(bs, c)
    ensures Small(1) !in KeepSet(bs, newcids) && Small(5) in newcids
    ensures InUse(bs, newcids, Small(4)) && Dropped(bs, Small(1), newcids, Small(4))
  {
    hide Reaches, KeepSet, LinkGraph;
    bs := SharedRecordStore();
    newcids := {Small(5), Small(6)};
    SharedRecordKept(bs);
    var keep := KeepSet(bs, newcids);
    var full, g := FullGraph(bs), OldGraph(bs, keep);
    AllLinks(bs, Small(5));
    AllLinks(bs, Small(3));
    OldLinks(bs, keep, Small(1));
    OldLinks(bs, keep, Small(2));
    SmallDistinct();
    ReachesEdge(full, Small(5), Small(3));
    ReachesEdge(full, Small(3), Small(4));
    ReachesTrans(full, Small(5), Small(3), Small(4));
    ReachesEdge(g, Small(1), Small(2));
    ReachesEdge(g, Small(2), Small(4));
    ReachesTrans(g, Small(1), Small(2), Small(4));
  }

  ghost predicate LinksTo(bs: map<Cid, Bytes>, c: Cid, ls: seq<Cid>) {
    Readable(bs, c) && LinksOf(bs, c) == ls
  }

  lemma SmallBlocks()
    ensures ScanForLinks(LinkBlock([Small(2), Small(3)])) == Some([Small(2), Small(3)])
    ensures ScanForLinks(LinkBlock([Small(4)])) == Some([Small(4)])
    ensures ScanForLinks(LinkBlock([Small(6), Small(3)])) == Some([Small(6), Small(3)])
    ensures ScanForLinks(LinkBlock([])) == Some([])
  {
    hide LinkBlock, ScanForLinks, CidBytes, Small;
    SmallBytes(2); SmallBytes(3); SmallBytes(4); SmallBytes(6);
    LinkBlockScan([Small(2), Small(3)]);
    LinkBlockScan([Small(4)]);
    LinkBlockScan([Small(6), Small(3)]);
    LinkBlockScan([]);
  }

  lemma SharedRecordStore() returns (bs: map<Cid, Bytes>)
    ensures LinksTo(bs, Small(1), [Small(2), Small(3)]) && LinksTo(bs, Small(2), [Small(4)])
    ensures LinksTo(bs, Small(3), [Small(4)]) && LinksTo(bs, Small(5), [Small(6), Small(3)])
    ensures LinksTo(bs, Small(6), [])
  {
    SmallBlocks();
    SmallDistinct();
    hide LinkBlock, ScanForLinks, Small;
    var leaf := LinkBlock([]);
    bs := map[Small(1) := LinkBlock([Small(2), Small(3)]), Small(2) := LinkBlock([Small(4)]),
              Small(3) := LinkBlock([Small(4)]), Small(4) := leaf,
              Small(5) := LinkBlock([Small(6), Small(3)]), Small(6) := leaf];
  }

  lemma SharedRecordKept(bs: map<Cid, Bytes>)
    requires LinksTo(bs, Small(5), [Small(6), Small(3)]) && LinksTo(bs, Small(6), [])
    ensures KeepSet(bs, {Small(5), Small(6)}) == {Small(5), Small(6), Small(3)}
  {
    hide ScanForLinks, Small, Readable, LinksOf;
    assert Small(6) in LinksOf(bs, Small(5)) && Small(3) in LinksOf(bs, Small(5));
  }

  lemma SmallDistinct()
    ensures forall i: byte, j: byte :: i != j ==> Small(i) != Small(j)
  {
    forall i: byte, j: byte | i != j ensures Small(i) != Small(j) {
      assert Small(i).digest[0] == i && Small(j).digest[0] == j;
    }
  }
}
