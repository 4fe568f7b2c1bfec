/**
 * The recursive traversals of the block graph: walkTree of user_service/internal/repo/manager.go
 * and copyRecCbor of user_service/internal/repo/repo.go.
 */
module Traversals {
  import opened Prelude
  import opened Cids
  import opened Cbor
  import opened Graph

  // ----- walkTree -----

  datatype WalkError = NotDagCbor | NotFound | Malformed

  function NonRaw(): Cid -> bool { (c: Cid) => c.codec != RAW }

  function TreeGraph(bs: map<Cid, Bytes>): Links { LinkGraph(bs, NonRaw()) }

  /** Every identifier some block of the store links to. */
  function Universe(bs: map<Cid, Bytes>): set<Cid> {
    set c, l | c in bs && Readable(bs, c) && l in LinksOf(bs, c) :: l
  }

  /** A reachable identifier that makes walkTree fail: the wrong codec, or a block it cannot scan. */
  predicate Bad(bs: map<Cid, Bytes>, x: Cid) {
    x.codec != DAG_CBOR || (x in bs && !Readable(bs, x))
  }

  /** walkTree, called with prevMissing set; the skip map is shared by all recursive calls. */
  class TreeWalker {
    const bs: map<Cid, Bytes>
    var skip: set<Cid>

    constructor (bs: map<Cid, Bytes>)
      ensures this.bs == bs && skip == {}
    {
      this.bs, skip := bs, {};
    }

    method WalkTree(root: Cid) returns (r: Result<seq<Cid>, WalkError>)
      modifies this
      ensures old(skip) <= skip
      ensures r.Ok? ==> Walked(bs, old(skip), skip, root, r.value)
      ensures r == Err(NotFound) ==> root !in bs && root.codec == DAG_CBOR && skip == old(skip)
      ensures r.Err? && r != Err(NotFound) ==> exists x :: Reaches(TreeGraph(bs), root, x) && Bad(bs, x)
      decreases Universe(bs) - skip
    {
      hide Reaches, Walked, Partial, ScanForLinks;
      var g := TreeGraph(bs);
      ReachesSelf(g, root);
      if root.codec != DAG_CBOR { return Err(NotDagCbor); }
      if root !in bs { return Err(NotFound); }
      var scan := ScanForLinks(bs[root]);
      if scan.None? { return Err(Malformed); }
      var links := MarkLinks(scan.value);
      var out := [root];
      skip := skip + {root};
      PartialStart(bs, old(skip), root, links);
      assert skip == old(skip) + ToSet(links) + {root} && links[0..] == links;
      for i := 0 to |links|
        invariant old(skip) <= skip && ToSet(links) <= skip
        invariant Partial(bs, old(skip), skip, root, links[i..], out)
      {
        ghost var was := skip;
        var c := links[i];
        assert c == links[i..][0] && links[i..][1..] == links[i + 1..];
        assert c in Universe(bs) && c !in old(skip);
        var sub := WalkTree(c);
        PendingReached(bs, old(skip), was, root, links[i..], out);
        if sub.Err? && sub.error != NotFound {
          ghost var x :| Reaches(g, c, x) && Bad(bs, x);
          ReachesTrans(g, root, c, x);
          return Err(sub.error);
        }
        if sub.Ok? {
          assert Partial(bs, was, skip, c, [], sub.value) by { WalkedIsPartial(bs, was, skip, c, sub.value); }
          PartialStep(bs, old(skip), was, skip, root, links[i..], out, sub.value);
          out := out + sub.value;
        } else {
          PartialMissing(bs, old(skip), skip, root, links[i..], out);
        }
      }
      assert links[|links|..] == [];
      WalkedIsPartial(bs, old(skip), skip, root, out);
      return Ok(out);
    }

    /** The callback of ScanForLinks: collect and mark the links to visit. */
    method MarkLinks(cs: seq<Cid>) returns (links: seq<Cid>)
      modifies this
      ensures skip == old(skip) + ToSet(links) && ToSet(links) !! old(skip) && NoDup(links)
      ensures forall c :: c in links <==> c in cs && c.codec != RAW && c !in old(skip)
    {
      links := [];
      for j := 0 to |cs|
        invariant skip == old(skip) + ToSet(links) && ToSet(links) !! old(skip) && NoDup(links)
        invariant forall c :: c in links <==> c in cs[..j] && c.codec != RAW && c !in old(skip)
      {
        var c := cs[j];
        assert cs[..j + 1] == cs[..j] + [c];
        if c.codec != RAW && c !in skip {
          assert c !in ToSet(links);
          links := links + [c];
          skip := skip + {c};
        }
      }
      assert cs[..|cs|] == cs;
    }
  }

  /** What a successful call says about its result and the marks it leaves. */
  ghost predicate Walked(bs: map<Cid, Bytes>, before: set<Cid>, after: set<Cid>, root: Cid, out: seq<Cid>) {
    Partial(bs, before, after, root, [], out)
  }

  /** The state of a call that still has to visit `pending`, a suffix of its marked links. */
  ghost predicate Partial(
    bs: map<Cid, Bytes>, before: set<Cid>, skip: set<Cid>, root: Cid, pending: seq<Cid>, out: seq<Cid>)
  {
    var g := TreeGraph(bs);
    && before <= skip && root in skip && Readable(bs, root) && root.codec == DAG_CBOR
    && ToSet(pending) <= skip && ToSet(pending) !! before && NoDup(pending)
    && out != [] && out[0] == root
    && ToSet(out) == {root} + (skip - before - ToSet(pending)) * bs.Keys
    && (forall x :: x in out ==> x in g && ToSet(g[x]) <= skip)
    && (forall x :: x in skip - before ==> Reaches(g, root, x))
    && (forall x :: x in skip - before && x !in pending ==> !Bad(bs, x))
    && (root in before || root !in g[root] ==> NoDup(out) && root !in pending)
    && (root !in before && root in g[root] ==> root in pending || root in out[1..])
  }

  lemma PartialStart(bs: map<Cid, Bytes>, before: set<Cid>, root: Cid, links: seq<Cid>)
    requires Readable(bs, root) && root.codec == DAG_CBOR
    requires ToSet(links) !! before && NoDup(links)
    requires forall c :: c in links <==> c in LinksOf(bs, root) && c.codec != RAW && c !in before
    ensures Partial(bs, before, before + ToSet(links) + {root}, root, links, [root])
  {
    hide Reaches, ScanForLinks;
    var g := TreeGraph(bs);
    var skip := before + ToSet(links) + {root};
    ReachesSelf(g, root);
    forall x | x in ToSet(links) ensures Reaches(g, root, x) {
      ReachesEdge(g, root, x);
    }
    assert ToSet(g[root]) <= skip;
    assert ToSet([root]) == {root};
  }

  lemma NoDupConcat<T>(a: seq<T>, b: seq<T>)
    requires NoDup(a) && NoDup(b) && ToSet(a) !! ToSet(b)
    ensures NoDup(a + b)
  {
    forall i, j | 0 <= i < j < |a + b| ensures (a + b)[i] != (a + b)[j] {
      if i < |a| <= j {
        assert a[i] in ToSet(a) && b[j - |a|] in ToSet(b);
      }
    }
  }

  /** Visiting the next link, which has no block: only the list of pending links changes. */
  lemma PartialMissing(
      bs: map<Cid, Bytes>, before: set<Cid>, skip: set<Cid>, root: Cid, pending: seq<Cid>, out: seq<Cid>)
    requires Partial(bs, before, skip, root, pending, out) && pending != []
    requires pending[0] !in bs && pending[0].codec == DAG_CBOR
    ensures Partial(bs, before, skip, root, pending[1..], out)
  {
    hide Reaches, Bad, LinkGraph, ScanForLinks;
    var c, rest := pending[0], pending[1..];
    assert pending == [c] + rest && c != root;
    assert ToSet(pending) == {c} + ToSet(rest);
    CodecFine(bs, c);
  }

  /** Visiting the next link successfully. */
  lemma PartialStep(
      bs: map<Cid, Bytes>, before: set<Cid>, was: set<Cid>, skip: set<Cid>, root: Cid,
      pending: seq<Cid>, out: seq<Cid>, sub: seq<Cid>)
    requires Partial(bs, before, was, root, pending, out) && pending != [] && was <= skip
    requires Partial(bs, was, skip, pending[0], [], sub)
    ensures Partial(bs, before, skip, root, pending[1..], out + sub)
  {
    hide Reaches, Bad, LinkGraph, ScanForLinks;
    var g := TreeGraph(bs);
    var c, rest, out' := pending[0], pending[1..], out + sub;
    assert pending == [c] + rest && c !in rest;
    assert ToSet(pending) == {c} + ToSet(rest);
    assert forall x :: x in out' <==> x in out || x in sub;
    assert ToSet(sub) == {c} + (skip - was) * bs.Keys;
    assert ToSet(out') == ToSet(out) + ToSet(sub);
    assert ToSet(out') == {root} + (skip - before - ToSet(rest)) * bs.Keys;
    forall x | x in skip - before ensures Reaches(g, root, x) {
      if x !in was { ReachesTrans(g, root, c, x); }
    }
    CodecFine(bs, c);
    StepDuplicates(bs, before, was, root, pending, out, sub);
  }

  lemma PendingReached(
      bs: map<Cid, Bytes>, before: set<Cid>, skip: set<Cid>, root: Cid, pending: seq<Cid>, out: seq<Cid>)
    requires Partial(bs, before, skip, root, pending, out) && pending != []
    ensures Reaches(TreeGraph(bs), root, pending[0])
  {
    hide Reaches, LinkGraph, ScanForLinks;
    assert pending[0] in ToSet(pending);
  }

  /** Visiting a link adds no duplicate, except for a root that links to itself. */
  lemma StepDuplicates(
      bs: map<Cid, Bytes>, before: set<Cid>, was: set<Cid>, root: Cid, pending: seq<Cid>, out: seq<Cid>, sub: seq<Cid>)
    requires Partial(bs, before, was, root, pending, out) && pending != []
    requires NoDup(sub) && sub != [] && sub[0] == pending[0]
    requires ToSet(sub) * was <= {pending[0]}
    ensures var g := TreeGraph(bs);
            && (root in before || root !in g[root] ==> NoDup(out + sub) && root !in pending[1..])
            && (root !in before && root in g[root] ==> root in pending[1..] || root in (out + sub)[1..])
  {
    hide Reaches, Bad, LinkGraph, ScanForLinks;
    var g := TreeGraph(bs);
    var c, rest := pending[0], pending[1..];
    assert pending == [c] + rest;
    assert (out + sub)[1..] == out[1..] + sub;
    if root in before || root !in g[root] {
      assert c in ToSet(pending);
      assert ToSet(out) !! ToSet(sub) by {
        assert ToSet(out) <= was && c != root;
        assert forall x :: x in ToSet(out) && x in ToSet(sub) ==> x in ToSet(sub) * was;
      }
      NoDupConcat(out, sub);
    }
  }

  lemma CodecFine(bs: map<Cid, Bytes>, c: Cid)
    ensures c !in bs && c.codec == DAG_CBOR ==> !Bad(bs, c)
    ensures Readable(bs, c) && c.codec == DAG_CBOR ==> !Bad(bs, c)
  {
  }

  lemma WalkedIsPartial(bs: map<Cid, Bytes>, before: set<Cid>, after: set<Cid>, root: Cid, out: seq<Cid>)
    ensures Walked(bs, before, after, root, out) <==> Partial(bs, before, after, root, [], out)
  {
  }

  /**
   * From an empty skip map, the result is exactly the stored blocks reachable from the root
   * through stored blocks along non-raw links, each once unless the root links to itself.
   */
  lemma WalkedExactly(bs: map<Cid, Bytes>, root: Cid, after: set<Cid>, out: seq<Cid>)
    requires Walked(bs, {}, after, root, out)
    ensures forall x :: x in out <==> x in bs && Reaches(TreeGraph(bs), root, x)
    ensures NoDup(out) <==> root !in TreeGraph(bs)[root]
    ensures forall x :: Reaches(TreeGraph(bs), root, x) ==> !Bad(bs, x)
  {
    hide Reaches, Bad, LinkGraph, ScanForLinks;
    var g := TreeGraph(bs);
    assert forall x :: x in out <==> x in ToSet(out);
    ReachesSelf(g, root);
    forall x | Reaches(g, root, x) ensures x in after && !Bad(bs, x) {
      assert forall y :: y in after && y in g ==> y in out by { GraphStored(bs); }
      ClosedContains(g, after, root, x);
    }
    if root in g[root] {
      assert root in out[1..];
      var i :| 0 <= i < |out[1..]| && out[1..][i] == root;
      assert out[0] == out[i + 1];
    }
  }

  lemma GraphStored(bs: map<Cid, Bytes>)
    ensures forall y :: y in TreeGraph(bs) ==> y in bs
  {
  }

  /**
   * The part of processNewRepo between reading the archive and committing: walk the tree of the
   * new root, then copy the walked blocks into the session.
   */
  method ProcessNewRepo(membs: map<Cid, Bytes>, root: Cid) returns (r: Result<map<Cid, Bytes>, WalkError>)
    ensures r.Ok? <==> root in membs && forall x :: Reaches(TreeGraph(membs), root, x) ==> !Bad(membs, x)
    ensures r.Ok? ==> r.value == CopyOf(membs, r.value.Keys)
    ensures r.Ok? ==> forall x :: x in r.value <==> x in membs && Reaches(TreeGraph(membs), root, x)
    ensures r.Ok? <==> exists xs :: Importable(membs, root, xs)
    ensures r.Ok? ==> Importable(membs, root, r.value.Keys) && forall xs :: Importable(membs, root, xs) ==> r.value.Keys <= xs
  {
    hide Reaches, Walked, Bad, LinkGraph, Importable;
    forall xs | Importable(membs, root, xs)
      ensures root in membs && forall x :: Reaches(TreeGraph(membs), root, x) ==> !Bad(membs, x) && (x in membs ==> x in xs)
    {
      ImportLeast(membs, root, xs);
    }
    var walker := new TreeWalker(membs);
    ReachesSelf(TreeGraph(membs), root);
    var cids := walker.WalkTree(root);
    if cids.Err? { return Err(cids.error); }
    WalkedExactly(membs, root, walker.skip, cids.value);
    assert root in membs by { WalkedIsPartial(membs, {}, walker.skip, root, cids.value); }
    var blks: map<Cid, Bytes> := map[];
    for i := 0 to |cids.value|
      invariant blks.Keys == ToSet(cids.value[..i])
      invariant forall c :: c in blks ==> c in membs && blks[c] == membs[c]
    {
      var c := cids.value[i];
      blks := blks[c := membs[c]];
      assert cids.value[..i + 1] == cids.value[..i] + [c];
    }
    assert cids.value[..|cids.value|] == cids.value;
    ReachedFollowed(membs, root, blks.Keys);
    return Ok(blks);
  }

  /** Every link out of these blocks is raw, or to a dag-cbor block that is not stored or is among them. */
  predicate LinksFollowed(bs: map<Cid, Bytes>, xs: set<Cid>) {
    forall x, l :: x in xs && Readable(bs, x) && l in LinksOf(bs, x) && l.codec != RAW ==>
      l.codec == DAG_CBOR && (l in bs ==> l in xs)
  }

  /** These blocks can be imported on their own: the root and, for each of them, all it links to that is stored. */
  predicate Importable(bs: map<Cid, Bytes>, root: Cid, xs: set<Cid>) {
    && root in xs && root.codec == DAG_CBOR && LinksFollowed(bs, xs)
    && forall x :: x in xs ==> Readable(bs, x)
  }

  lemma ReachedFollowed(bs: map<Cid, Bytes>, root: Cid, xs: set<Cid>)
    requires root in bs && forall x :: x in xs <==> x in bs && Reaches(TreeGraph(bs), root, x)
    requires forall x :: Reaches(TreeGraph(bs), root, x) ==> !Bad(bs, x)
    ensures Importable(bs, root, xs)
  {
    hide Reaches, ScanForLinks;
    var g := TreeGraph(bs);
    ReachesSelf(g, root);
    forall x, l | x in xs && Readable(bs, x) && l in LinksOf(bs, x) && l.codec != RAW
      ensures l.codec == DAG_CBOR && (l in bs ==> l in xs)
    {
      assert Edge(g, x, l);
      ReachesEdge(g, x, l);
      ReachesTrans(g, root, x, l);
    }
  }

  /** Nothing outside such a set is reached, but for blocks that are not stored. */
  lemma ImportLeast(bs: map<Cid, Bytes>, root: Cid, xs: set<Cid>)
    requires Importable(bs, root, xs)
    ensures root in bs && forall x :: Reaches(TreeGraph(bs), root, x) ==> !Bad(bs, x) && (x in bs ==> x in xs)
  {
    hide Reaches, ScanForLinks;
    var g := TreeGraph(bs);
    var missing := set l | l in Universe(bs) && l !in bs && l.codec == DAG_CBOR;
    forall x | x in xs + missing && x in g ensures ToSet(g[x]) <= xs + missing {
      forall l | l in g[x] ensures l in xs + missing {
        assert l in LinksOf(bs, x) && l in Universe(bs);
      }
    }
    forall x | Reaches(g, root, x) ensures !Bad(bs, x) && (x in bs ==> x in xs) {
      ClosedContains(g, xs + missing, root, x);
      if x != root { ItsCodec(bs, root, x, xs, missing); }
    }
  }

  lemma ItsCodec(bs: map<Cid, Bytes>, root: Cid, x: Cid, xs: set<Cid>, missing: set<Cid>)
    requires Importable(bs, root, xs) && Reaches(TreeGraph(bs), root, x) && x != root
    requires forall y :: y in xs + missing && y in TreeGraph(bs) ==> ToSet(TreeGraph(bs)[y]) <= xs + missing
    requires forall y :: y in missing ==> y !in bs
    ensures x.codec == DAG_CBOR
  {
    hide Reaches, ScanForLinks;
    var z := LastEdge(TreeGraph(bs), root, x);
    ClosedContains(TreeGraph(bs), xs + missing, root, z);
  }

  function CopyOf(bs: map<Cid, Bytes>, cs: set<Cid>): map<Cid, Bytes> {
    map c | c in bs && c in cs :: bs[c]
  }

  // ----- copyRecCbor -----

  function AnyCid(): Cid -> bool { (c: Cid) => true }

  /** The graph copyRecCbor follows: every link, whatever its codec. */
  function FullGraph(bs: map<Cid, Bytes>): Links { LinkGraph(bs, AnyCid()) }

  class Copier {
    const from: map<Cid, Bytes>
    var to: map<Cid, Bytes>
    var seen: set<Cid>
    ghost var puts: seq<Cid>    // the identifiers passed to Put, in order

    constructor (from: map<Cid, Bytes>, to: map<Cid, Bytes>)
      ensures this.from == from && this.to == to && seen == {} && puts == []
    {
      this.from, this.to, seen, puts := from, to, {}, [];
    }

    method CopyRec(c: Cid) returns (ok: bool)
      modifies this
      ensures old(seen) <= seen && c in seen
      ensures Copied(from, old(to), to, old(seen), seen, old(puts), puts)
      ensures forall x :: x in seen - old(seen) ==> Reaches(FullGraph(from), c, x)
      ensures ok ==> Finished(from, old(seen), seen)
      ensures !ok ==> exists x :: Reaches(FullGraph(from), c, x) && !Readable(from, x)
      decreases Universe(from) + {c} - seen, c !in seen
    {
      hide Reaches, Readable, ScanForLinks, Copied, Finished;
      var g := FullGraph(from);
      ReachesSelf(g, c);
      if c in seen {
        CopiedNothing(from, to, seen, puts);
        return true;
      }
      seen := seen + {c};
      if c !in from {
        CopiedMissing(from, to, old(seen), puts, c);
        return false;
      }
      to := to[c := from[c]];
      puts := puts + [c];
      CopiedOne(from, old(to), old(seen), old(puts), c);
      var scan := ScanForLinks(from[c]);
      if scan.None? { return false; }
      var links := scan.value;
      AllLinks(from, c);
      for i := 0 to |links|
        invariant old(seen) + {c} + ToSet(links[..i]) <= seen
        invariant Copied(from, old(to), to, old(seen), seen, old(puts), puts)
        invariant forall x :: x in seen - old(seen) ==> Reaches(g, c, x)
        invariant Finished(from, old(seen) + {c}, seen)
      {
        ghost var to1, seen1, puts1 := to, seen, puts;
        var child := links[i];
        assert links[..i + 1] == links[..i] + [child];
        ReachesEdge(g, c, child);
        assert child in Universe(from);
        ok := CopyRec(child);
        CopiedTrans(from, old(to), to1, to, old(seen), seen1, seen, old(puts), puts1, puts);
        forall x | x in seen - old(seen) ensures Reaches(g, c, x) {
          if x !in seen1 { ReachesTrans(g, c, child, x); }
        }
        if !ok {
          ghost var x :| Reaches(g, child, x) && !Readable(from, x);
          ReachesTrans(g, c, child, x);
          return false;
        }
        FinishedTrans(from, old(seen) + {c}, seen1, seen);
      }
      assert links[..|links|] == links;
      FinishedNode(from, old(seen), seen, c);
      return true;
    }
  }

  /** What was put between two states: each newly seen stored block once, and nothing else. */
  ghost predicate Copied(
    from: map<Cid, Bytes>, to: map<Cid, Bytes>, to': map<Cid, Bytes>,
    seen: set<Cid>, seen': set<Cid>, puts: seq<Cid>, puts': seq<Cid>)
  {
    && |puts| <= |puts'| && puts == puts'[..|puts|]
    && NoDup(puts'[|puts|..])
    && ToSet(puts'[|puts|..]) == (seen' - seen) * from.Keys
    && to' == to + CopyOf(from, seen' - seen)
  }

  /** Every node marked between two states is readable and has all its links marked. */
  ghost predicate Finished(from: map<Cid, Bytes>, seen: set<Cid>, seen': set<Cid>) {
    forall x :: x in seen' - seen ==> Readable(from, x) && ToSet(FullGraph(from)[x]) <= seen'
  }

  lemma CopiedNothing(from: map<Cid, Bytes>, to: map<Cid, Bytes>, seen: set<Cid>, puts: seq<Cid>)
    ensures Copied(from, to, to, seen, seen, puts, puts) && Finished(from, seen, seen)
  {
  }

  lemma CopiedMissing(from: map<Cid, Bytes>, to: map<Cid, Bytes>, seen: set<Cid>, puts: seq<Cid>, c: Cid)
    requires c !in from
    ensures Copied(from, to, to, seen, seen + {c}, puts, puts) && !Readable(from, c)
  {
  }

  lemma CopiedOne(from: map<Cid, Bytes>, to: map<Cid, Bytes>, seen: set<Cid>, puts: seq<Cid>, c: Cid)
    requires c in from && c !in seen
    ensures Copied(from, to, to[c := from[c]], seen, seen + {c}, puts, puts + [c])
    ensures Finished(from, seen + {c}, seen + {c})
    ensures ScanForLinks(from[c]).None? ==> !Readable(from, c)
  {
    hide ScanForLinks;
    assert (puts + [c])[|puts|..] == [c];
    assert seen + {c} - seen == {c};
  }

  lemma CopiedTrans(
      from: map<Cid, Bytes>, to0: map<Cid, Bytes>, to1: map<Cid, Bytes>, to2: map<Cid, Bytes>,
      seen0: set<Cid>, seen1: set<Cid>, seen2: set<Cid>, puts0: seq<Cid>, puts1: seq<Cid>, puts2: seq<Cid>)
    requires Copied(from, to0, to1, seen0, seen1, puts0, puts1) && Copied(from, to1, to2, seen1, seen2, puts1, puts2)
    requires seen0 <= seen1 <= seen2
    ensures Copied(from, to0, to2, seen0, seen2, puts0, puts2)
  {
    var a, b := puts1[|puts0|..], puts2[|puts1|..];
    assert puts2[|puts0|..] == a + b;
    NoDupConcat(a, b);
    assert ToSet(a + b) == ToSet(a) + ToSet(b);
    assert (seen2 - seen0) == (seen2 - seen1) + (seen1 - seen0);
    assert to2 == to0 + CopyOf(from, seen2 - seen0);
  }

  lemma FinishedTrans(from: map<Cid, Bytes>, seen0: set<Cid>, seen1: set<Cid>, seen2: set<Cid>)
    requires Finished(from, seen0, seen1) && Finished(from, seen1, seen2) && seen1 <= seen2
    ensures Finished(from, seen0, seen2)
  {
    hide ScanForLinks;
  }

  lemma FinishedNode(from: map<Cid, Bytes>, seen: set<Cid>, seen': set<Cid>, c: Cid)
    requires Finished(from, seen + {c}, seen') && Readable(from, c) && ToSet(FullGraph(from)[c]) <= seen'
    ensures Finished(from, seen, seen')
  {
    hide ScanForLinks;
  }

  lemma AllLinks(bs: map<Cid, Bytes>, c: Cid)
    requires c in bs && ScanForLinks(bs[c]).Some?
    ensures Readable(bs, c) && c in FullGraph(bs) && FullGraph(bs)[c] == LinksOf(bs, c) == ScanForLinks(bs[c]).value
  {
    FilterAll(LinksOf(bs, c));
  }

  lemma {:induction false} FilterAll(cs: seq<Cid>)
    ensures Filter(cs, AnyCid()) == cs
  {
    if cs != [] { FilterAll(cs[1..]); }
  }

  /**
   * CopyDataTo: it succeeds exactly when every reachable block is stored and scannable, and then
   * the destination has gained exactly the reachable blocks, each put once.
   */
  method CopyDataTo(from: map<Cid, Bytes>, to: map<Cid, Bytes>, root: Cid)
    returns (ok: bool, to': map<Cid, Bytes>, ghost puts: seq<Cid>)
    ensures ok <==> forall x :: Reaches(FullGraph(from), root, x) ==> Readable(from, x)
    ensures ok ==> NoDup(puts) && (forall x :: x in puts <==> Reaches(FullGraph(from), root, x))
    ensures to' == to + CopyOf(from, ToSet(puts))
    ensures ok <==> exists xs :: Copyable(from, root, xs)
    ensures ok ==> Copyable(from, root, ToSet(puts)) && forall xs :: Copyable(from, root, xs) ==> ToSet(puts) <= xs
  {
    hide Reaches, ScanForLinks, LinkGraph, Copyable;
    var g := FullGraph(from);
    forall xs | Copyable(from, root, xs) ensures forall x :: Reaches(g, root, x) ==> Readable(from, x) && x in xs {
      CopyLeast(from, root, xs);
    }
    var copier := new Copier(from, to);
    ok := copier.CopyRec(root);
    to', puts := copier.to, copier.puts;
    assert puts[0..] == puts && copier.seen - {} == copier.seen;
    assert CopyOf(from, copier.seen) == CopyOf(from, ToSet(puts));
    if ok {
      forall x | Reaches(g, root, x) ensures x in copier.seen && Readable(from, x) {
        ClosedContains(g, copier.seen, root, x);
      }
      assert forall x :: x in puts <==> x in ToSet(puts);
      ReachedCopyable(from, root, ToSet(puts));
    }
  }

  /** These blocks can be copied on their own: the root and, for each of them, all it links to. */
  predicate Copyable(bs: map<Cid, Bytes>, root: Cid, xs: set<Cid>) {
    && root in xs && (forall x :: x in xs ==> Readable(bs, x))
    && forall x, l :: x in xs && l in LinksOf(bs, x) ==> l in xs
  }

  lemma CopyLeast(bs: map<Cid, Bytes>, root: Cid, xs: set<Cid>)
    requires Copyable(bs, root, xs)
    ensures forall x :: Reaches(FullGraph(bs), root, x) ==> Readable(bs, x) && x in xs
  {
    hide Reaches, ScanForLinks;
    var g := FullGraph(bs);
    forall x | Reaches(g, root, x) ensures x in xs {
      ClosedContains(g, xs, root, x);
    }
  }

  lemma ReachedCopyable(bs: map<Cid, Bytes>, root: Cid, xs: set<Cid>)
    requires forall x :: x in xs <==> Reaches(FullGraph(bs), root, x)
    requires forall x :: x in xs ==> Readable(bs, x)
    ensures Copyable(bs, root, xs)
  {
    hide Reaches, ScanForLinks;
    var g := FullGraph(bs);
    ReachesSelf(g, root);
    forall x, l | x in xs && l in LinksOf(bs, x) ensures l in xs {
      assert Edge(g, x, l);
      ReachesEdge(g, x, l);
      ReachesTrans(g, root, x, l);
    }
  }
}
