/** Directed graphs of blocks and reachability in them. */
module Graph {
  import opened Prelude
  import opened Cids
  import opened Cbor

  /** For every block that can be followed, the links out of it, in order and with repetitions. */
  type Links = map<Cid, seq<Cid>>

  ghost predicate IsPath(g: Links, p: seq<Cid>) {
    p != [] && forall i :: 0 <= i < |p| - 1 ==> Edge(g, p[i], p[i + 1])
  }

  predicate Edge(g: Links, a: Cid, b: Cid) {
    a in g && b in g[a]
  }

  ghost predicate PathFromTo(g: Links, a: Cid, b: Cid, p: seq<Cid>) {
    IsPath(g, p) && p[0] == a && p[|p| - 1] == b
  }

  ghost predicate Reaches(g: Links, a: Cid, b: Cid) {
    exists p :: PathFromTo(g, a, b, p)
  }

  lemma ReachesSelf(g: Links, a: Cid)
    ensures Reaches(g, a, a)
  {
    assert PathFromTo(g, a, a, [a]);
  }

  lemma ReachesEdge(g: Links, a: Cid, b: Cid)
    requires Edge(g, a, b)
    ensures Reaches(g, a, b)
  {
    assert PathFromTo(g, a, b, [a, b]);
  }

  lemma ReachesTrans(g: Links, a: Cid, b: Cid, c: Cid)
    requires Reaches(g, a, b) && Reaches(g, b, c)
    ensures Reaches(g, a, c)
  {
    var p :| PathFromTo(g, a, b, p);
    var q :| PathFromTo(g, b, c, q);
    var r := p + q[1..];
    forall i | 0 <= i < |r| - 1 ensures Edge(g, r[i], r[i + 1]) {
      if i >= |p| - 1 {
        assert r[i] == q[i - (|p| - 1)] && r[i + 1] == q[i - (|p| - 1) + 1];
        assert Edge(g, q[i - (|p| - 1)], q[i - (|p| - 1) + 1]);
      } else {
        assert Edge(g, p[i], p[i + 1]);
      }
    }
    assert PathFromTo(g, a, c, r);
  }

  /** Nothing outside a set closed under the edges is reachable from inside it. */
  lemma ClosedContains(g: Links, s: set<Cid>, a: Cid, b: Cid)
    requires a in s && Reaches(g, a, b)
    requires forall x :: x in s && x in g ==> ToSet(g[x]) <= s
    ensures b in s
  {
    var p :| PathFromTo(g, a, b, p);
    PathStays(g, s, p, |p| - 1);
  }

  lemma {:induction false} PathStays(g: Links, s: set<Cid>, p: seq<Cid>, i: nat)
    requires IsPath(g, p) && i < |p| && p[0] in s
    requires forall x :: x in s && x in g ==> ToSet(g[x]) <= s
    ensures p[i] in s
  {
    if i > 0 {
      PathStays(g, s, p, i - 1);
      assert Edge(g, p[i - 1], p[i]);
      assert p[i] in ToSet(g[p[i - 1]]);
    }
  }

  /** A reachable node is the start or has a reachable predecessor. */
  lemma LastEdge(g: Links, a: Cid, b: Cid) returns (z: Cid)
    requires Reaches(g, a, b) && a != b
    ensures Reaches(g, a, z) && Edge(g, z, b)
  {
    var p :| PathFromTo(g, a, b, p);
    var q := p[..|p| - 1];
    z := q[|q| - 1];
    forall i | 0 <= i < |q| - 1 ensures Edge(g, q[i], q[i + 1]) {
      assert Edge(g, p[i], p[i + 1]);
    }
    assert PathFromTo(g, a, z, q);
    assert Edge(g, p[|p| - 2], p[|p| - 1]);
  }

  // ----- the graph a block store spans -----

  function Filter(cs: seq<Cid>, keep: Cid -> bool): (r: seq<Cid>)
    ensures forall c :: c in r <==> c in cs && keep(c)
  {
    if cs == [] then [] else (if keep(cs[0]) then [cs[0]] else []) + Filter(cs[1..], keep)
  }

  lemma {:induction false} FilterSnoc(cs: seq<Cid>, c: Cid, keep: Cid -> bool)
    ensures Filter(cs + [c], keep) == Filter(cs, keep) + if keep(c) then [c] else []
  {
    if cs == [] {
      assert cs + [c] == [c];
    } else {
      assert (cs + [c])[1..] == cs[1..] + [c];
      FilterSnoc(cs[1..], c, keep);
    }
  }

  /** The block is stored and its links can be scanned. */
  predicate Readable(bs: map<Cid, Bytes>, c: Cid) {
    c in bs && ScanForLinks(bs[c]).Some?
  }

  function LinksOf(bs: map<Cid, Bytes>, c: Cid): seq<Cid>
    requires Readable(bs, c)
  {
    ScanForLinks(bs[c]).value
  }

  /** The graph of the readable blocks and those of their links that `follow` accepts. */
  function LinkGraph(bs: map<Cid, Bytes>, follow: Cid -> bool): Links {
    map c | c in bs && Readable(bs, c) :: Filter(LinksOf(bs, c), follow)
  }
}
