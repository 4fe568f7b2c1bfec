/**
 * Record paths and the writes of a batch (user_service/internal/repo/manager.go): how a path is
 * made of a collection and a key, and what a list of writes does to a map of records.
 */
module Batches {
  import opened Prelude
  import opened Cids
  import opened Repos

  // ----- paths -----

  const SLASH: byte := 0x2f

  /** nsid + "/" + key. */
  function PathOf(collection: Bytes, key: Bytes): Bytes { collection + [SLASH] + key }

  /** strings.SplitN(path, "/", 2): what is before the first slash, and what is after it. */
  function SplitPath(path: Bytes): (r: Option<(Bytes, Bytes)>)
    ensures r.None? <==> SLASH !in path
    ensures r.Some? ==> SLASH !in r.value.0 && path == r.value.0 + [SLASH] + r.value.1
  {
    if path == [] then None
    else if path[0] == SLASH then Some(([], path[1..]))
    else match SplitPath(path[1..])
      case None => None
      case Some(parts) => Some(([path[0]] + parts.0, parts.1))
  }

  /** A path splits back into its collection and key, whatever the key is. */
  lemma {:induction false} PathSplits(collection: Bytes, key: Bytes)
    requires SLASH !in collection
    ensures SplitPath(PathOf(collection, key)) == Some((collection, key))
  {
    var path := PathOf(collection, key);
    if collection == [] {
      assert path[0] == SLASH && path[1..] == key;
    } else {
      PathSplits(collection[1..], key);
      assert path[0] == collection[0] && path[1..] == PathOf(collection[1..], key);
      assert [collection[0]] + collection[1..] == collection;
    }
  }

  /** So one path names one record. */
  lemma PathsDiffer(c: Bytes, k: Bytes, d: Bytes, l: Bytes)
    requires SLASH !in c && SLASH !in d && PathOf(c, k) == PathOf(d, l)
    ensures c == d && k == l
  {
    PathSplits(c, k);
    PathSplits(d, l);
  }

  // ----- one record -----

  /** The record of a collection under a key. */
  function RecordAt(m: Records, collection: Bytes, key: Bytes): Option<Cid> {
    if PathOf(collection, key) in m then Some(m[PathOf(collection, key)]) else None
  }

  /** The record at (nsid, key) is r now, and every other record is what it was. */
  ghost predicate OnlyAt(before: Records, after: Records, nsid: Bytes, key: Bytes, r: Option<Cid>) {
    && RecordAt(after, nsid, key) == r
    && forall c, k :: SLASH !in c && (c != nsid || k != key) ==> RecordAt(after, c, k) == RecordAt(before, c, k)
  }

  lemma SetOnlyAt(before: Records, nsid: Bytes, key: Bytes, r: Option<Cid>)
    requires SLASH !in nsid
    ensures OnlyAt(before, if r.Some? then before[PathOf(nsid, key) := r.value] else before - {PathOf(nsid, key)}, nsid, key, r)
  {
    hide PathOf;
    forall c, k | SLASH !in c && (c != nsid || k != key) ensures PathOf(c, k) != PathOf(nsid, key) {
      if PathOf(c, k) == PathOf(nsid, key) { PathsDiffer(c, k, nsid, key); }
    }
  }

  // ----- the writes of a batch -----

  datatype Write =
    | Create(collection: Bytes, rkey: Option<Bytes>, value: Bytes)
    | Update(collection: Bytes, key: Bytes, value: Bytes)
    | Delete(collection: Bytes, key: Bytes)
    | NoOperation

  /** What one write does to the records; None when it is refused. */
  function ApplyWrite(lib: Lib, m: Records, w: Write): Option<Records> {
    match w
    case Create(c, Some(k), v) => if PathOf(c, k) in m then None else Some(m[PathOf(c, k) := lib.hash(v)])
    case Create(_, None, _) => None
    case Update(c, k, v) => if PathOf(c, k) in m then Some(m[PathOf(c, k) := lib.hash(v)]) else None
    case Delete(c, k) => if PathOf(c, k) in m then Some(m - {PathOf(c, k)}) else None
    case NoOperation => None
  }

  /** The writes one after the other; None when one of them is refused. */
  function FoldWrites(lib: Lib, m: Records, ws: seq<Write>): Option<Records> {
    if ws == [] then Some(m) else
    match FoldWrites(lib, m, ws[..|ws| - 1])
    case None => None
    case Some(t) => ApplyWrite(lib, t, ws[|ws| - 1])
  }

  lemma FoldSnoc(lib: Lib, m: Records, ws: seq<Write>, w: Write)
    ensures FoldWrites(lib, m, ws + [w]) ==
            match FoldWrites(lib, m, ws)
            case None => None
            case Some(t) => ApplyWrite(lib, t, w)
  {
    assert (ws + [w])[..|ws|] == ws;
  }

  /** The same write, with the key it got if it named none. */
  predicate Resolves(w: Write, v: Write) {
    if w.Create? && w.rkey.None? then v.Create? && v.rkey.Some? && v.collection == w.collection && v.value == w.value else v == w
  }

  // ----- what a batch leaves, path by path -----

  /** The write is about this path. */
  predicate Names(w: Write, p: Bytes) {
    || (w.Create? && w.rkey.Some? && p == PathOf(w.collection, w.rkey.value))
    || (w.Update? && p == PathOf(w.collection, w.key))
    || (w.Delete? && p == PathOf(w.collection, w.key))
  }

  /** The i-th write is the last one about this path. */
  predicate LastNaming(ws: seq<Write>, i: int, p: Bytes) {
    0 <= i < |ws| && Names(ws[i], p) && forall j :: i < j < |ws| ==> !Names(ws[j], p)
  }

  /** A record is there after the writes: the last write about its path says so, or it was there and no write is about it. */
  ghost predicate ThereAfter(m: Records, ws: seq<Write>, p: Bytes) {
    || (exists i :: LastNaming(ws, i, p) && !ws[i].Delete?)
    || (p in m && forall i :: 0 <= i < |ws| ==> !Names(ws[i], p))
  }

  /** A create needs a path that is free after the writes before it, an update or delete one that is taken. */
  ghost predicate Admitted(m: Records, ws: seq<Write>, w: Write) {
    match w
    case Create(c, rkey, _) => rkey.Some? && !ThereAfter(m, ws, PathOf(c, rkey.value))
    case Update(c, k, _) => ThereAfter(m, ws, PathOf(c, k))
    case Delete(c, k) => ThereAfter(m, ws, PathOf(c, k))
    case NoOperation => false
  }

  ghost predicate AllAdmitted(m: Records, ws: seq<Write>) {
    forall i :: 0 <= i < |ws| ==> Admitted(m, ws[..i], ws[i])
  }

  /**
   * A path no write is about is as it was; any other holds what the last write about it says: the
   * identifier of its record, or nothing after a delete.
   */
  ghost predicate LastWins(lib: Lib, before: Records, ws: seq<Write>, after: Records) {
    && (forall p :: (forall i :: 0 <= i < |ws| ==> !Names(ws[i], p)) ==>
          (p in after <==> p in before) && (p in before ==> after[p] == before[p]))
    && (forall i, p :: LastNaming(ws, i, p) ==>
          if ws[i].Delete? then p !in after else p in after && after[p] == lib.hash(ws[i].value))
  }

  lemma LastNamingSnoc(ws: seq<Write>, w: Write, i: int, p: Bytes)
    ensures LastNaming(ws + [w], i, p) <==> (i == |ws| && Names(w, p)) || (LastNaming(ws, i, p) && !Names(w, p))
  {
    var vs := ws + [w];
    hide Names;
    assert vs[|ws|] == w && forall j :: 0 <= j < |ws| ==> vs[j] == ws[j];
  }

  lemma NamesNothing(ws: seq<Write>, w: Write, p: Bytes)
    ensures (forall i :: 0 <= i < |ws + [w]| ==> !Names((ws + [w])[i], p))
            <==> !Names(w, p) && forall i :: 0 <= i < |ws| ==> !Names(ws[i], p)
  {
    var vs := ws + [w];
    hide Names;
    assert vs[|ws|] == w && forall j :: 0 <= j < |ws| ==> vs[j] == ws[j];
  }

  lemma {:induction false} LastExists(ws: seq<Write>, p: Bytes) returns (i: int)
    requires exists j :: 0 <= j < |ws| && Names(ws[j], p)
    ensures LastNaming(ws, i, p)
  {
    var vs, w := ws[..|ws| - 1], ws[|ws| - 1];
    assert ws == vs + [w];
    NamesNothing(vs, w, p);
    i := |vs|;
    if !Names(w, p) {
      i := LastExists(vs, p);
    }
    hide Names, LastNaming;
    LastNamingSnoc(vs, w, i, p);
  }

  /** After the writes, a record is there exactly when the last write about its path left one. */
  lemma ThereIff(lib: Lib, before: Records, ws: seq<Write>, after: Records, p: Bytes)
    requires LastWins(lib, before, ws, after)
    ensures ThereAfter(before, ws, p) <==> p in after
  {
    if exists j :: 0 <= j < |ws| && Names(ws[j], p) {
      var i := LastExists(ws, p);
      LastOnce(ws, p);
      hide Names;
    }
  }

  lemma LastOnce(ws: seq<Write>, p: Bytes)
    ensures forall i, j :: LastNaming(ws, i, p) && LastNaming(ws, j, p) ==> i == j
  {
    hide Names;
  }

  /** One more write. */
  lemma LastWinsSnoc(lib: Lib, before: Records, ws: seq<Write>, t: Records, w: Write)
    requires LastWins(lib, before, ws, t)
    ensures ApplyWrite(lib, t, w).Some? <==> Admitted(before, ws, w)
    ensures ApplyWrite(lib, t, w).Some? ==> LastWins(lib, before, ws + [w], ApplyWrite(lib, t, w).value)
  {
    match w {
      case Create(c, Some(k), _) => ThereIff(lib, before, ws, t, PathOf(c, k));
      case Update(c, k, _) => ThereIff(lib, before, ws, t, PathOf(c, k));
      case Delete(c, k) => ThereIff(lib, before, ws, t, PathOf(c, k));
      case _ =>
    }
    if ApplyWrite(lib, t, w).Some? {
      var u, vs := ApplyWrite(lib, t, w).value, ws + [w];
      hide PathOf, ThereAfter;
      Written(lib, t, w);
      hide ApplyWrite, Names, LastNaming;
      forall p | forall i :: 0 <= i < |vs| ==> !Names(vs[i], p)
        ensures (p in u <==> p in before) && (p in before ==> u[p] == before[p])
      {
        NamesNothing(ws, w, p);
      }
      forall i, p | LastNaming(vs, i, p)
        ensures if vs[i].Delete? then p !in u else p in u && u[p] == lib.hash(vs[i].value)
      {
        LastNamingSnoc(ws, w, i, p);
        LastIndex(ws, w, i, p);
      }
    }
  }

  lemma LastIndex(ws: seq<Write>, w: Write, i: int, p: Bytes)
    requires LastNaming(ws + [w], i, p)
    ensures i == |ws| ==> (ws + [w])[i] == w
    ensures i != |ws| ==> i < |ws| && (ws + [w])[i] == ws[i]
    ensures (ws + [w])[i] != NoOperation
  {
  }

  lemma Written(lib: Lib, t: Records, w: Write)
    requires ApplyWrite(lib, t, w).Some?
    ensures var u := ApplyWrite(lib, t, w).value;
            && (forall p :: !Names(w, p) ==> (p in u <==> p in t) && (p in t ==> u[p] == t[p]))
            && (forall p :: Names(w, p) ==> if w.Delete? then p !in u else p in u && u[p] == lib.hash(w.value))
  {
    hide PathOf;
  }

  /** A batch goes through exactly when every write is admitted after those before it, and then the last write about a path wins. */
  lemma {:induction false} FoldMeans(lib: Lib, m: Records, ws: seq<Write>)
    ensures FoldWrites(lib, m, ws).Some? <==> AllAdmitted(m, ws)
    ensures FoldWrites(lib, m, ws).Some? ==> LastWins(lib, m, ws, FoldWrites(lib, m, ws).value)
    decreases |ws|
  {
    if ws == [] {
      hide Names;
    } else {
      var vs, w := ws[..|ws| - 1], ws[|ws| - 1];
      assert ws == vs + [w];
      FoldMeans(lib, m, vs);
      AdmittedSnoc(m, vs, w);
      hide AllAdmitted, LastWins, ApplyWrite, Admitted;
      if FoldWrites(lib, m, vs).Some? {
        LastWinsSnoc(lib, m, vs, FoldWrites(lib, m, vs).value, w);
      }
    }
  }

  lemma AdmittedSnoc(m: Records, ws: seq<Write>, w: Write)
    ensures AllAdmitted(m, ws + [w]) <==> AllAdmitted(m, ws) && Admitted(m, ws, w)
  {
    var vs := ws + [w];
    hide Admitted;
    assert vs[..|ws|] == ws && vs[|ws|] == w;
    assert forall i :: 0 <= i < |ws| ==> vs[..i] == ws[..i] && vs[i] == ws[i];
  }

  /** A batch of one write does what the single operation does. */
  lemma OneWrite(lib: Lib, before: Records, w: Write, after: Records)
    requires LastWins(lib, before, [w], after)
    ensures forall c, k, v :: w == Create(c, Some(k), v) || w == Update(c, k, v) ==> after == before[PathOf(c, k) := lib.hash(v)]
    ensures forall c, k :: w == Delete(c, k) ==> after == before - {PathOf(c, k)}
  {
    hide PathOf;
    forall p ensures Names(w, p) ==> LastNaming([w], 0, p) {}
    forall p | !Names(w, p) ensures (p in after <==> p in before) && (p in before ==> after[p] == before[p]) {
      assert forall i :: 0 <= i < |[w]| ==> !Names([w][i], p);
    }
    assert forall p :: Names(w, p) ==> if [w][0].Delete? then p !in after else p in after && after[p] == lib.hash([w][0].value);
  }
}
