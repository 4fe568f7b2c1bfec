/**
 * The sequenced log and the broadcaster: user_service/internal/events/persist.go and the
 * event-manager half of user_service/internal/events/events.go.
 */
module EventLog {
  import opened Prelude

  datatype Kind =
    | Commit | Sync | Handle | Identity | Account | RepoInfo | Migrate | Tombstone
    | Labels | LabelInfo | ErrorFrame

  /** An XRPCStreamEvent with exactly one variant set; `body` is everything but the seq field. */
  datatype Event = Event(kind: Kind, seqno: int, body: nat)

  /** XRPCStreamEvent.Sequence. */
  function Sequence(e: Event): int {
    match e.kind
    case Commit | Sync | Handle | Migrate | Tombstone | Identity | Account => e.seqno
    case _ => -1
  }

  /** The kinds MemPersister.Persist stamps; it panics on every other kind. */
  predicate Stampable(k: Kind) {
    k.Commit? || k.Handle? || k.Identity? || k.Account? || k.Migrate? || k.Tombstone? || k.Labels?
  }

  /** The kinds XRPCStreamEvent.Serialize accepts. */
  predicate Serializable(k: Kind) {
    k != Labels && k != LabelInfo
  }

  /** Persisted, sequenced and broadcast: every stampable kind but labels. */
  predicate Streamable(k: Kind) {
    Stampable(k) && Serializable(k)
  }

  const TOO_SLOW := Event(ErrorFrame, 0, 0)

  /** A Go channel: everything ever sent on it, and how much of that was received. */
  datatype Chan = Chan(sent: seq<Event>, taken: nat) {
    predicate Valid() { taken <= |sent| }
    function Len(): nat requires Valid() { |sent| - taken }
    function Send(e: Event): Chan { Chan(sent + [e], taken) }
    function Head(): Event requires taken < |sent| { sent[taken] }
    function Take(): Chan { Chan(sent, taken + 1) }
  }

  /** How far the goroutine started by an overflow has got. */
  datatype Eviction = NotEvicted | SendingFrame | Cleaning | DoneClosed | OutgoingClosed

  datatype Sub = Sub(outgoing: Chan, accepting: bool, eviction: Eviction)

  const NEW_SUB := Sub(Chan([], 0), true, NotEvicted)

  /** What one broadcast does to one subscriber; `pass` is its filter's answer. */
  function Offer(s: Sub, pass: bool, bufferSize: nat, e: Event): Sub
    requires s.outgoing.Valid()
  {
    if !s.accepting || !pass then s
    else if s.outgoing.Len() < bufferSize then s.(outgoing := s.outgoing.Send(e))
    else s.(accepting := false, eviction := SendingFrame)
  }

  class Subscriber {
    const filter: Event -> bool
    const bufferSize: nat
    var outgoing: Chan
    var accepting: bool
    var eviction: Eviction

    ghost function Value(): Sub reads this { Sub(outgoing, accepting, eviction) }

    constructor (filter: Event -> bool, bufferSize: nat)
      ensures Value() == NEW_SUB && this.filter == filter && this.bufferSize == bufferSize
    {
      this.filter, this.bufferSize := filter, bufferSize;
      outgoing, accepting, eviction := Chan([], 0), true, NotEvicted;
    }
  }

  class EventManager {
    var subs: seq<Subscriber>

    ghost predicate Valid() reads this, subs {
      NoDup(subs) && forall s :: s in subs ==> s.outgoing.Valid()
    }

    constructor ()
      ensures Valid() && subs == []
    {
      subs := [];
    }

    /**
     * Every subscriber is offered the event once; an unserializable event reaches nobody. An
     * accepting subscriber whose filter passes gets the event if its channel has room, and is
     * evicted only if it has none.
     */
    method BroadcastEvent(e: Event)
      requires Valid()
      modifies subs
      ensures Valid() && subs == old(subs)
      ensures forall s :: s in subs ==>
        s.Value() == if Serializable(e.kind)
                     then Offer(old(s.Value()), s.filter(e), s.bufferSize, e) else old(s.Value())
      ensures Serializable(e.kind) ==> forall s :: s in subs && old(s.accepting) && s.filter(e) ==>
        if |old(s.outgoing.sent)| - old(s.outgoing.taken) < s.bufferSize
        then s.accepting && s.outgoing.sent == old(s.outgoing.sent) + [e]
        else !s.accepting && s.outgoing == old(s.outgoing)
    {
      if !Serializable(e.kind) {
        return;
      }
      for i := 0 to |subs|
        invariant subs == old(subs) && Valid()
        invariant forall j :: 0 <= j < i ==>
          subs[j].Value() == Offer(old(subs[j].Value()), subs[j].filter(e), subs[j].bufferSize, e)
        invariant forall j :: i <= j < |subs| ==> subs[j].Value() == old(subs[j].Value())
      {
        var s := subs[i];
        if s.accepting && s.filter(e) {
          if s.outgoing.Len() < s.bufferSize {
            s.outgoing := s.outgoing.Send(e);
          } else {
            s.accepting, s.eviction := false, SendingFrame;
          }
        }
      }
    }

    method AddSubscriber(sub: Subscriber)
      requires Valid() && sub !in subs && sub.outgoing.Valid()
      modifies this
      ensures Valid() && subs == old(subs) + [sub]
    {
      subs := subs + [sub];
    }

    /** Removes the subscriber, wherever it is; the others stay, though not in order. */
    method RmSubscriber(sub: Subscriber)
      requires Valid()
      modifies this
      ensures Valid() && multiset(subs) == multiset(old(subs)) - multiset{sub}
      ensures sub !in subs
    {
      hide NoDup;
      for i := 0 to |subs|
        invariant subs == old(subs) && sub !in subs[..i]
      {
        if subs[i] == sub {
          var last := subs[|subs| - 1];
          var swapped := subs[i := last];
          subs := swapped[..|subs| - 1];
          SwapOut(old(subs), i, subs);
          return;
        }
      }
      assert subs[..|subs|] == subs;
    }
  }

  /** Overwriting slot i by the last element and cutting that off removes exactly s[i]. */
  lemma SwapOut<T>(s: seq<T>, i: nat, r: seq<T>)
    requires i < |s| && NoDup(s) && r == s[i := s[|s| - 1]][..|s| - 1]
    ensures NoDup(r) && s[i] !in r && multiset(r) == multiset(s) - multiset{s[i]}
  {
    assert NoDup(r) && s[i] !in r by {
      assert forall k :: 0 <= k < |r| ==> r[k] == if k == i then s[|s| - 1] else s[k];
    }
    hide NoDup;
    SwapOutBag(s, i, r);
  }

  lemma SwapOutBag<T>(s: seq<T>, i: nat, r: seq<T>)
    requires i < |s| && r == s[i := s[|s| - 1]][..|s| - 1]
    ensures multiset(r) == multiset(s) - multiset{s[i]}
  {
    var n := |s| - 1;
    assert s == s[..n] + [s[n]];
    if i == n {
      assert r == s[..n];
    } else {
      var a, b := s[..i], s[i + 1..n];
      assert s[..n] == a + [s[i]] + b;
      assert r == a + [s[n]] + b;
    }
  }

  /** The naive in-memory log; Persist holds its lock across the broadcast. */
  class MemPersister {
    var buf: seq<Event>
    var last: int
    const manager: EventManager

    ghost predicate Valid() reads this {
      last == |buf| && forall i :: 0 <= i < |buf| ==> Stampable(buf[i].kind) && buf[i].seqno == i + 1
    }

    constructor (manager: EventManager)
      ensures Valid() && buf == [] && this.manager == manager
    {
      buf, last, this.manager := [], 0, manager;
    }

    /** The event's seq is its 1-based position in the log, and its broadcast follows at once. */
    method Persist(e: Event) returns (stamped: Event)
      requires Valid() && Stampable(e.kind) && manager.Valid()
      modifies this, manager.subs
      ensures Valid() && manager.Valid() && manager.subs == old(manager.subs)
      ensures stamped == e.(seqno := |old(buf)| + 1) && buf == old(buf) + [stamped]
      ensures forall s :: s in manager.subs ==>
        s.Value() == if Serializable(e.kind)
                     then Offer(old(s.Value()), s.filter(stamped), s.bufferSize, stamped) else old(s.Value())
      ensures Serializable(e.kind) ==> forall s :: s in manager.subs && old(s.accepting) && s.filter(stamped) ==>
        if |old(s.outgoing.sent)| - old(s.outgoing.taken) < s.bufferSize
        then s.accepting && s.outgoing.sent == old(s.outgoing.sent) + [stamped]
        else !s.accepting && s.outgoing == old(s.outgoing)
    {
      last := last + 1;
      stamped := e.(seqno := last);
      buf := buf + [stamped];
      manager.BroadcastEvent(stamped);
    }
  }

  // ----- one live subscriber (Subscribe with a nil cursor) -----

  /** Everything that can happen to a registered subscriber that nobody cancels. */
  datatype SubAction =
    | Offered(e: Event)   // a broadcast reaches it
    | Received            // the consumer takes one item
    | FrameSent           // the eviction goroutine gets its error frame in
    | FrameTimedOut
    | CloseDone
    | CloseOutgoing

  predicate SubEnabled(s: Sub, bufferSize: nat, a: SubAction) {
    s.outgoing.Valid() && match a
    case Offered(_) => true
    case Received => s.outgoing.Len() > 0
    case FrameSent => s.eviction == SendingFrame && s.outgoing.Len() < bufferSize
    case FrameTimedOut => s.eviction == SendingFrame
    case CloseDone => s.eviction == Cleaning
    case CloseOutgoing => s.eviction == DoneClosed
  }

  function SubDo(s: Sub, filter: Event -> bool, bufferSize: nat, a: SubAction): Sub
    requires SubEnabled(s, bufferSize, a)
  {
    match a
    case Offered(e) => Offer(s, filter(e), bufferSize, e)
    case Received => s.(outgoing := s.outgoing.Take())
    case FrameSent => s.(outgoing := s.outgoing.Send(TOO_SLOW), eviction := Cleaning)
    case FrameTimedOut => s.(eviction := Cleaning)
    case CloseDone => s.(eviction := DoneClosed)
    case CloseOutgoing => s.(eviction := OutgoingClosed)
  }

  ghost predicate SubLegal(s: Sub, filter: Event -> bool, bufferSize: nat, acts: seq<SubAction>)
    decreases |acts|
  {
    acts == [] ||
    (SubEnabled(s, bufferSize, acts[0])
     && SubLegal(SubDo(s, filter, bufferSize, acts[0]), filter, bufferSize, acts[1..]))
  }

  ghost function SubRun(s: Sub, filter: Event -> bool, bufferSize: nat, acts: seq<SubAction>): Sub
    requires SubLegal(s, filter, bufferSize, acts)
    decreases |acts|
  {
    if acts == [] then s
    else SubRun(SubDo(s, filter, bufferSize, acts[0]), filter, bufferSize, acts[1..])
  }

  /** The broadcast events, in order, that pass the filter. */
  ghost function Passing(filter: Event -> bool, acts: seq<SubAction>): seq<Event> {
    if acts == [] then [] else Adds(filter, acts[0]) + Passing(filter, acts[1..])
  }

  /**
   * The channel's content so far, against the events that passed the filter so far: all of
   * them while accepting, otherwise a run cut at the overflow plus at most one error frame.
   */
  ghost predicate Delivered(s: Sub, passed: seq<Event>) {
    && s.outgoing.Valid()
    && (s.accepting <==> s.eviction == NotEvicted)
    && (s.accepting ==> s.outgoing.sent == passed)
    && (!s.accepting ==> exists n: nat :: n < |passed| && CutAt(s, passed, n))
  }

  ghost predicate CutAt(s: Sub, passed: seq<Event>, n: nat)
    requires n <= |passed|
  {
    || s.outgoing.sent == passed[..n]
    || (s.outgoing.sent == passed[..n] + [TOO_SLOW] && s.eviction != SendingFrame)
  }

  /** What one action adds to the events that passed the filter. */
  ghost function Adds(filter: Event -> bool, a: SubAction): seq<Event> {
    if a.Offered? && filter(a.e) then [a.e] else []
  }

  lemma LiveStepDelivers(s: Sub, filter: Event -> bool, bufferSize: nat, a: SubAction, passed: seq<Event>)
    requires SubEnabled(s, bufferSize, a) && Delivered(s, passed)
    ensures Delivered(SubDo(s, filter, bufferSize, a), passed + Adds(filter, a))
  {
    var s' := SubDo(s, filter, bufferSize, a);
    var passed' := passed + Adds(filter, a);
    if !s.accepting {
      var n: nat :| n < |passed| && CutAt(s, passed, n);
      assert passed'[..n] == passed[..n];
      assert CutAt(s', passed', n);
    } else if !s'.accepting {
      assert passed'[..|passed|] == passed;
      assert CutAt(s', passed', |passed|);
    }
  }

  lemma {:induction false} LiveRunDelivers(
      s: Sub, filter: Event -> bool, bufferSize: nat, acts: seq<SubAction>, passed: seq<Event>)
    requires SubLegal(s, filter, bufferSize, acts) && Delivered(s, passed)
    ensures Delivered(SubRun(s, filter, bufferSize, acts), passed + Passing(filter, acts))
    decreases |acts|
  {
    hide Delivered, SubDo, Adds;
    if acts == [] {
      assert passed + [] == passed;
    } else {
      LiveStepDelivers(s, filter, bufferSize, acts[0], passed);
      var passed' := passed + Adds(filter, acts[0]);
      LiveRunDelivers(SubDo(s, filter, bufferSize, acts[0]), filter, bufferSize, acts[1..], passed');
      assert passed' + Passing(filter, acts[1..]) == passed + Passing(filter, acts);
    }
  }

  /**
   * A live subscriber's channel carries, from the moment it was added, a contiguous run of the
   * events that pass its filter; once it overflows nothing but one error frame can follow.
   */
  lemma LiveSubscriberGetsContiguousRun(filter: Event -> bool, bufferSize: nat, acts: seq<SubAction>)
    requires SubLegal(NEW_SUB, filter, bufferSize, acts)
    ensures Delivered(SubRun(NEW_SUB, filter, bufferSize, acts), Passing(filter, acts))
  {
    LiveRunDelivers(NEW_SUB, filter, bufferSize, acts, []);
    assert [] + Passing(filter, acts) == Passing(filter, acts);
  }

  // ----- who is evicted -----

  /** How many items the consumer has taken. */
  ghost function Taken(acts: seq<SubAction>): nat {
    if acts == [] then 0 else (if acts[0].Received? then 1 else 0) + Taken(acts[1..])
  }

  /** The passing events so far that nobody has taken yet. */
  ghost function Unread(filter: Event -> bool, acts: seq<SubAction>): int {
    |Passing(filter, acts)| - Taken(acts)
  }

  /** The i-th action is a passing event, and finds all slots of the buffer taken. */
  ghost predicate FindsFull(filter: Event -> bool, bufferSize: nat, acts: seq<SubAction>, i: int) {
    0 <= i < |acts| && acts[i].Offered? && filter(acts[i].e) && Unread(filter, acts[..i]) >= bufferSize
  }

  lemma {:induction false} CountSnoc(filter: Event -> bool, acts: seq<SubAction>, a: SubAction)
    ensures Passing(filter, acts + [a]) == Passing(filter, acts) + Adds(filter, a)
    ensures Taken(acts + [a]) == Taken(acts) + if a.Received? then 1 else 0
  {
    hide Adds;
    if acts == [] {
      assert acts + [a] == [a] && [a][1..] == [];
      assert Passing(filter, [a]) == Adds(filter, a) + [];
    } else {
      assert (acts + [a])[0] == acts[0] && (acts + [a])[1..] == acts[1..] + [a];
      CountSnoc(filter, acts[1..], a);
      assert Adds(filter, acts[0]) + (Passing(filter, acts[1..]) + Adds(filter, a)) == Passing(filter, acts) + Adds(filter, a);
    }
  }

  lemma {:induction false} SubSnoc(s: Sub, filter: Event -> bool, bufferSize: nat, acts: seq<SubAction>, a: SubAction)
    ensures SubLegal(s, filter, bufferSize, acts + [a])
            <==> SubLegal(s, filter, bufferSize, acts) && SubEnabled(SubRun(s, filter, bufferSize, acts), bufferSize, a)
    ensures SubLegal(s, filter, bufferSize, acts + [a]) ==>
              SubRun(s, filter, bufferSize, acts + [a]) == SubDo(SubRun(s, filter, bufferSize, acts), filter, bufferSize, a)
    decreases |acts|
  {
    hide SubEnabled, SubDo;
    if acts == [] {
      assert acts + [a] == [a] && [a][1..] == [];
    } else {
      assert (acts + [a])[0] == acts[0] && (acts + [a])[1..] == acts[1..] + [a];
      if SubEnabled(s, bufferSize, acts[0]) {
        SubSnoc(SubDo(s, filter, bufferSize, acts[0]), filter, bufferSize, acts[1..], a);
      }
    }
  }

  /** While no passing event found the buffer full, all of them were sent and the unread ones are in it. */
  ghost predicate Keeping(s: Sub, filter: Event -> bool, bufferSize: nat, acts: seq<SubAction>) {
    && s.outgoing.Valid() && s.outgoing.Len() <= bufferSize
    && (s.accepting <==> s.eviction == NotEvicted)
    && (s.accepting <==> forall i :: !FindsFull(filter, bufferSize, acts, i))
    && (s.accepting ==> s.outgoing.sent == Passing(filter, acts) && s.outgoing.taken == Taken(acts))
    && (!s.accepting ==> exists i :: EvictedAt(filter, bufferSize, acts, i))
  }

  /** The i-th action is the first passing event to find the buffer full; it finds exactly bufferSize unread. */
  ghost predicate EvictedAt(filter: Event -> bool, bufferSize: nat, acts: seq<SubAction>, i: int) {
    && FindsFull(filter, bufferSize, acts, i) && Unread(filter, acts[..i]) == bufferSize
    && forall j :: j < i ==> !FindsFull(filter, bufferSize, acts, j)
  }

  lemma FullSnoc(filter: Event -> bool, bufferSize: nat, acts: seq<SubAction>, a: SubAction, i: int)
    ensures FindsFull(filter, bufferSize, acts + [a], i) <==>
              FindsFull(filter, bufferSize, acts, i)
              || (i == |acts| && a.Offered? && filter(a.e) && Unread(filter, acts) >= bufferSize)
  {
    hide Unread;
    if 0 <= i < |acts| { assert (acts + [a])[..i] == acts[..i]; }
    assert (acts + [a])[..|acts|] == acts;
  }

  lemma KeepingStep(s: Sub, filter: Event -> bool, bufferSize: nat, acts: seq<SubAction>, a: SubAction)
    requires Keeping(s, filter, bufferSize, acts) && SubEnabled(s, bufferSize, a)
    ensures Keeping(SubDo(s, filter, bufferSize, a), filter, bufferSize, acts + [a])
  {
    CountSnoc(filter, acts, a);
    var full := a.Offered? && filter(a.e) && Unread(filter, acts) >= bufferSize;
    var more := acts + [a];
    forall i ensures FindsFull(filter, bufferSize, more, i) <==> FindsFull(filter, bufferSize, acts, i) || (i == |acts| && full) {
      FullSnoc(filter, bufferSize, acts, a, i);
    }
    assert more[..|acts|] == acts;
    hide FindsFull;
    if !s.accepting {
      var i :| EvictedAt(filter, bufferSize, acts, i);
      EarlierFull(filter, bufferSize, acts, i);
      assert more[..i] == acts[..i];
      assert EvictedAt(filter, bufferSize, more, i);
    } else if full {
      assert EvictedAt(filter, bufferSize, more, |acts|);
    }
  }

  lemma EarlierFull(filter: Event -> bool, bufferSize: nat, acts: seq<SubAction>, i: int)
    requires FindsFull(filter, bufferSize, acts, i)
    ensures 0 <= i < |acts|
  {
  }

  lemma {:induction false} KeepingRun(filter: Event -> bool, bufferSize: nat, acts: seq<SubAction>)
    requires SubLegal(NEW_SUB, filter, bufferSize, acts)
    ensures Keeping(SubRun(NEW_SUB, filter, bufferSize, acts), filter, bufferSize, acts)
    decreases |acts|
  {
    if acts == [] {
      hide Unread;
    } else {
      var before, a := acts[..|acts| - 1], acts[|acts| - 1];
      assert acts == before + [a];
      SubSnoc(NEW_SUB, filter, bufferSize, before, a);
      hide Keeping, SubDo, SubEnabled;
      KeepingRun(filter, bufferSize, before);
      KeepingStep(SubRun(NEW_SUB, filter, bufferSize, before), filter, bufferSize, before, a);
    }
  }

  /**
   * A subscriber still accepts, and has been sent every passing event, exactly when none of them
   * came while bufferSize passing events were unread; the one that cuts it off finds exactly
   * bufferSize unread. Its channel never holds more.
   */
  lemma EvictedOnlyWhenFull(filter: Event -> bool, bufferSize: nat, acts: seq<SubAction>)
    requires SubLegal(NEW_SUB, filter, bufferSize, acts)
    ensures var s := SubRun(NEW_SUB, filter, bufferSize, acts);
            && s.outgoing.Valid() && s.outgoing.Len() <= bufferSize
            && (s.accepting <==> forall i :: !FindsFull(filter, bufferSize, acts, i))
            && (s.accepting ==> s.outgoing.sent == Passing(filter, acts) && s.outgoing.Len() == Unread(filter, acts))
            && (!s.accepting ==> exists i :: EvictedAt(filter, bufferSize, acts, i))
  {
    KeepingRun(filter, bufferSize, acts);
  }
}
