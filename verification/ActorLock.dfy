/**
 * The reference-counted per-actor lock of user_service/internal/repo/manager.go, as a
 * transition system over any number of goroutines and actors.
 */
module ActorLock {
  import opened Prelude

  type Actor = nat
  type Thread = nat
  /** The identity of a heap-allocated actorLock object. */
  type LockId = nat

  /** rm.actorLocks and the count field of every allocated lock; both are guarded by rm.lklk. */
  datatype Table = Table(actorLocks: map<Actor, LockId>, count: map<LockId, int>)

  /** Look the actor's lock up, creating it as `unused` when missing, and count one more user. */
  function Register(tb: Table, actor: Actor, unused: LockId): (r: (Table, LockId)) {
    if actor in tb.actorLocks then
      var ulk := tb.actorLocks[actor];
      (tb.(count := tb.count[ulk := (if ulk in tb.count then tb.count[ulk] else 0) + 1]), ulk)
    else
      (Table(tb.actorLocks[actor := unused], tb.count[unused := 1]), unused)
  }

  /** Count one user less and forget a lock nobody uses. */
  function Drop(tb: Table, actor: Actor, ulk: LockId): Table
    requires ulk in tb.count
  {
    var left := tb.count[ulk] - 1;
    Table(if left == 0 then tb.actorLocks - {actor} else tb.actorLocks, tb.count[ulk := left])
  }

  /** The two critical sections of lockActor under rm.lklk. */
  class LockTable {
    var actorLocks: map<Actor, LockId>
    var count: map<LockId, int>
    var nextLock: nat

    ghost function Value(): Table reads this { Table(actorLocks, count) }

    constructor ()
      ensures Value() == Table(map[], map[]) && nextLock == 0
    {
      actorLocks, count, nextLock := map[], map[], 0;
    }

    method Enter(actor: Actor) returns (ulk: LockId)
      requires forall a :: a in actorLocks ==> actorLocks[a] in count
      modifies this
      ensures var (tb, k) := Register(old(Value()), actor, old(nextLock)); Value() == tb && ulk == k
      ensures nextLock == old(nextLock) + if actor in old(actorLocks) then 0 else 1
    {
      if actor !in actorLocks {
        actorLocks := actorLocks[actor := nextLock];
        count := count[nextLock := 0];
        nextLock := nextLock + 1;
      }
      ulk := actorLocks[actor];
      count := count[ulk := count[ulk] + 1];
    }

    method Leave(actor: Actor, ulk: LockId)
      requires ulk in count
      modifies this
      ensures Value() == Drop(old(Value()), actor, ulk) && nextLock == old(nextLock)
    {
      count := count[ulk := count[ulk] - 1];
      if count[ulk] == 0 {
        actorLocks := actorLocks - {actor};
      }
    }
  }

  /** Where a goroutine is in lockActor and in the unlock closure it returns. */
  datatype Pc =
    | Idle
    | Enter(actor: Actor)                   // waits for rm.lklk
    | Lookup(actor: Actor)                  // holds rm.lklk
    | Registered(actor: Actor, ulk: LockId) // holds rm.lklk, counted
    | Wait(actor: Actor, ulk: LockId)       // waits for ulk.lk, holds nothing
    | Critical(actor: Actor, ulk: LockId)   // holds ulk.lk
    | Exit(actor: Actor, ulk: LockId)       // holds ulk.lk, waits for rm.lklk
    | Unlock(actor: Actor, ulk: LockId)     // holds ulk.lk and rm.lklk
    | Uncount(actor: Actor, ulk: LockId)    // holds rm.lklk, still counted
    | Leave(actor: Actor)                   // holds rm.lklk
  {
    predicate InMap() { Lookup? || Registered? || Unlock? || Uncount? || Leave? }
    predicate Counted() { Registered? || Wait? || Critical? || Exit? || Unlock? || Uncount? }
    predicate Owns() { Critical? || Exit? || Unlock? }
  }

  datatype State = State(
    lklk: Option<Thread>,             // who holds the map mutex
    owner: map<LockId, Thread>,       // who holds each lock object's mutex; absent when free
    table: Table,
    pcs: map<Thread, Pc>)

  ghost predicate Init(s: State) {
    s.lklk == None && s.owner == map[] && s.table == Table(map[], map[])
    && forall t :: t in s.pcs ==> s.pcs[t] == Idle
  }

  /** One atomic step of goroutine t. */
  ghost predicate Step(s: State, s': State, t: Thread) {
    t in s.pcs && match s.pcs[t]
    case Idle =>
      exists a: Actor :: s' == s.(pcs := s.pcs[t := Enter(a)])
    case Enter(a) =>
      s.lklk == None && s' == s.(lklk := Some(t), pcs := s.pcs[t := Lookup(a)])
    case Lookup(a) =>
      exists unused: LockId :: unused !in s.table.count &&
        var (tb, ulk) := Register(s.table, a, unused);
        s' == s.(table := tb, pcs := s.pcs[t := Registered(a, ulk)])
    case Registered(a, ulk) =>
      s' == s.(lklk := None, pcs := s.pcs[t := Wait(a, ulk)])
    case Wait(a, ulk) =>
      ulk !in s.owner && s' == s.(owner := s.owner[ulk := t], pcs := s.pcs[t := Critical(a, ulk)])
    case Critical(a, ulk) =>
      s' == s.(pcs := s.pcs[t := Exit(a, ulk)])
    case Exit(a, ulk) =>
      s.lklk == None && s' == s.(lklk := Some(t), pcs := s.pcs[t := Unlock(a, ulk)])
    case Unlock(a, ulk) =>
      s' == s.(owner := s.owner - {ulk}, pcs := s.pcs[t := Uncount(a, ulk)])
    case Uncount(a, ulk) =>
      ulk in s.table.count && s' == s.(table := Drop(s.table, a, ulk), pcs := s.pcs[t := Leave(a)])
    case Leave(a) =>
      s' == s.(lklk := None, pcs := s.pcs[t := Idle])
  }

  ghost predicate Next(s: State, s': State) {
    exists t :: Step(s, s', t)
  }

  ghost predicate IsRun(run: seq<State>) {
    |run| > 0 && Init(run[0])
    && forall i :: 0 < i < |run| ==> Next(run[i - 1], run[i])
  }

  /** The goroutines counted by lock object o: those that hold it or are about to wait for it. */
  ghost function Users(s: State, o: LockId): set<Thread> {
    set t | t in s.pcs && s.pcs[t].Counted() && s.pcs[t].ulk == o
  }

  ghost predicate Inv(s: State) {
    && MapLockInv(s)
    && OwnerInv(s)
    && CountInv(s)
    && TableInv(s)
  }

  ghost predicate MapLockInv(s: State) {
    forall t :: (t in s.pcs && s.pcs[t].InMap()) <==> s.lklk == Some(t)
  }

  ghost predicate OwnerInv(s: State) {
    && (forall o :: o in s.owner ==>
          var t := s.owner[o]; t in s.pcs && s.pcs[t].Owns() && s.pcs[t].ulk == o)
    && (forall t :: t in s.pcs && s.pcs[t].Owns() ==>
          s.pcs[t].ulk in s.owner && s.owner[s.pcs[t].ulk] == t)
  }

  ghost predicate CountInv(s: State) {
    && (forall o :: o in s.table.count ==> s.table.count[o] == |Users(s, o)|)
    && (forall t :: t in s.pcs && s.pcs[t].Counted() ==>
          && s.pcs[t].ulk in s.table.count
          && s.pcs[t].actor in s.table.actorLocks
          && s.table.actorLocks[s.pcs[t].actor] == s.pcs[t].ulk)
  }

  ghost predicate TableInv(s: State) {
    && (forall a :: a in s.table.actorLocks ==>
          s.table.actorLocks[a] in s.table.count && s.table.count[s.table.actorLocks[a]] > 0)
    && (forall a, b :: a in s.table.actorLocks && b in s.table.actorLocks && a != b ==>
          s.table.actorLocks[a] != s.table.actorLocks[b])
  }

  /** How a step of t changes who is counted where. */
  lemma UsersAfter(s: State, s': State, t: Thread, o: LockId)
    requires t in s.pcs && t in s'.pcs && s'.pcs == s.pcs[t := s'.pcs[t]]
    ensures var was := s.pcs[t].Counted() && s.pcs[t].ulk == o;
            var now := s'.pcs[t].Counted() && s'.pcs[t].ulk == o;
            |Users(s', o)| == |Users(s, o)| + (if now then 1 else 0) - (if was then 1 else 0)
  {
    var rest := Users(s, o) - {t};
    assert Users(s, o) == if t in Users(s, o) then rest + {t} else rest;
    assert Users(s', o) == if t in Users(s', o) then rest + {t} else rest;
  }

  lemma StepKeepsMutexInvs(s: State, s': State, t: Thread)
    requires Inv(s) && Step(s, s', t)
    ensures MapLockInv(s') && OwnerInv(s')
  {
    hide Register, Drop, Users, CountInv, TableInv;
    assert s'.pcs == s.pcs[t := s'.pcs[t]];
  }

  lemma StepKeepsInv(s: State, s': State, t: Thread)
    requires Inv(s) && Step(s, s', t)
    ensures Inv(s')
  {
    assert t in s.pcs;
    hide Step, MapLockInv, OwnerInv, CountInv, TableInv;
    StepKeepsMutexInvs(s, s', t);
    if s.pcs[t].Lookup? {
      RegisterKeepsInv(s, s', t);
    } else if s.pcs[t].Uncount? {
      UncountKeepsInv(s, s', t);
    } else {
      OtherStepsKeepInv(s, s', t);
    }
  }

  lemma OtherStepsKeepInv(s: State, s': State, t: Thread)
    requires CountInv(s) && TableInv(s) && Step(s, s', t) && !s.pcs[t].Lookup? && !s.pcs[t].Uncount?
    ensures CountInv(s') && TableInv(s')
  {
    hide Register, Drop, Users;
    forall o | o in s.table.count ensures |Users(s', o)| == |Users(s, o)| {
      UsersAfter(s, s', t, o);
    }
  }

  lemma RegisterKeepsInv(s: State, s': State, t: Thread)
    requires CountInv(s) && TableInv(s) && Step(s, s', t) && s.pcs[t].Lookup?
    ensures CountInv(s') && TableInv(s')
  {
    var a := s.pcs[t].actor;
    var unused: LockId :| unused !in s.table.count &&
      var (tb, ulk) := Register(s.table, a, unused);
      s' == s.(table := tb, pcs := s.pcs[t := Registered(a, ulk)]);
    if a in s.table.actorLocks {
      assert s'.table.actorLocks == s.table.actorLocks;
    } else {
      assert Users(s, unused) == {};
    }
    forall o | o in s'.table.count ensures s'.table.count[o] == |Users(s', o)| {
      UsersAfter(s, s', t, o);
    }
  }

  lemma UncountKeepsInv(s: State, s': State, t: Thread)
    requires CountInv(s) && TableInv(s) && Step(s, s', t) && s.pcs[t].Uncount?
    ensures CountInv(s') && TableInv(s')
  {
    var a, ulk := s.pcs[t].actor, s.pcs[t].ulk;
    forall o | o in s'.table.count ensures s'.table.count[o] == |Users(s', o)| {
      UsersAfter(s, s', t, o);
    }
    forall u | u in s'.pcs && s'.pcs[u].Counted()
      ensures s'.pcs[u].actor in s'.table.actorLocks
    {
      assert u in Users(s', s'.pcs[u].ulk);
      if s'.pcs[u].actor == a {
        assert |Users(s', ulk)| > 0;
      }
    }
  }

  lemma {:induction false} RunKeepsInv(run: seq<State>, i: nat)
    requires IsRun(run) && i < |run|
    ensures Inv(run[i])
  {
    if i == 0 {
      forall o ensures Users(run[0], o) == {} {}
    } else {
      RunKeepsInv(run, i - 1);
      var t :| Step(run[i - 1], run[i], t);
      StepKeepsInv(run[i - 1], run[i], t);
    }
  }

  /** No two goroutines are ever inside the lock of one actor. */
  lemma MutualExclusion(run: seq<State>, i: nat, t: Thread, u: Thread)
    requires IsRun(run) && i < |run|
    requires t in run[i].pcs && u in run[i].pcs && run[i].pcs[t].Owns() && run[i].pcs[u].Owns()
    requires run[i].pcs[t].actor == run[i].pcs[u].actor
    ensures t == u
  {
    RunKeepsInv(run, i);
  }

  /**
   * A lock object is in the map exactly while it has users, its count is their number, and
   * all users of an actor use that actor's one object.
   */
  lemma LiveLocks(run: seq<State>, i: nat, o: LockId)
    requires IsRun(run) && i < |run|
    ensures var s := run[i];
            && (o in s.table.count ==> s.table.count[o] == |Users(s, o)|)
            && ((exists a :: a in s.table.actorLocks && s.table.actorLocks[a] == o) <==> Users(s, o) != {})
            && (forall t, u :: t in s.pcs && u in s.pcs && s.pcs[t].Counted() && s.pcs[u].Counted() ==>
                  (s.pcs[t].actor == s.pcs[u].actor <==> s.pcs[t].ulk == s.pcs[u].ulk))
  {
    RunKeepsInv(run, i);
    var s := run[i];
    if Users(s, o) != {} {
      var t :| t in Users(s, o);
      assert s.table.actorLocks[s.pcs[t].actor] == o;
    }
    if a :| a in s.table.actorLocks && s.table.actorLocks[a] == o {
      assert |Users(s, o)| > 0;
    }
  }

  /** Waiting for an actor lock and holding the map lock exclude each other. */
  lemma WaitersHoldNothing(run: seq<State>, i: nat, t: Thread)
    requires IsRun(run) && i < |run| && t in run[i].pcs && run[i].pcs[t].Wait?
    ensures run[i].lklk != Some(t) && t !in run[i].owner.Values
  {
    RunKeepsInv(run, i);
  }

  lemma UnusedLock(count: map<LockId, int>) returns (unused: LockId)
    ensures unused !in count
  {
    unused := 0;
    var below: set<LockId> := {};
    while unused in count
      invariant below <= count.Keys && forall o: LockId :: o in below <==> o < unused
      decreases count.Keys - below
    {
      below := below + {unused};
      unused := unused + 1;
    }
  }

  lemma MapHolderCanStep(s: State, t: Thread) returns (s': State)
    requires Inv(s) && s.lklk == Some(t)
    ensures Step(s, s', t)
  {
    match s.pcs[t] {
      case Lookup(a) =>
        var unused := UnusedLock(s.table.count);
        var (tb, ulk) := Register(s.table, a, unused);
        s' := s.(table := tb, pcs := s.pcs[t := Registered(a, ulk)]);
      case Registered(a, ulk) => s' := s.(lklk := None, pcs := s.pcs[t := Wait(a, ulk)]);
      case Unlock(a, ulk) => s' := s.(owner := s.owner - {ulk}, pcs := s.pcs[t := Uncount(a, ulk)]);
      case Uncount(a, ulk) => s' := s.(table := Drop(s.table, a, ulk), pcs := s.pcs[t := Leave(a)]);
      case Leave(a) => s' := s.(lklk := None, pcs := s.pcs[t := Idle]);
    }
  }

  /** There is no deadlock: while any goroutine is between lockActor and the end of unlock, one can step. */
  lemma NoDeadlock(run: seq<State>, i: nat, t: Thread) returns (u: Thread, s': State)
    requires IsRun(run) && i < |run| && t in run[i].pcs && run[i].pcs[t] != Idle
    ensures u in run[i].pcs && run[i].pcs[u] != Idle && Step(run[i], s', u)
  {
    RunKeepsInv(run, i);
    var s := run[i];
    if s.lklk.Some? {
      u := s.lklk.value;
      s' := MapHolderCanStep(s, u);
    } else {
      u := if s.pcs[t].Wait? && s.pcs[t].ulk in s.owner then s.owner[s.pcs[t].ulk] else t;
      match s.pcs[u] {
        case Enter(a) => s' := s.(lklk := Some(u), pcs := s.pcs[u := Lookup(a)]);
        case Wait(a, ulk) => s' := s.(owner := s.owner[ulk := u], pcs := s.pcs[u := Critical(a, ulk)]);
        case Critical(a, ulk) => s' := s.(pcs := s.pcs[u := Exit(a, ulk)]);
        case Exit(a, ulk) => s' := s.(lklk := Some(u), pcs := s.pcs[u := Unlock(a, ulk)]);
      }
    }
  }
}
