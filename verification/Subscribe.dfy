/**
 * EventManager.Subscribe with a cursor (user_service/internal/events/events.go): replay the log,
 * register, replay again up to the first live event, then copy the live events over. The model
 * interleaves its steps with persists, broadcasts, the eviction goroutine and the consumer.
 */
module Subscribe {
  import opened Prelude
  import opened EventLog

  datatype Config = Config(since: nat, bufferSize: nat, crossoverSize: nat, kinds: set<Kind>) {
    predicate Valid() {
      bufferSize > 0 && crossoverSize > 0 && forall k :: k in kinds ==> Stampable(k)
    }
  }

  /** Where the goroutine is; pos and end delimit the slice mp.buf[pos:end] still to be replayed. */
  datatype Stage =
    | Start
    | Replay(pos: nat, end: nat)
    | Attach
    | Await
    | Reopen(first: Event)
    | CatchUp(first: Event, pos: nat, end: nat)
    | Live
    | Holding(evt: Event)
    | Stopped

  datatype State = State(
    log: seq<Event>,
    pending: bool,        // the last log entry is not broadcast yet; mp.lk is held meanwhile
    attached: bool,
    attachedAt: int,      // history: how many entries had been broadcast when sub was added
    sub: Sub,
    out: Chan,
    stage: Stage,
    lastSeq: int)

  datatype Action =
    | Append(kind: Kind, body: nat) | Broadcast
    | BeginReplay | ReplayOne | EndReplay | AddSub | TakeFirst
    | BeginCatchUp | CatchUpOne | CaughtUp | EndCatchUp | TakeLive | SendLive | StopOnDone | StopOnClose
    | SendFrame | FrameTimeout | CloseDone | CloseOutgoing
    | Consume

  function InitState(log: seq<Event>, since: nat): State {
    State(log, false, false, 0, NEW_SUB, Chan([], 0), Start, since)
  }

  predicate OutRoom(s: State, cfg: Config) {
    s.out.Valid() && s.out.Len() < cfg.crossoverSize
  }

  predicate OutgoingReady(s: State) {
    s.sub.outgoing.Valid() && s.sub.outgoing.Len() > 0
  }

  predicate DoneClosedNow(s: State) {
    s.sub.eviction == DoneClosed || s.sub.eviction == OutgoingClosed
  }

  predicate Enabled(s: State, cfg: Config, a: Action) {
    match a
    case Append(k, _) => !s.pending && k in cfg.kinds
    case Broadcast => s.pending && s.log != [] && s.sub.outgoing.Valid()
    case BeginReplay => s.stage.Start? && !s.pending
    case ReplayOne => s.stage.Replay? && s.stage.pos < s.stage.end <= |s.log| && OutRoom(s, cfg)
    case EndReplay => s.stage.Replay? && s.stage.pos >= s.stage.end
    case AddSub => s.stage.Attach?
    case TakeFirst => s.stage.Await? && OutgoingReady(s)
    case BeginCatchUp => s.stage.Reopen? && !s.pending && s.lastSeq >= 0
    case CatchUpOne =>
      s.stage.CatchUp? && s.stage.pos < s.stage.end <= |s.log| && OutRoom(s, cfg)
      && Sequence(s.log[s.stage.pos]) <= Sequence(s.stage.first)
    case CaughtUp =>
      s.stage.CatchUp? && s.stage.pos < s.stage.end <= |s.log|
      && Sequence(s.log[s.stage.pos]) > Sequence(s.stage.first)
    case EndCatchUp => s.stage.CatchUp? && s.stage.pos >= s.stage.end
    case TakeLive => s.stage.Live? && OutgoingReady(s)
    case SendLive => s.stage.Holding? && OutRoom(s, cfg)
    case StopOnDone => (s.stage.Holding? || (s.stage.CatchUp? && s.stage.pos < s.stage.end)) && DoneClosedNow(s)
    case StopOnClose => s.stage.Live? && !OutgoingReady(s) && s.sub.eviction == OutgoingClosed
    case SendFrame => SubEnabled(s.sub, cfg.bufferSize, FrameSent)
    case FrameTimeout => SubEnabled(s.sub, cfg.bufferSize, FrameTimedOut)
    case CloseDone => SubEnabled(s.sub, cfg.bufferSize, SubAction.CloseDone)
    case CloseOutgoing => SubEnabled(s.sub, cfg.bufferSize, SubAction.CloseOutgoing)
    case Consume => s.out.Valid() && s.out.Len() > 0
  }

  function Everything(): Event -> bool { e => true }

  function Do(s: State, cfg: Config, a: Action): State
    requires Enabled(s, cfg, a)
  {
    match a
    case Append(k, body) =>
      s.(log := s.log + [Event(k, |s.log| + 1, body)], pending := true)
    case Broadcast =>
      var e := s.log[|s.log| - 1];
      s.(pending := false,
         sub := if s.attached && Serializable(e.kind) then Offer(s.sub, true, cfg.bufferSize, e) else s.sub)
    case BeginReplay =>
      s.(stage := if cfg.since >= |s.log| then Attach else Replay(cfg.since, |s.log|))
    case ReplayOne =>
      var e := s.log[s.stage.pos];
      s.(out := s.out.Send(e), stage := Replay(s.stage.pos + 1, s.stage.end),
         lastSeq := if Sequence(e) > 0 then Sequence(e) else s.lastSeq)
    case EndReplay => s.(stage := Attach)
    case AddSub => s.(attached := true, attachedAt := Broadcasted(s), stage := Await)
    case TakeFirst =>
      s.(sub := s.sub.(outgoing := s.sub.outgoing.Take()), stage := Reopen(s.sub.outgoing.Head()))
    case BeginCatchUp =>
      s.(stage := if s.lastSeq >= |s.log| then Live else CatchUp(s.stage.first, s.lastSeq, |s.log|))
    case CatchUpOne =>
      s.(out := s.out.Send(s.log[s.stage.pos]), stage := CatchUp(s.stage.first, s.stage.pos + 1, s.stage.end))
    case CaughtUp => s.(stage := Live)
    case EndCatchUp => s.(stage := Live)
    case TakeLive =>
      s.(sub := s.sub.(outgoing := s.sub.outgoing.Take()), stage := Holding(s.sub.outgoing.Head()))
    case SendLive => s.(out := s.out.Send(s.stage.evt), stage := Live)
    case StopOnDone => s.(stage := Stopped)
    case StopOnClose => s.(stage := Stopped)
    case SendFrame => s.(sub := SubDo(s.sub, Everything(), cfg.bufferSize, FrameSent))
    case FrameTimeout => s.(sub := SubDo(s.sub, Everything(), cfg.bufferSize, FrameTimedOut))
    case CloseDone => s.(sub := SubDo(s.sub, Everything(), cfg.bufferSize, SubAction.CloseDone))
    case CloseOutgoing => s.(sub := SubDo(s.sub, Everything(), cfg.bufferSize, SubAction.CloseOutgoing))
    case Consume => s.(out := s.out.Take())
  }

  function Broadcasted(s: State): int {
    |s.log| - if s.pending then 1 else 0
  }

  predicate Legal(s: State, cfg: Config, acts: seq<Action>)
    decreases |acts|
  {
    acts == [] || (Enabled(s, cfg, acts[0]) && Legal(Do(s, cfg, acts[0]), cfg, acts[1..]))
  }

  function Run(s: State, cfg: Config, acts: seq<Action>): State
    requires Legal(s, cfg, acts)
    decreases |acts|
  {
    if acts == [] then s else Run(Do(s, cfg, acts[0]), cfg, acts[1..])
  }

  // ----- what the consumer must see -----

  predicate HasFrame(items: seq<Event>) {
    items != [] && items[|items| - 1].kind == ErrorFrame
  }

  /** How many of the items come before the error frame that may end them. */
  function EventCount(items: seq<Event>): nat {
    if HasFrame(items) then |items| - 1 else |items|
  }

  /** The items before a final error frame are the log entries at from, from+1, ..., once each, in order. */
  predicate RunOf(items: seq<Event>, log: seq<Event>, from: int) {
    var n := EventCount(items);
    n == 0 || (0 <= from && from + n <= |log| && forall i :: 0 <= i < n ==> items[i] == log[from + i])
  }

  /** What was put into the consumer's channel, but for a final error frame, is the log after the cursor. */
  predicate Contiguous(s: State, since: nat) {
    RunOf(s.out.sent, s.log, since)
  }

  /** A log as Persist builds it from the given kinds. */
  predicate LogOf(log: seq<Event>, kinds: set<Kind>) {
    forall i :: 0 <= i < |log| ==> log[i].kind in kinds && log[i].seqno == i + 1
  }

  // ----- the invariant, for logs of streamable events -----

  predicate AllStreamable(kinds: set<Kind>) {
    forall k :: k in kinds ==> Streamable(k)
  }

  /** A log as Persist builds it, of whatever kinds. */
  predicate Stamped(log: seq<Event>) {
    forall i :: 0 <= i < |log| ==> Stampable(log[i].kind) && log[i].seqno == i + 1
  }

  /** The part of the log after the cursor does not end in a label. */
  predicate NoLabelAtEnd(log: seq<Event>, since: nat) {
    since < |log| ==> log[|log| - 1].kind != Labels
  }

  /** The log began with `base` entries, of any kind; those since then are streamable. */
  predicate LogInv(log: seq<Event>, pending: bool, cfg: Config, base: nat) {
    && cfg.Valid() && AllStreamable(cfg.kinds) && Stamped(log) && base <= |log| && (pending ==> |log| > base)
    && (forall i :: base <= i < |log| ==> Streamable(log[i].kind))
    && (cfg.since < base ==> Streamable(log[base - 1].kind))
  }

  /** The live channel: log entries from `from` on, cut at an overflow, then perhaps the frame. */
  predicate SubInv(sub: Sub, attached: bool, from: int, log: seq<Event>, broadcasted: int) {
    var sent := sub.outgoing.sent;
    && sub.outgoing.Valid()
    && (sub.accepting <==> sub.eviction == NotEvicted)
    && (!attached ==> sub == NEW_SUB)
    && (attached ==>
          && 0 <= from
          && RunOf(sent, log, from)
          && from + EventCount(sent) <= broadcasted
          && (sub.accepting ==> !HasFrame(sent) && from + |sent| == broadcasted)
          && (!sub.accepting ==> EventCount(sent) > 0 && from + EventCount(sent) < broadcasted)
          && (HasFrame(sent) ==> sub.eviction != SendingFrame))
  }

  /** How much has been delivered once k items were taken off the live channel. */
  predicate DeliveredAfter(s: State, cfg: Config, k: nat)
    requires s.sub.outgoing.Valid()
  {
    var n := EventCount(s.sub.outgoing.sent);
    && 0 < k <= |s.sub.outgoing.sent|
    && (HasFrame(s.out.sent) <==> k > n)
    && cfg.since + EventCount(s.out.sent) == s.attachedAt + if k <= n then k else n
  }

  predicate StageInv(s: State, cfg: Config, base: nat)
    requires s.sub.outgoing.Valid()
  {
    var taken := s.sub.outgoing.taken;
    var at := cfg.since + |s.out.sent|;
    && RunOf(s.out.sent, s.log, cfg.since)
    && (!s.stage.Live? && !s.stage.Holding? && !s.stage.Stopped? ==> !HasFrame(s.out.sent))
    && (s.attached ==> base <= s.attachedAt)
    && match s.stage
    case Start => !s.attached && s.out.sent == [] && s.lastSeq == cfg.since <= Broadcasted(s) + 1
    case Replay(pos, end) =>
      !s.attached && pos == at <= end <= Broadcasted(s) && base <= end && cfg.since < end && ReplayedTo(s, cfg, pos)
    case Attach => !s.attached && base <= s.lastSeq == at <= Broadcasted(s) + 1
    case Await => s.attached && base <= s.lastSeq == at <= s.attachedAt + 1 && taken == 0
    case Reopen(first) =>
      s.attached && base <= s.lastSeq == at <= s.attachedAt + 1 && taken == 1
      && 0 <= s.attachedAt < |s.log| && first == s.log[s.attachedAt]
    case CatchUp(first, pos, end) =>
      s.attached && base <= pos == at <= s.attachedAt + 1 <= end <= |s.log| && taken == 1
      && 0 <= s.attachedAt && first == s.log[s.attachedAt]
    case Live => s.attached && DeliveredAfter(s, cfg, taken)
    case Holding(evt) =>
      s.attached && taken > 1 && evt == s.sub.outgoing.sent[taken - 1] && DeliveredAfter(s, cfg, taken - 1)
    case Stopped =>
      s.attached && s.sub.eviction != NotEvicted && cfg.since + EventCount(s.out.sent) <= s.attachedAt + EventCount(s.sub.outgoing.sent)
  }

  /** The sequence number reached by the first replay; a label leaves it behind. */
  predicate ReplayedTo(s: State, cfg: Config, pos: nat) {
    && pos <= |s.log| && (pos == cfg.since ==> s.lastSeq == cfg.since)
    && (pos > cfg.since && s.log[pos - 1].kind != Labels ==> s.lastSeq == pos)
  }

  predicate SubInvOf(s: State) {
    SubInv(s.sub, s.attached, s.attachedAt, s.log, Broadcasted(s))
  }

  predicate Inv(s: State, cfg: Config, base: nat) {
    LogInv(s.log, s.pending, cfg, base) && SubInvOf(s) && StageInv(s, cfg, base) && s.out.Valid()
  }

  lemma AppendKeepsInv(s: State, cfg: Config, base: nat, k: Kind, body: nat)
    requires Inv(s, cfg, base) && Enabled(s, cfg, Append(k, body))
    ensures Inv(Do(s, cfg, Append(k, body)), cfg, base)
  {
    var e := Event(k, |s.log| + 1, body);
    RunGrows(s.sub.outgoing.sent, s.log, s.attachedAt, e);
    RunGrows(s.out.sent, s.log, cfg.since, e);
    hide RunOf, HasFrame, EventCount;
  }

  lemma RunGrows(items: seq<Event>, log: seq<Event>, from: int, e: Event)
    ensures RunOf(items, log, from) ==> RunOf(items, log + [e], from)
  {
  }

  /** Broadcasting the last log entry to an attached subscriber. */
  lemma OfferKeepsSubInv(sub: Sub, from: int, log: seq<Event>, bufferSize: nat)
    requires log != [] && bufferSize > 0 && log[|log| - 1].kind != ErrorFrame
    requires SubInv(sub, true, from, log, |log| - 1)
    ensures SubInv(Offer(sub, true, bufferSize, log[|log| - 1]), true, from, log, |log|)
  {
    if sub.accepting {
      assert !HasFrame(sub.outgoing.sent) && !HasFrame(sub.outgoing.sent + [log[|log| - 1]]);
    }
  }

  /** A longer live channel leaves the goroutine's part of the invariant alone. */
  lemma StageInvKept(s: State, sub: Sub, cfg: Config, base: nat)
    requires s.sub.outgoing.Valid() && StageInv(s, cfg, base)
    requires sub.outgoing.taken == s.sub.outgoing.taken && s.sub.outgoing.sent <= sub.outgoing.sent
    requires s.sub.eviction != NotEvicted ==> sub.eviction != NotEvicted && sub.outgoing == s.sub.outgoing
    requires |sub.outgoing.sent| > |s.sub.outgoing.sent| ==>
               !HasFrame(s.sub.outgoing.sent) && EventCount(sub.outgoing.sent) >= |s.sub.outgoing.sent|
    ensures StageInv(s.(pending := false, sub := sub), cfg, base)
  {
    if s.sub.outgoing.sent == sub.outgoing.sent {
      assert sub.outgoing == s.sub.outgoing;
    }
  }

  lemma BroadcastKeepsSubInv(s: State, cfg: Config, base: nat)
    requires Inv(s, cfg, base) && Enabled(s, cfg, Broadcast)
    ensures SubInvOf(Do(s, cfg, Broadcast))
  {
    assert Streamable(s.log[|s.log| - 1].kind);
    if s.attached {
      OfferKeepsSubInv(s.sub, s.attachedAt, s.log, cfg.bufferSize);
    }
  }

  lemma BroadcastKeepsStageInv(s: State, cfg: Config, base: nat)
    requires Inv(s, cfg, base) && Enabled(s, cfg, Broadcast)
    ensures StageInv(Do(s, cfg, Broadcast), cfg, base) && LogInv(s.log, false, cfg, base)
  {
    assert Streamable(s.log[|s.log| - 1].kind);
    StageInvKept(s, Do(s, cfg, Broadcast).sub, cfg, base);
  }

  lemma SendFrameKeepsInv(s: State, cfg: Config, base: nat)
    requires Inv(s, cfg, base) && Enabled(s, cfg, SendFrame)
    ensures Inv(Do(s, cfg, SendFrame), cfg, base)
  {
    var sent := s.sub.outgoing.sent;
    assert !HasFrame(sent) && EventCount(sent + [TOO_SLOW]) == |sent|;
  }

  lemma EvictionKeepsSubInv(sub: Sub, eviction: Eviction, attached: bool, from: int, log: seq<Event>, broadcasted: int)
    requires SubInv(sub, attached, from, log, broadcasted)
    requires sub.eviction != NotEvicted && eviction != NotEvicted && eviction != SendingFrame
    ensures SubInv(sub.(eviction := eviction), attached, from, log, broadcasted)
  {
  }

  lemma CleanupKeepsInv(s: State, cfg: Config, base: nat, a: Action)
    requires Inv(s, cfg, base) && Enabled(s, cfg, a) && (a.FrameTimeout? || a.CloseDone? || a.CloseOutgoing?)
    ensures Inv(Do(s, cfg, a), cfg, base)
  {
    hide RunOf, LogOf, HasFrame, EventCount, AllStreamable;
    var s' := Do(s, cfg, a);
    assert s' == s.(sub := s.sub.(eviction := s'.sub.eviction));
    EvictionKeepsSubInv(s.sub, s'.sub.eviction, s.attached, s.attachedAt, s.log, Broadcasted(s));
    assert SubInvOf(s');
  }

  lemma ConsumeKeepsStageInv(s: State, cfg: Config, base: nat)
    requires Inv(s, cfg, base) && Enabled(s, cfg, Consume)
    ensures StageInv(Do(s, cfg, Consume), cfg, base)
  {
    var s' := Do(s, cfg, Consume);
  }

  /** A full buffer precedes any frame, so something taken off the channel means an event was there. */
  lemma FirstIsEvent(s: State)
    requires SubInvOf(s) && s.attached && s.sub.outgoing.sent != []
    ensures EventCount(s.sub.outgoing.sent) > 0
  {
  }

  lemma ReplayKeepsInv(s: State, cfg: Config, base: nat, a: Action)
    requires Inv(s, cfg, base) && Enabled(s, cfg, a) && (a.BeginReplay? || a.EndReplay? || a.AddSub?)
    ensures Inv(Do(s, cfg, a), cfg, base)
  {
  }

  /** Putting the next log entry into the consumer's channel. */
  lemma SendNext(items: seq<Event>, log: seq<Event>, from: nat)
    requires RunOf(items, log, from) && from + |items| < |log|
    requires !HasFrame(items) && log[from + |items|].kind != ErrorFrame
    ensures var items' := items + [log[from + |items|]];
            RunOf(items', log, from) && !HasFrame(items') && EventCount(items') == |items| + 1
  {
  }

  lemma ReplayOneKeepsStageInv(s: State, cfg: Config, base: nat)
    requires Inv(s, cfg, base) && Enabled(s, cfg, ReplayOne)
    ensures StageInv(Do(s, cfg, ReplayOne), cfg, base)
  {
    var s' := Do(s, cfg, ReplayOne);
    assert Stampable(s.log[s.stage.pos].kind);
    SendNext(s.out.sent, s.log, cfg.since);
  }

  lemma CatchUpOneKeepsStageInv(s: State, cfg: Config, base: nat)
    requires Inv(s, cfg, base) && Enabled(s, cfg, CatchUpOne)
    ensures StageInv(Do(s, cfg, CatchUpOne), cfg, base)
  {
    var s' := Do(s, cfg, CatchUpOne);
    assert Streamable(s.log[s.stage.pos].kind) && Streamable(s.stage.first.kind);
    SendNext(s.out.sent, s.log, cfg.since);
  }

  lemma TakeFirstKeepsInv(s: State, cfg: Config, base: nat)
    requires Inv(s, cfg, base) && Enabled(s, cfg, TakeFirst)
    ensures Inv(Do(s, cfg, TakeFirst), cfg, base)
  {
    FirstIsEvent(s);
  }

  lemma CatchUpKeepsInv(s: State, cfg: Config, base: nat, a: Action)
    requires Inv(s, cfg, base) && Enabled(s, cfg, a) && (a.BeginCatchUp? || a.CaughtUp? || a.EndCatchUp?)
    ensures Inv(Do(s, cfg, a), cfg, base)
  {
    FirstIsEvent(s);
    if a.CaughtUp? {
      assert Streamable(s.log[s.stage.pos].kind) && Streamable(s.stage.first.kind);
    }
  }

  lemma TakeLiveKeepsInv(s: State, cfg: Config, base: nat, a: Action)
    requires Inv(s, cfg, base) && Enabled(s, cfg, a) && (a.TakeLive? || a.StopOnDone? || a.StopOnClose?)
    ensures Inv(Do(s, cfg, a), cfg, base)
  {
  }

  /** What the goroutine holds in the live phase: the next log entry, or the frame that ends the stream. */
  lemma HeldItem(s: State, cfg: Config, base: nat)
    requires LogInv(s.log, s.pending, cfg, base) && SubInvOf(s) && StageInv(s, cfg, base) && s.stage.Holding?
    ensures var n := EventCount(s.sub.outgoing.sent);
            var at := cfg.since + |s.out.sent|;
            && !HasFrame(s.out.sent) && RunOf(s.out.sent, s.log, cfg.since)
            && (s.sub.outgoing.taken <= n ==>
                  at < |s.log| && s.stage.evt == s.log[at] && s.log[at].kind != ErrorFrame)
            && (s.sub.outgoing.taken > n ==> s.sub.outgoing.taken == n + 1 && s.stage.evt.kind == ErrorFrame)
  {
    var sent, k := s.sub.outgoing.sent, s.sub.outgoing.taken;
    if k <= EventCount(sent) {
      assert s.stage.evt == s.log[s.attachedAt + k - 1];
      assert Streamable(s.stage.evt.kind);
    }
  }

  lemma HeldSent(s: State, cfg: Config, base: nat)
    requires LogInv(s.log, s.pending, cfg, base) && SubInvOf(s) && StageInv(s, cfg, base) && s.stage.Holding?
    ensures var n, items := EventCount(s.sub.outgoing.sent), s.out.sent + [s.stage.evt];
            && RunOf(items, s.log, cfg.since) && s.sub.outgoing.taken <= n + 1
            && (HasFrame(items) <==> s.sub.outgoing.taken > n)
            && EventCount(items) == EventCount(s.out.sent) + if HasFrame(items) then 0 else 1
  {
    HeldItem(s, cfg, base);
    hide LogInv, SubInv, StageInv, RunOf;
    if s.sub.outgoing.taken <= EventCount(s.sub.outgoing.sent) {
      SendNext(s.out.sent, s.log, cfg.since);
    } else {
      FrameLast(s.out.sent, s.log, cfg.since, s.stage.evt);
    }
  }

  lemma FrameLast(items: seq<Event>, log: seq<Event>, from: int, e: Event)
    requires RunOf(items, log, from) && !HasFrame(items) && e.kind == ErrorFrame
    ensures RunOf(items + [e], log, from) && HasFrame(items + [e]) && EventCount(items + [e]) == |items|
  {
  }

  lemma SendLiveKeepsStageInv(s: State, cfg: Config, base: nat)
    requires Inv(s, cfg, base) && Enabled(s, cfg, SendLive)
    ensures StageInv(Do(s, cfg, SendLive), cfg, base)
  {
    SubValid(s, cfg, base);
    HeldSent(s, cfg, base);
    hide LogInv, SubInv, StageInv, RunOf, HasFrame, EventCount;
    LiveAfterSend(s, cfg, base, s.out.sent + [s.stage.evt]);
  }

  lemma LiveAfterSend(s: State, cfg: Config, base: nat, items: seq<Event>)
    requires s.sub.outgoing.Valid() && StageInv(s, cfg, base) && s.stage.Holding?
    requires RunOf(items, s.log, cfg.since)
    requires var n := EventCount(s.sub.outgoing.sent);
             && s.sub.outgoing.taken <= n + 1
             && (HasFrame(items) <==> s.sub.outgoing.taken > n)
             && EventCount(items) == EventCount(s.out.sent) + if HasFrame(items) then 0 else 1
    ensures StageInv(s.(out := Chan(items, s.out.taken), stage := Live), cfg, base)
  {
  }

  lemma StepKeepsInv(s: State, cfg: Config, base: nat, a: Action)
    requires Inv(s, cfg, base) && Enabled(s, cfg, a)
    ensures Inv(Do(s, cfg, a), cfg, base)
  {
    hide RunOf, LogOf, HasFrame, EventCount, DeliveredAfter, AllStreamable, Sequence, Streamable, LogInv, SubInv, StageInv;
    SubValid(s, cfg, base);
    match a {
      case Append(k, body) => AppendKeepsInv(s, cfg, base, k, body);
      case Broadcast => BroadcastKeepsSubInv(s, cfg, base); BroadcastKeepsStageInv(s, cfg, base);
      case SendFrame => SendFrameKeepsInv(s, cfg, base);
      case FrameTimeout | CloseDone | CloseOutgoing => CleanupKeepsInv(s, cfg, base, a);
      case Consume => ConsumeKeepsStageInv(s, cfg, base);
      case BeginReplay | EndReplay | AddSub => ReplayKeepsInv(s, cfg, base, a);
      case ReplayOne => ReplayOneKeepsStageInv(s, cfg, base);
      case CatchUpOne => CatchUpOneKeepsStageInv(s, cfg, base);
      case TakeFirst => TakeFirstKeepsInv(s, cfg, base);
      case BeginCatchUp | CaughtUp | EndCatchUp => CatchUpKeepsInv(s, cfg, base, a);
      case TakeLive | StopOnDone | StopOnClose => TakeLiveKeepsInv(s, cfg, base, a);
      case SendLive => SendLiveKeepsStageInv(s, cfg, base);
    }
  }

  lemma {:induction false} RunKeepsInv(s: State, cfg: Config, base: nat, acts: seq<Action>)
    requires Inv(s, cfg, base) && Legal(s, cfg, acts)
    ensures Inv(Run(s, cfg, acts), cfg, base)
    decreases |acts|
  {
    if acts != [] {
      StepKeepsInv(s, cfg, base, acts[0]);
      RunKeepsInv(Do(s, cfg, acts[0]), cfg, base, acts[1..]);
    }
  }

  /** Where every run starts: a log of any kinds, as long as the replayed part does not end in a label. */
  lemma InitInv(log: seq<Event>, cfg: Config)
    requires cfg.Valid() && AllStreamable(cfg.kinds) && Stamped(log) && cfg.since <= |log| + 1 && NoLabelAtEnd(log, cfg.since)
    ensures Inv(InitState(log, cfg.since), cfg, |log|)
  {
  }

  /**
   * In every interleaving, a cursor subscription is delivered since+1, since+2, ... in order,
   * without gap or duplicate, across both replays and the live phase.
   */
  lemma CursorDeliversLog(log: seq<Event>, cfg: Config, acts: seq<Action>)
    requires cfg.Valid() && AllStreamable(cfg.kinds) && Stamped(log)
    requires cfg.since <= |log| + 1 && NoLabelAtEnd(log, cfg.since)
    requires Legal(InitState(log, cfg.since), cfg, acts)
    ensures Contiguous(Run(InitState(log, cfg.since), cfg, acts), cfg.since)
  {
    InitInv(log, cfg);
    RunKeepsInv(InitState(log, cfg.since), cfg, |log|, acts);
  }

  // ----- when everything has been delivered -----

  /** Nothing is under way: only a further persist can happen. */
  ghost predicate Idle(s: State, cfg: Config) {
    forall a :: Enabled(s, cfg, a) ==> a.Append?
  }

  /** Everything logged after the cursor has been put into the consumer's channel. */
  predicate AllDelivered(s: State, cfg: Config) {
    cfg.since + EventCount(s.out.sent) >= |s.log|
  }

  /** All is consumed, and the subscription waits for a first live event, follows the log, or was stopped. */
  predicate Quiet(s: State)
    requires s.sub.outgoing.Valid() && s.out.Valid()
  {
    && !s.pending && s.out.Len() == 0
    && (s.stage.Await? || s.stage.Live? || s.stage.Stopped?)
    && (!s.stage.Stopped? ==> s.sub.accepting && s.sub.outgoing.Len() == 0)
  }

  /** In every other state something is under way. */
  lemma NextStep(s: State, cfg: Config, base: nat) returns (a: Action)
    requires Inv(s, cfg, base) && !Quiet(s)
    ensures Enabled(s, cfg, a) && !a.Append?
  {
    hide RunOf, Stamped, DeliveredAfter, HasFrame, Sequence;
    if s.pending { return Broadcast; }
    if s.out.Len() > 0 { return Consume; }
    match s.stage {
      case Start => a := BeginReplay;
      case Replay(pos, end) => a := if pos < end then ReplayOne else EndReplay;
      case Attach => a := AddSub;
      case Await => a := TakeFirst;
      case Reopen(_) => a := BeginCatchUp;
      case CatchUp(first, pos, end) =>
        a := if pos >= end then EndCatchUp else if Sequence(s.log[pos]) <= Sequence(first) then CatchUpOne else CaughtUp;
      case Live =>
        a := if s.sub.outgoing.Len() > 0 then TakeLive
             else match s.sub.eviction
               case SendingFrame => FrameTimeout
               case Cleaning => Action.CloseDone
               case DoneClosed => Action.CloseOutgoing
               case _ => StopOnClose;
      case Holding(_) => a := SendLive;
      case Stopped => a := Consume;
    }
  }

  lemma IdleIsQuiet(s: State, cfg: Config, base: nat)
    requires Inv(s, cfg, base) && Idle(s, cfg)
    ensures Quiet(s)
  {
    hide Enabled, LogInv, SubInv, StageInv, Idle, Quiet;
    SubValid(s, cfg, base);
    if !Quiet(s) {
      var a := NextStep(s, cfg, base);
      EnabledWhenIdle(s, cfg, a);
    }
  }

  lemma EnabledWhenIdle(s: State, cfg: Config, a: Action)
    requires Idle(s, cfg) && Enabled(s, cfg, a)
    ensures a.Append?
  {
    hide Enabled;
  }

  lemma SubValid(s: State, cfg: Config, base: nat)
    requires Inv(s, cfg, base)
    ensures s.sub.outgoing.Valid() && s.out.Valid()
  {
  }

  /**
   * In an idle state everything logged has been delivered exactly when the subscription is live,
   * or it waits for its first live event and nothing was broadcast between the end of its first
   * replay (at lastSeq) and its registration.
   */
  lemma IdleDelivered(log: seq<Event>, cfg: Config, acts: seq<Action>)
    requires cfg.Valid() && AllStreamable(cfg.kinds) && Stamped(log)
    requires cfg.since <= |log| + 1 && NoLabelAtEnd(log, cfg.since)
    requires Legal(InitState(log, cfg.since), cfg, acts) && Idle(Run(InitState(log, cfg.since), cfg, acts), cfg)
    ensures var s := Run(InitState(log, cfg.since), cfg, acts);
            AllDelivered(s, cfg) <==> s.stage.Live? || (s.stage.Await? && s.attachedAt <= s.lastSeq)
  {
    InitInv(log, cfg);
    RunKeepsInv(InitState(log, cfg.since), cfg, |log|, acts);
    hide Inv, Idle, Run, Legal, AllDelivered;
    IdleIsQuiet(Run(InitState(log, cfg.since), cfg, acts), cfg, |log|);
    QuietDelivered(Run(InitState(log, cfg.since), cfg, acts), cfg, |log|);
  }

  lemma QuietDelivered(s: State, cfg: Config, base: nat)
    requires Inv(s, cfg, base) && Quiet(s)
    ensures AllDelivered(s, cfg) <==> s.stage.Live? || (s.stage.Await? && s.attachedAt <= s.lastSeq)
  {
    hide RunOf, Stamped;
  }

  /**
   * An event broadcast in that gap is withheld: the subscription starts at the end of the log,
   * has registered, and waits, with nothing left to happen but a further persist.
   */
  lemma EventWithheld(log: seq<Event>, cfg: Config, k: Kind) returns (acts: seq<Action>)
    requires cfg.Valid() && k in cfg.kinds && Streamable(k) && cfg.since == |log|
    ensures var s0 := InitState(log, cfg.since);
            && acts == [BeginReplay, Append(k, 0), Broadcast, AddSub] && Legal(s0, cfg, acts)
            && Idle(Run(s0, cfg, acts), cfg) && Run(s0, cfg, acts).sub.accepting
            && Run(s0, cfg, acts).log == log + [Event(k, |log| + 1, 0)] && Run(s0, cfg, acts).out.sent == []
  {
    var s0 := InitState(log, cfg.since);
    var s := s0;
    acts := [];
    acts, s := Then(s0, cfg, acts, BeginReplay);
    acts, s := Then(s0, cfg, acts, Append(k, 0));
    acts, s := Then(s0, cfg, acts, Broadcast);
    acts, s := Then(s0, cfg, acts, AddSub);
    assert s == State(log + [Event(k, |log| + 1, 0)], false, true, |log| + 1, NEW_SUB, Chan([], 0), Await, cfg.since);
    hide Run, Legal, Do;
    assert Idle(s, cfg);
  }

  // ----- exactly when the stream is contiguous -----

  ghost predicate AlwaysContiguous(log: seq<Event>, cfg: Config) {
    forall acts :: Legal(InitState(log, cfg.since), cfg, acts) ==>
      Contiguous(Run(InitState(log, cfg.since), cfg, acts), cfg.since)
  }

  lemma {:induction false} RunSnoc(s: State, cfg: Config, acts: seq<Action>, a: Action)
    requires Legal(s, cfg, acts) && Enabled(Run(s, cfg, acts), cfg, a)
    ensures Legal(s, cfg, acts + [a]) && Run(s, cfg, acts + [a]) == Do(Run(s, cfg, acts), cfg, a)
    decreases |acts|
  {
    if acts == [] {
      assert acts + [a] == [a];
    } else {
      assert (acts + [a])[0] == acts[0] && (acts + [a])[1..] == acts[1..] + [a];
      RunSnoc(Do(s, cfg, acts[0]), cfg, acts[1..], a);
    }
  }

  lemma Then(s0: State, cfg: Config, acts: seq<Action>, a: Action) returns (acts': seq<Action>, s': State)
    requires Legal(s0, cfg, acts) && Enabled(Run(s0, cfg, acts), cfg, a)
    ensures Legal(s0, cfg, acts') && s' == Run(s0, cfg, acts') == Do(Run(s0, cfg, acts), cfg, a) && acts' == acts + [a]
  {
    RunSnoc(s0, cfg, acts, a);
    acts' := acts + [a];
    s' := Run(s0, cfg, acts');
  }

  /** A cursor two or more past the end: the first new event is swallowed and a wrong one delivered. */
  lemma CursorTooFar(log: seq<Event>, cfg: Config, k: Kind) returns (acts: seq<Action>)
    requires cfg.Valid() && k in cfg.kinds && Streamable(k) && cfg.since > |log| + 1
    ensures var s0 := InitState(log, cfg.since);
            Legal(s0, cfg, acts) && !Contiguous(Run(s0, cfg, acts), cfg.since)
  {
    var s0 := InitState(log, cfg.since);
    var s := s0;
    acts := [];
    acts, s := Then(s0, cfg, acts, BeginReplay);
    acts, s := Then(s0, cfg, acts, AddSub);
    acts, s := Then(s0, cfg, acts, Append(k, 0));
    acts, s := Then(s0, cfg, acts, Broadcast);
    assert s.sub.outgoing.sent == [Event(k, |log| + 1, 0)];
    acts, s := Then(s0, cfg, acts, TakeFirst);
    acts, s := Then(s0, cfg, acts, BeginCatchUp);
    assert s.stage == Live;
    acts, s := Then(s0, cfg, acts, Append(k, 0));
    acts, s := Then(s0, cfg, acts, Broadcast);
    assert s.sub.outgoing == Chan([Event(k, |log| + 1, 0), Event(k, |log| + 2, 0)], 1);
    acts, s := Then(s0, cfg, acts, TakeLive);
    acts, s := Then(s0, cfg, acts, SendLive);
    assert s.out.sent == [Event(k, |log| + 2, 0)];
  }

  /** For streamable events the cursor may be at most one past the end of the log, and no more is needed. */
  lemma CursorExact(log: seq<Event>, cfg: Config)
    requires cfg.Valid() && AllStreamable(cfg.kinds) && cfg.kinds != {} && LogOf(log, cfg.kinds)
    ensures AlwaysContiguous(log, cfg) <==> cfg.since <= |log| + 1
  {
    if cfg.since <= |log| + 1 {
      forall acts | Legal(InitState(log, cfg.since), cfg, acts)
        ensures Contiguous(Run(InitState(log, cfg.since), cfg, acts), cfg.since)
      {
        CursorDeliversLog(log, cfg, acts);
      }
    } else {
      var k :| k in cfg.kinds;
      var acts := CursorTooFar(log, cfg, k);
    }
  }

  // ----- with labels in the log -----

  /** The first replay sends one event, which is consumed at once. */
  lemma ReplayNext(s0: State, cfg: Config, acts: seq<Action>) returns (acts': seq<Action>, s': State)
    requires Legal(s0, cfg, acts) && cfg.Valid()
    requires var s := Run(s0, cfg, acts);
             s.stage.Replay? && s.stage.pos < s.stage.end <= |s.log| && s.out.taken == |s.out.sent|
    ensures Legal(s0, cfg, acts') && s' == Run(s0, cfg, acts')
    ensures var s, e := Run(s0, cfg, acts), Run(s0, cfg, acts).log[Run(s0, cfg, acts).stage.pos];
            s' == s.(out := Chan(s.out.sent + [e], |s.out.sent| + 1), stage := Replay(s.stage.pos + 1, s.stage.end),
                     lastSeq := if Sequence(e) > 0 then Sequence(e) else s.lastSeq)
  {
    acts', s' := Then(s0, cfg, acts, ReplayOne);
    acts', s' := Then(s0, cfg, acts', Consume);
  }

  /** The sequence number reached when log[from..] has been replayed after cur. */
  function SeqAfter(log: seq<Event>, from: nat, cur: int): int
    decreases |log| - from
  {
    if from >= |log| then cur else SeqAfter(log, from + 1, if Sequence(log[from]) > 0 then Sequence(log[from]) else cur)
  }

  lemma {:induction false} SeqAfterEnds(log: seq<Event>, from: nat, cur: int)
    requires Stamped(log) && from < |log| && 0 <= cur <= from
    ensures 0 <= SeqAfter(log, from, cur) <= |log|
    ensures SeqAfter(log, from, cur) < |log| <==> log[|log| - 1].kind == Labels
    decreases |log| - from
  {
    if from + 1 < |log| {
      SeqAfterEnds(log, from + 1, if Sequence(log[from]) > 0 then Sequence(log[from]) else cur);
    }
  }

  lemma {:induction false} ReplayRest(s0: State, cfg: Config, acts: seq<Action>) returns (acts': seq<Action>, s': State)
    requires Legal(s0, cfg, acts) && cfg.Valid()
    requires var s := Run(s0, cfg, acts); s.stage.Replay? && s.stage.pos <= s.stage.end == |s.log| && s.out.taken == |s.out.sent|
    ensures Legal(s0, cfg, acts') && s' == Run(s0, cfg, acts')
    ensures var s := Run(s0, cfg, acts);
            var out := s.out.sent + s.log[s.stage.pos..];
            s' == s.(out := Chan(out, |out|), stage := Attach, lastSeq := SeqAfter(s.log, s.stage.pos, s.lastSeq))
    decreases |Run(s0, cfg, acts).log| - Run(s0, cfg, acts).stage.pos
  {
    var s := Run(s0, cfg, acts);
    if s.stage.pos == s.stage.end {
      acts', s' := Then(s0, cfg, acts, EndReplay);
      assert s.out.sent + [] == s.out.sent;
    } else {
      acts', s' := ReplayNext(s0, cfg, acts);
      OneLess(s.out.sent, s.log, s.stage.pos);
      hide Run, Legal, Sequence;
      acts', s' := ReplayRest(s0, cfg, acts');
    }
  }

  lemma OneLess(items: seq<Event>, log: seq<Event>, pos: nat)
    requires pos < |log|
    ensures (items + [log[pos]]) + log[pos + 1..] == items + log[pos..]
  {
  }

  /** From any log the subscription can get to wait, everything replayed and consumed. */
  lemma ToAwait(log: seq<Event>, cfg: Config) returns (acts: seq<Action>, s: State)
    requires cfg.Valid() && Stamped(log)
    ensures Legal(InitState(log, cfg.since), cfg, acts) && s == Run(InitState(log, cfg.since), cfg, acts)
    ensures s.log == log && !s.pending && s.attached && s.attachedAt == |log| && s.sub == NEW_SUB && s.stage == Await
    ensures s.out.sent == (if cfg.since < |log| then log[cfg.since..] else []) && s.out.taken == |s.out.sent|
    ensures cfg.since >= |log| ==> s.lastSeq == cfg.since
    ensures cfg.since < |log| ==> 0 <= s.lastSeq <= |log| && (s.lastSeq < |log| <==> log[|log| - 1].kind == Labels)
  {
    var s0 := InitState(log, cfg.since);
    acts := [];
    acts, s := Then(s0, cfg, acts, BeginReplay);
    if cfg.since < |log| {
      acts, s := ReplayRest(s0, cfg, acts);
      SeqAfterEnds(log, cfg.since, cfg.since);
    }
    acts, s := Then(s0, cfg, acts, AddSub);
  }

  /** Waiting, a streamable event is persisted and broadcast; the second replay begins. */
  lemma ToReplay(s0: State, cfg: Config, acts: seq<Action>, k: Kind) returns (acts': seq<Action>, s': State)
    requires Legal(s0, cfg, acts) && cfg.Valid() && k in cfg.kinds && Streamable(k)
    requires var s := Run(s0, cfg, acts); s.stage == Await && s.sub == NEW_SUB && s.attached && !s.pending && s.lastSeq >= 0
    ensures Legal(s0, cfg, acts') && s' == Run(s0, cfg, acts')
    ensures var s, e := Run(s0, cfg, acts), Event(k, |Run(s0, cfg, acts).log| + 1, 0);
            && s'.log == s.log + [e] && !s'.pending && s'.attached && s'.out == s.out && s'.lastSeq == s.lastSeq
            && s'.sub == NEW_SUB.(outgoing := Chan([e], 1))
            && s'.stage == if s.lastSeq >= |s.log| + 1 then Live else CatchUp(e, s.lastSeq, |s.log| + 1)
  {
    acts', s' := Then(s0, cfg, acts, Append(k, 0));
    acts', s' := Then(s0, cfg, acts', Broadcast);
    acts', s' := Then(s0, cfg, acts', TakeFirst);
    acts', s' := Then(s0, cfg, acts', BeginCatchUp);
  }

  /** A label has no sequence number, so when the first replay ends in one the second delivers it again. */
  lemma LabelDuplicated(log: seq<Event>, cfg: Config, k: Kind) returns (acts: seq<Action>)
    requires cfg.Valid() && Stamped(log) && !NoLabelAtEnd(log, cfg.since) && k in cfg.kinds && Streamable(k)
    ensures var s0 := InitState(log, cfg.since);
            Legal(s0, cfg, acts) && !Contiguous(Run(s0, cfg, acts), cfg.since)
  {
    var s0 := InitState(log, cfg.since);
    var s;
    acts, s := ToAwait(log, cfg);
    var at := s.lastSeq;
    acts, s := ToReplay(s0, cfg, acts, k);
    assert s.log[at] == log[at] && s.log[|log|].kind == k;
    ghost var before := s.out.sent;
    acts, s := Then(s0, cfg, acts, CatchUpOne);
    assert s.out.sent == before + [log[at]] && cfg.since + |before| == |log|;
    assert s.out.sent[|before|] != s.log[|log|];
    assert EventCount(s.out.sent) == |before| + 1;
  }

  /** The second replay sends the one event there is, and the subscription is live. */
  lemma ToLive(s0: State, cfg: Config, acts: seq<Action>) returns (acts': seq<Action>, s': State)
    requires Legal(s0, cfg, acts) && cfg.Valid()
    requires var s := Run(s0, cfg, acts);
             s.stage.CatchUp? && s.stage.pos + 1 == s.stage.end == |s.log| && s.stage.first == s.log[s.stage.pos] && s.out.taken == |s.out.sent|
    ensures Legal(s0, cfg, acts') && s' == Run(s0, cfg, acts')
    ensures var s := Run(s0, cfg, acts);
            s' == s.(out := Chan(s.out.sent + [s.stage.first], |s.out.sent| + 1), stage := Live)
  {
    acts', s' := Then(s0, cfg, acts, CatchUpOne);
    acts', s' := Then(s0, cfg, acts', Consume);
    acts', s' := Then(s0, cfg, acts', EndCatchUp);
  }

  /** A live subscription is sent the next streamable event, whatever label was persisted before it. */
  lemma LabelPassedOver(s0: State, cfg: Config, acts: seq<Action>, k: Kind) returns (acts': seq<Action>, s': State)
    requires Legal(s0, cfg, acts) && cfg.Valid() && Labels in cfg.kinds && k in cfg.kinds && Streamable(k)
    requires var s := Run(s0, cfg, acts);
             && s.stage == Live && !s.pending && s.attached && s.out.taken == |s.out.sent|
             && s.sub.accepting && s.sub.outgoing.taken == |s.sub.outgoing.sent|
    ensures Legal(s0, cfg, acts') && s' == Run(s0, cfg, acts')
    ensures var s := Run(s0, cfg, acts);
            var label', e := Event(Labels, |s.log| + 1, 0), Event(k, |s.log| + 2, 0);
            s'.log == s.log + [label', e] && s'.out.sent == s.out.sent + [e]
  {
    acts', s' := Then(s0, cfg, acts, Append(Labels, 0));
    acts', s' := Then(s0, cfg, acts', Broadcast);
    acts', s' := Then(s0, cfg, acts', Append(k, 0));
    acts', s' := Then(s0, cfg, acts', Broadcast);
    acts', s' := Then(s0, cfg, acts', TakeLive);
    acts', s' := Then(s0, cfg, acts', SendLive);
  }

  /** A label persisted while the subscription is live never reaches it; the next event does. */
  lemma LabelSkipped(log: seq<Event>, cfg: Config, k: Kind) returns (acts: seq<Action>)
    requires cfg.Valid() && Stamped(log) && NoLabelAtEnd(log, cfg.since) && cfg.since <= |log| + 1
    requires Labels in cfg.kinds && k in cfg.kinds && Streamable(k)
    ensures var s0 := InitState(log, cfg.since);
            Legal(s0, cfg, acts) && !Contiguous(Run(s0, cfg, acts), cfg.since)
  {
    var s0 := InitState(log, cfg.since);
    var s;
    acts, s := ToAwait(log, cfg);
    acts, s := ToReplay(s0, cfg, acts, k);
    hide Run, Legal, Do, Enabled;
    var n := |log|;
    if s.stage.CatchUp? {
      acts, s := ToLive(s0, cfg, acts);
    }
    ghost var before := s.out.sent;
    acts, s := LabelPassedOver(s0, cfg, acts, k);
    assert s.log[n + 1] == Event(Labels, n + 2, 0) && cfg.since + |before| == n + 1;
    assert EventCount(s.out.sent) == |before| + 1 && s.out.sent[|before|] != s.log[n + 1];
  }

  /** When nothing but labels is persisted any more, nothing is broadcast and the goroutine stays at Await. */
  predicate LabelsOnlyInv(s: State, cfg: Config, base: nat) {
    && cfg.Valid() && cfg.kinds <= {Labels}
    && Stamped(s.log) && base <= |s.log| && (s.pending ==> |s.log| > base)
    && (forall i :: base <= i < |s.log| ==> s.log[i].kind == Labels)
    && s.sub == NEW_SUB && s.out.Valid() && !HasFrame(s.out.sent) && RunOf(s.out.sent, s.log, cfg.since)
    && match s.stage
       case Start => s.out.sent == []
       case Replay(pos, end) => pos == cfg.since + |s.out.sent| <= end <= |s.log|
       case Attach | Await => true
       case _ => false
  }

  lemma LabelsOnlyStep(s: State, cfg: Config, base: nat, a: Action)
    requires LabelsOnlyInv(s, cfg, base) && Enabled(s, cfg, a)
    ensures LabelsOnlyInv(Do(s, cfg, a), cfg, base)
  {
    var s' := Do(s, cfg, a);
    match a {
      case ReplayOne => SendNext(s.out.sent, s.log, cfg.since);
      case Append(k, _) => assert k == Labels;
      case _ =>
    }
  }

  lemma {:induction false} LabelsOnlyRun(s: State, cfg: Config, base: nat, acts: seq<Action>)
    requires LabelsOnlyInv(s, cfg, base) && Legal(s, cfg, acts)
    ensures LabelsOnlyInv(Run(s, cfg, acts), cfg, base)
    decreases |acts|
  {
    if acts != [] {
      LabelsOnlyStep(s, cfg, base, acts[0]);
      LabelsOnlyRun(Do(s, cfg, acts[0]), cfg, base, acts[1..]);
    }
  }

  /**
   * From any log and cursor: the stream is contiguous in every run exactly when nothing but labels
   * is persisted from then on, or no labels are, the cursor is at most one past the end, and the
   * part of the log after it does not end in a label. Labels elsewhere in the log do no harm.
   */
  lemma KindsExact(log: seq<Event>, cfg: Config)
    requires cfg.Valid() && Stamped(log)
    ensures AlwaysContiguous(log, cfg) <==>
              (cfg.kinds <= {Labels} || (Labels !in cfg.kinds && cfg.since <= |log| + 1 && NoLabelAtEnd(log, cfg.since)))
  {
    if cfg.kinds <= {Labels} {
      forall acts | Legal(InitState(log, cfg.since), cfg, acts)
        ensures Contiguous(Run(InitState(log, cfg.since), cfg, acts), cfg.since)
      {
        LabelsOnlyRun(InitState(log, cfg.since), cfg, |log|, acts);
      }
    } else {
      var k :| k in cfg.kinds && k != Labels;
      if cfg.since > |log| + 1 {
        var acts := CursorTooFar(log, cfg, k);
      } else if !NoLabelAtEnd(log, cfg.since) {
        var acts := LabelDuplicated(log, cfg, k);
      } else if Labels in cfg.kinds {
        var acts := LabelSkipped(log, cfg, k);
      } else {
        forall acts | Legal(InitState(log, cfg.since), cfg, acts)
          ensures Contiguous(Run(InitState(log, cfg.since), cfg, acts), cfg.since)
        {
          CursorDeliversLog(log, cfg, acts);
        }
      }
    }
  }
}
