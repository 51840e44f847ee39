/** The reactor (test_epoll/lib/event_loop.c): any number of threads queue requests on an event loop
    and wake it through a socket pair, while its owner thread polls, runs callbacks and drains the
    queue. Every step between two accesses of the mutex or of the socket pair is a step of its own,
    so runs are all interleavings. */
module Reactor {
  import opened Wrappers
  import opened Counting
  import opened EventTable

  /** A channel: its descriptor never changes, its events do. */
  datatype Chan = Chan(id: nat, fd: int)

  datatype Ask = Ask(kind: Kind, channel: Chan)

  /** A thread that calls `event_loop_do_channel_event` from outside: it waits for the lock, holds
      it with its request queued, is about to write the wake-up byte. */
  datatype Producer = Idle | Wants(ask: Ask) | Holding | Waking

  /** The owner thread: about to call `poll`, in the callbacks that `poll` led to, queuing a request
      of a callback, waiting for the lock to drain, draining. `nested` tells a drain within a
      callback (line 64) from the one after the callbacks (line 259). */
  datatype Owner =
    | AtPoll
    | Dispatching
    | WantsOwn(ask: Ask)
    | HoldsOwn
    | WantsDrain(nested: bool)
    | Draining(nested: bool)

  datatype Holder = Nobody | TheProducer(producer: nat) | TheOwner

  /** `mayRead`: `poll` has reported the wake-up channel and its callback is still to come.
      `hasRead`: a wake-up byte was read since the last drain. `faulted`: a request did not meet
      the demands of the code. */
  datatype State = State(
    producers: seq<Producer>,
    owner: Owner,
    holder: Holder,
    isHandlePending: bool,
    pending: seq<Ask>,
    cursor: nat,
    wakeBytes: nat,
    mayRead: bool,
    hasRead: bool,
    wake: Chan,
    events: map<Chan, bv32>,
    table: Table<Chan>,
    faulted: bool,
    enqueued: seq<Ask>,
    applied: seq<Ask>
  )

  datatype Action =
    | Call(p: nat, ask: Ask, events: bv32)
    | Enqueue(p: nat)
    | Unlock(p: nat)
    | Wake(p: nat)
    | Poll
    | ReadByte
    | OwnCall(ask: Ask, events: bv32)
    | OwnEnqueue
    | OwnUnlock
    | EndDispatch
    | StartDrain
    | DrainOne
    | EndDrain

  /** The wake-up channel is reported: a byte is there and the channel is watched for reading. */
  predicate Ready(s: State) {
    s.wakeBytes > 0 && WatchedForReading(s.table.slots, s.wake.fd)
  }

  /** A request can be about any channel the caller knows, which the wake-up channel is not. */
  predicate MayAsk(s: State, ask: Ask) {
    ask.channel != s.wake && (ask.kind == Add || ask.channel in s.events)
  }

  predicate Enabled(s: State, a: Action) {
    match a
    case Call(p, ask, _) => p < |s.producers| && s.producers[p] == Idle && MayAsk(s, ask)
    case Enqueue(p) => p < |s.producers| && s.producers[p].Wants? && s.holder == Nobody
    case Unlock(p) => p < |s.producers| && s.producers[p] == Holding
    case Wake(p) => p < |s.producers| && s.producers[p] == Waking
    case Poll => s.owner == AtPoll
    case ReadByte => s.owner == Dispatching && s.mayRead && s.wakeBytes > 0
    case OwnCall(ask, _) => s.owner == Dispatching && MayAsk(s, ask)
    case OwnEnqueue => s.owner.WantsOwn? && s.holder == Nobody
    case OwnUnlock => s.owner == HoldsOwn
    case EndDispatch => s.owner == Dispatching && !s.mayRead
    case StartDrain => s.owner.WantsDrain? && s.holder == Nobody
    case DrainOne => s.owner.Draining? && s.cursor < |s.pending|
    case EndDrain => s.owner.Draining? && s.cursor >= |s.pending|
  }

  /** The events of the channel when the request is made: a new channel gets its first, an update
      follows a change (channel.c lines 20-30). */
  function EventsWith(s: State, ask: Ask, events: bv32): map<Chan, bv32> {
    if ask.kind == Update || ask.channel !in s.events then s.events[ask.channel := events] else s.events
  }

  /** The request with the mask of its channel's events now. */
  function RequestNow(s: State, ask: Ask): Request<Chan> {
    Request(ask.kind, ask.channel.fd, ask.channel,
            Translate(if ask.channel in s.events then s.events[ask.channel] else 0))
  }

  function Apply(s: State, a: Action): State
    requires Enabled(s, a)
  {
    match a
    case Call(p, ask, events) => s.(producers := s.producers[p := Wants(ask)], events := EventsWith(s, ask, events))
    case Enqueue(p) =>
      var ask := s.producers[p].ask;
      s.(producers := s.producers[p := Holding], holder := TheProducer(p),
         pending := s.pending + [ask], enqueued := s.enqueued + [ask])
    case Unlock(p) => s.(producers := s.producers[p := Waking], holder := Nobody)
    case Wake(p) => s.(producers := s.producers[p := Idle], wakeBytes := s.wakeBytes + 1)
    case Poll => s.(owner := Dispatching, mayRead := Ready(s))
    case ReadByte => s.(wakeBytes := s.wakeBytes - 1, mayRead := false, hasRead := true)
    case OwnCall(ask, events) => s.(owner := WantsOwn(ask), events := EventsWith(s, ask, events))
    case OwnEnqueue =>
      s.(owner := HoldsOwn, holder := TheOwner, pending := s.pending + [s.owner.ask], enqueued := s.enqueued
            + [s.owner.ask])
    case OwnUnlock => s.(owner := WantsDrain(true), holder := Nobody)
    case EndDispatch => s.(owner := WantsDrain(false))
    case StartDrain => s.(owner := Draining(s.owner.nested), holder := TheOwner, isHandlePending := true, cursor := 0)
    case DrainOne => Carried(s)
    case EndDrain =>
      s.(owner := if s.owner.nested then Dispatching else AtPoll, holder := Nobody, isHandlePending := false,
         pending := [], cursor := 0, hasRead := false)
  }

  /** One element of the list is carried out. */
  function Carried(s: State): State
    requires s.cursor < |s.pending|
  {
    var ask := s.pending[s.cursor];
    var r := RequestNow(s, ask);
    s.(cursor := s.cursor + 1, applied := s.applied + [ask],
       table := if Demands(s.table, r) then EventTable.Apply(s.table, r) else s.table,
       faulted := s.faulted || !Demands(s.table, r))
  }

  /** The loop as `event_loop_init` leaves it: its own thread has registered the wake-up channel. */
  function Initial(producers: nat, wake: Chan): State
    requires 0 <= wake.fd < MAP_LIMIT
  {
    var add := Request(Add, wake.fd, wake, Translate(EVENT_READ));
    State(seq(producers, _ => Idle), AtPoll, Nobody, false, [], 0, 0, false, false, wake, map[wake := EVENT_READ],
          EventTable.Apply(NewTable(), add), false, [Ask(Add, wake)], [Ask(Add, wake)])
  }

  /** The state after a run, if every step of it is possible. */
  function After(s: State, run: seq<Action>): Option<State> {
    if run == [] then
      Some(s)
    else
      var before := After(s, run[..|run| - 1]);
      var last := run[|run| - 1];
      if before.Some? && Enabled(before.value, last) then Some(Apply(before.value, last)) else None
  }

  /** What a step does to the requests, the queue and the events, field by field. */
  lemma Fields(s: State, a: Action)
    requires Enabled(s, a)
    ensures Apply(s, a).wake == s.wake
    ensures Apply(s, a).enqueued ==
            match a
            case Enqueue(p) => s.enqueued + [s.producers[p].ask]
            case OwnEnqueue => s.enqueued + [s.owner.ask]
            case _ => s.enqueued
    ensures Apply(s, a).pending ==
            match a
            case Enqueue(p) => s.pending + [s.producers[p].ask]
            case OwnEnqueue => s.pending + [s.owner.ask]
            case EndDrain => []
            case _ => s.pending
    ensures Apply(s, a).cursor ==
            match a
            case StartDrain => 0
            case DrainOne => s.cursor + 1
            case EndDrain => 0
            case _ => s.cursor
    ensures Apply(s, a).events ==
            match a
            case Call(p, ask, events) => EventsWith(s, ask, events)
            case OwnCall(ask, events) => EventsWith(s, ask, events)
            case _ => s.events
  {
    hide Ready, Carried, EventsWith, MayAsk;
    if a.DrainOne? {
      CarriedFields(s);
    }
  }

  lemma CarriedFields(s: State)
    requires s.cursor < |s.pending|
    ensures var s' := Carried(s);
            && s' == s.(cursor := s.cursor + 1, applied := s'.applied, table := s'.table, faulted := s'.faulted)
            && s'.applied == s.applied + [s.pending[s.cursor]]
  {
    hide RequestNow, EventTable.Apply, Demands;
  }

  // ---------- the lock, the order, the wake-up bytes ----------

  ghost predicate LockInv(s: State) {
    && (forall p :: 0 <= p < |s.producers| ==> (s.producers[p] == Holding <==> s.holder == TheProducer(p)))
    && (s.holder.TheProducer? ==> s.holder.producer < |s.producers|)
    && (s.owner == HoldsOwn || s.owner.Draining? <==> s.holder == TheOwner)
    && (s.isHandlePending <==> s.owner.Draining?)
    && s.cursor <= |s.pending|
    && (!s.owner.Draining? ==> s.cursor == 0)
  }

  /** Every request is carried out once, in the order in which the lock was taken to queue it. */
  ghost predicate OrderInv(s: State) {
    s.cursor <= |s.pending| && s.applied + s.pending[s.cursor..] == s.enqueued
  }

  /** A queued request whose wake-up byte is still to come. */
  predicate WillWake(p: Producer) {
    p == Holding || p == Waking
  }

  /** A request of a callback is in the queue. */
  predicate OwnQueued(owner: Owner) {
    owner == HoldsOwn || owner == WantsDrain(true) || owner == Draining(true)
  }

  ghost predicate WakeInv(s: State) {
    && |s.pending| <= s.wakeBytes + Count(s.producers, WillWake)
                      + (if s.hasRead then 1 else 0) + (if OwnQueued(s.owner) then 1 else 0)
    && (s.mayRead ==> s.wakeBytes > 0 && !s.hasRead)
    && (s.mayRead ==> s.owner != AtPoll && s.owner != WantsDrain(false) && s.owner != Draining(false))
    && (s.owner == AtPoll ==> !s.hasRead)
  }

  predicate IsProducerStep(a: Action) {
    a.Call? || a.Enqueue? || a.Unlock? || a.Wake?
  }

  lemma ProducerStepKeepsLock(s: State, a: Action)
    requires LockInv(s) && Enabled(s, a) && IsProducerStep(a)
    ensures LockInv(Apply(s, a))
  {
    hide Ready, EventsWith, MayAsk, Carried;
  }

  lemma OwnerStepKeepsLock(s: State, a: Action)
    requires LockInv(s) && Enabled(s, a) && !IsProducerStep(a) && !a.DrainOne?
    ensures LockInv(Apply(s, a))
  {
    hide Ready, EventsWith, MayAsk, Carried;
  }

  lemma StepKeepsLock(s: State, a: Action)
    requires LockInv(s) && Enabled(s, a)
    ensures LockInv(Apply(s, a))
  {
    if IsProducerStep(a) {
      hide LockInv, Apply, Enabled;
      ProducerStepKeepsLock(s, a);
    } else if a.DrainOne? {
      hide Carried;
      CarriedFields(s);
    } else {
      hide LockInv, Apply, Enabled;
      OwnerStepKeepsLock(s, a);
    }
  }

  lemma StepKeepsOrder(s: State, a: Action)
    requires LockInv(s) && OrderInv(s) && Enabled(s, a)
    ensures OrderInv(Apply(s, a))
  {
    hide Ready, EventsWith, RequestNow, MayAsk, EventTable.Apply, Demands;
    if a.DrainOne? {
      NextTaken(s.applied, s.pending, s.cursor);
    } else if a.Enqueue? {
      OneMoreQueued(s.applied, s.pending, s.cursor, s.producers[a.p].ask);
    } else if a.OwnEnqueue? {
      OneMoreQueued(s.applied, s.pending, s.cursor, s.owner.ask);
    }
  }

  lemma NextTaken(applied: seq<Ask>, pending: seq<Ask>, cursor: nat)
    requires cursor < |pending|
    ensures applied + [pending[cursor]] + pending[cursor + 1..] == applied + pending[cursor..]
  {
  }

  lemma OneMoreQueued(applied: seq<Ask>, pending: seq<Ask>, cursor: nat, ask: Ask)
    requires cursor <= |pending|
    ensures applied + (pending + [ask])[cursor..] == applied + pending[cursor..] + [ask]
  {
  }

  lemma ProducerStepKeepsWake(s: State, a: Action)
    requires LockInv(s) && WakeInv(s) && Enabled(s, a) && IsProducerStep(a)
    ensures WakeInv(Apply(s, a))
  {
    hide EventsWith, RequestNow, MayAsk, EventTable.Apply, Demands, WatchedForReading, Count;
    match a {
      case Call(p, ask, _) => CountUpdate(s.producers, p, Wants(ask), WillWake);
      case Enqueue(p) => CountUpdate(s.producers, p, Holding, WillWake);
      case Unlock(p) => CountUpdate(s.producers, p, Waking, WillWake);
      case Wake(p) => CountUpdate(s.producers, p, Idle, WillWake);
      case _ =>
    }
  }

  lemma StepKeepsWake(s: State, a: Action)
    requires LockInv(s) && WakeInv(s) && Enabled(s, a)
    ensures WakeInv(Apply(s, a))
  {
    hide EventsWith, RequestNow, MayAsk, EventTable.Apply, Demands, WatchedForReading, Count;
    if IsProducerStep(a) {
      hide WakeInv, LockInv, Apply, Enabled;
      ProducerStepKeepsWake(s, a);
    }
  }

  // ---------- the map and the poller ----------

  function AsRequest(ask: Ask): Request<Chan> {
    Request(ask.kind, ask.channel.fd, ask.channel, 0)
  }

  /** The channels registered once the requests have been carried out in this order. */
  function Registry(asks: seq<Ask>): map<int, Chan> {
    if asks == [] then map[] else Noted(Registry(asks[..|asks| - 1]), AsRequest(asks[|asks| - 1]))
  }

  /** The callers play by the rules: in the order of the queue, a new descriptor comes while fewer
      than 1024 are registered, and the other requests are about registered channels. */
  ghost predicate AllLegal(asks: seq<Ask>) {
    asks == [] ||
    (AllLegal(asks[..|asks| - 1]) && Legal(Registry(asks[..|asks| - 1]), AsRequest(asks[|asks| - 1])))
  }

  lemma {:induction false} LegalPrefix(asks: seq<Ask>, k: nat)
    requires AllLegal(asks) && k <= |asks|
    ensures AllLegal(asks[..k])
  {
    if k < |asks| {
      assert asks[..|asks| - 1][..k] == asks[..k];
      LegalPrefix(asks[..|asks| - 1], k);
    } else {
      assert asks[..k] == asks;
    }
  }

  lemma {:induction false} RegistryIsAdded(asks: seq<Ask>, fd: int)
    requires fd in Registry(asks)
    ensures Registry(asks)[fd].fd == fd && exists i :: 0 <= i < |asks| && asks[i] == Ask(Add, Registry(asks)[fd])
  {
    var n := |asks| - 1;
    if asks[n].kind == Add && asks[n].channel.fd == fd {
      assert asks[n] == Ask(Add, Registry(asks)[fd]);
    } else {
      RegistryIsAdded(asks[..n], fd);
      var i :| 0 <= i < n && asks[..n][i] == Ask(Add, Registry(asks[..n])[fd]);
      assert asks[i] == Ask(Add, Registry(asks)[fd]);
    }
  }

  /** The wake-up channel stays registered: no other thread has a hold of it. */
  lemma {:induction false} WakeStays(asks: seq<Ask>, wake: Chan)
    requires AllLegal(asks) && asks != [] && asks[0] == Ask(Add, wake)
    requires forall i :: 0 < i < |asks| ==> asks[i].channel != wake
    ensures wake.fd in Registry(asks) && Registry(asks)[wake.fd] == wake
  {
    var n := |asks| - 1;
    if n > 0 {
      WakeStays(asks[..n], wake);
    }
  }

  /** Requests carried out never broke a demand of the code, and the map and the slots hold what the
      requests carried out so far have registered. */
  ghost predicate TableInv(s: State) {
    AllLegal(s.enqueued) ==> !s.faulted && Holds(s.table, Registry(s.applied))
  }

  /** Requests are only ever appended to the history. */
  lemma HistoryGrows(s: State, a: Action)
    requires Enabled(s, a)
    ensures |s.enqueued| <= |Apply(s, a).enqueued| && Apply(s, a).enqueued[..|s.enqueued|] == s.enqueued
  {
    hide Apply, EventsWith, MayAsk;
    Fields(s, a);
  }

  lemma LegalBefore(s: State, a: Action)
    requires Enabled(s, a) && AllLegal(Apply(s, a).enqueued)
    ensures AllLegal(s.enqueued)
  {
    hide AllLegal, Apply, Enabled;
    HistoryGrows(s, a);
    LegalPrefix(Apply(s, a).enqueued, |s.enqueued|);
  }

  lemma NextIsLegal(s: State)
    requires OrderInv(s) && s.cursor < |s.pending| && AllLegal(s.enqueued)
    ensures Legal(Registry(s.applied), AsRequest(s.pending[s.cursor]))
    ensures Registry(s.applied + [s.pending[s.cursor]]) == Noted(Registry(s.applied), AsRequest(s.pending[s.cursor]))
  {
    hide Legal, Noted;
    var next := s.applied + [s.pending[s.cursor]];
    assert s.enqueued[..|next|] == next;
    LegalPrefix(s.enqueued, |next|);
    assert next[..|next| - 1] == s.applied;
  }

  lemma StepKeepsTable(s: State, a: Action)
    requires OrderInv(s) && TableInv(s) && Enabled(s, a)
    ensures TableInv(Apply(s, a))
  {
    hide AllLegal, Registry, Legal, Holds, EventTable.Apply, Demands, EventsWith, Ready, MayAsk;
    if AllLegal(Apply(s, a).enqueued) {
      LegalBefore(s, a);
      if a.DrainOne? {
        NextIsLegal(s);
        CarriedHolds(s);
      }
    }
  }

  lemma CarriedHolds(s: State)
    requires s.cursor < |s.pending| && Holds(s.table, Registry(s.applied))
    requires Legal(Registry(s.applied), AsRequest(s.pending[s.cursor]))
    ensures var r := RequestNow(s, s.pending[s.cursor]);
            && Demands(s.table, r)
            && Holds(EventTable.Apply(s.table, r), Noted(Registry(s.applied), AsRequest(s.pending[s.cursor])))
  {
    hide Registry, Holds, EventTable.Apply;
    LegalKeepsHolds(s.table, Registry(s.applied), RequestNow(s, s.pending[s.cursor]));
  }

  // ---------- the masks ----------

  /** A thread is about to queue the request. */
  predicate InFlight(s: State, ask: Ask) {
    (exists p :: 0 <= p < |s.producers| && s.producers[p] == Wants(ask)) || s.owner == WantsOwn(ask)
  }

  /** An update of the channel is queued or about to be. */
  predicate Dirty(s: State, c: Chan) {
    InFlight(s, Ask(Update, c)) || exists i :: s.cursor <= i < |s.pending| && s.pending[i] == Ask(Update, c)
  }

  predicate KnownAsk(s: State, ask: Ask) {
    ask.channel in s.events && ask.channel != s.wake
  }

  /** Requests are about channels that exist, and the wake-up channel's events never change. */
  ghost predicate KnownInv(s: State) {
    && s.wake in s.events && s.events[s.wake] == EVENT_READ
    && 1 <= |s.applied| && 1 <= |s.enqueued| && s.enqueued[0] == Ask(Add, s.wake)
    && (forall i :: 1 <= i < |s.enqueued| ==> KnownAsk(s, s.enqueued[i]))
    && (forall p :: 0 <= p < |s.producers| && s.producers[p].Wants? ==> KnownAsk(s, s.producers[p].ask))
    && (s.owner.WantsOwn? ==> KnownAsk(s, s.owner.ask))
  }

  /** A known request stays known: events are only added or replaced. */
  lemma EventsGrow(s: State, a: Action)
    requires Enabled(s, a) && s.wake in s.events
    ensures var s' := Apply(s, a);
            && s'.wake == s.wake
            && (forall c :: c in s.events ==> c in s'.events)
            && s'.events[s.wake] == s.events[s.wake]
            && ((a.Call? || a.OwnCall?) ==> KnownAsk(s', a.ask))
  {
    hide Apply;
    Fields(s, a);
  }

  /** What was known stays known. */
  lemma KnownStays(s: State, a: Action, ask: Ask)
    requires Enabled(s, a) && s.wake in s.events && KnownAsk(s, ask)
    ensures KnownAsk(Apply(s, a), ask)
  {
    hide Apply, Enabled;
    EventsGrow(s, a);
  }

  lemma ProducerStepKeepsKnown(s: State, a: Action)
    requires KnownInv(s) && Enabled(s, a) && IsProducerStep(a)
    ensures KnownInv(Apply(s, a))
  {
    hide Ready, RequestNow, Carried, EventsWith, MayAsk, KnownAsk;
    EventsGrow(s, a);
    forall ask | KnownAsk(s, ask)
      ensures KnownAsk(Apply(s, a), ask)
    {
      KnownStays(s, a, ask);
    }
  }

  lemma OwnerStepKeepsKnown(s: State, a: Action)
    requires KnownInv(s) && Enabled(s, a) && !IsProducerStep(a) && !a.DrainOne?
    ensures KnownInv(Apply(s, a))
  {
    hide Ready, RequestNow, Carried, EventsWith, MayAsk, KnownAsk;
    EventsGrow(s, a);
    forall ask | KnownAsk(s, ask)
      ensures KnownAsk(Apply(s, a), ask)
    {
      KnownStays(s, a, ask);
    }
  }

  lemma StepKeepsKnown(s: State, a: Action)
    requires KnownInv(s) && Enabled(s, a)
    ensures KnownInv(Apply(s, a))
  {
    if IsProducerStep(a) {
      hide KnownInv, Apply, Enabled;
      ProducerStepKeepsKnown(s, a);
    } else if a.DrainOne? {
      hide Carried;
      CarriedFields(s);
    } else {
      hide KnownInv, Apply, Enabled;
      OwnerStepKeepsKnown(s, a);
    }
  }

  /** The slot of a registered channel has the mask of its events, unless an update is on its way. */
  ghost predicate MaskAt(s: State, fd: int) {
    fd in Registry(s.applied) ==>
      var c := Registry(s.applied)[fd];
      c in s.events && (Dirty(s, c) || Watches(s.table.slots, fd, Translate(s.events[c])))
  }

  ghost predicate MaskInv(s: State) {
    AllLegal(s.enqueued) ==> forall fd: nat :: MaskAt(s, fd)
  }

  /** The queue is only appended to, until it is dropped. */
  lemma QueueGrows(s: State, a: Action)
    requires Enabled(s, a) && !a.EndDrain?
    ensures var s' := Apply(s, a);
            && |s.pending| <= |s'.pending| && s'.pending[..|s.pending|] == s.pending
            && s'.cursor == if a.DrainOne? then s.cursor + 1 else if a.StartDrain? then 0 else s.cursor
  {
    hide Apply, EventsWith, MayAsk;
    Fields(s, a);
  }

  /** A queued request stays queued until it is carried out. */
  lemma QueuedStays(s: State, a: Action, i: nat)
    requires LockInv(s) && Enabled(s, a) && s.cursor <= i < |s.pending| && !(a.DrainOne? && i == s.cursor)
    ensures var s' := Apply(s, a);
            s'.cursor <= i < |s'.pending| && s'.pending[i] == s.pending[i]
  {
    hide Apply, LockInv, MayAsk;
    assert !a.EndDrain?;
    QueueGrows(s, a);
    assert Apply(s, a).pending[i] == Apply(s, a).pending[..|s.pending|][i];
  }

  /** A request about to be queued is so still, or is queued. */
  lemma WantedStays(s: State, a: Action, ask: Ask, p: nat)
    requires LockInv(s) && Enabled(s, a) && p < |s.producers| && s.producers[p] == Wants(ask)
    ensures var s' := Apply(s, a);
            if a == Enqueue(p) then s'.cursor <= |s.pending| < |s'.pending| && s'.pending[|s.pending|] == ask
            else p < |s'.producers| && s'.producers[p] == Wants(ask)
  {
    hide Ready, Carried, EventsWith, MayAsk;
    if !IsProducerStep(a) {
      hide LockInv, Apply;
      ProducersStay(s, a);
    }
  }

  lemma ProducersStay(s: State, a: Action)
    requires Enabled(s, a) && !IsProducerStep(a)
    ensures Apply(s, a).producers == s.producers
  {
    hide Ready, Carried, EventsWith, MayAsk;
    if a.DrainOne? {
      CarriedFields(s);
    }
  }

  lemma OwnWantedStays(s: State, a: Action, ask: Ask)
    requires LockInv(s) && Enabled(s, a) && s.owner == WantsOwn(ask)
    ensures var s' := Apply(s, a);
            if a == OwnEnqueue then s'.cursor <= |s.pending| < |s'.pending| && s'.pending[|s.pending|] == ask
            else s'.owner == WantsOwn(ask)
  {
    hide Ready, Carried, EventsWith, MayAsk;
    if a.DrainOne? {
      CarriedFields(s);
    }
  }

  lemma DirtyStays(s: State, a: Action, c: Chan)
    requires LockInv(s) && Enabled(s, a) && Dirty(s, c)
    requires !(a.DrainOne? && s.pending[s.cursor] == Ask(Update, c))
    ensures Dirty(Apply(s, a), c)
  {
    hide Apply, LockInv;
    var ask := Ask(Update, c);
    if i :| s.cursor <= i < |s.pending| && s.pending[i] == ask {
      QueuedStays(s, a, i);
    } else if p :| 0 <= p < |s.producers| && s.producers[p] == Wants(ask) {
      WantedStays(s, a, ask, p);
    } else {
      OwnWantedStays(s, a, ask);
    }
  }

  /** A request is made: a registered channel whose events change has its update on the way. */
  lemma CallKeepsMask(s: State, a: Action, fd: nat)
    requires LockInv(s) && Enabled(s, a) && (a.Call? || a.OwnCall?) && MaskAt(s, fd)
    ensures MaskAt(Apply(s, a), fd)
  {
    hide Registry, Watches, Ready, MayAsk;
    if fd in Registry(s.applied) {
      var c, s' := Registry(s.applied)[fd], Apply(s, a);
      if Dirty(s, c) {
        DirtyStays(s, a, c);
      } else if a.ask == Ask(Update, c) {
        if a.Call? {
          assert s'.producers[a.p] == Wants(a.ask);
        }
        assert InFlight(s', a.ask);
      } else {
        assert s'.events[c] == s.events[c];
      }
    }
  }

  /** A request is carried out: the slot it is about gets the mask of its channel's events now. */
  lemma DrainKeepsMask(s: State, fd: nat)
    requires LockInv(s) && OrderInv(s) && KnownInv(s) && Enabled(s, DrainOne)
    requires AllLegal(s.enqueued) && Holds(s.table, Registry(s.applied)) && MaskAt(s, fd)
    ensures MaskAt(Carried(s), fd)
  {
    hide AllLegal, Registry, Watches, EventTable.Apply, Ready, Holds, LockInv, OrderInv, KnownInv;
    NextIsLegal(s);
    NextIsKnown(s);
    CarriedWatches(s, fd);
    var registry := Registry(s.applied);
    if fd in Registry(Carried(s).applied) && fd != s.pending[s.cursor].channel.fd && Dirty(s, registry[fd]) {
      RegistryIsAdded(s.applied, fd);
      DirtyStays(s, DrainOne, registry[fd]);
    }
  }

  lemma CarriedWatches(s: State, fd: nat)
    requires s.cursor < |s.pending| && Holds(s.table, Registry(s.applied))
    requires Legal(Registry(s.applied), AsRequest(s.pending[s.cursor]))
    ensures var ask, slots := s.pending[s.cursor], Carried(s).table.slots;
            if fd != ask.channel.fd then forall m :: Watches(s.table.slots, fd, m) ==> Watches(slots, fd, m)
            else ask.kind != Remove ==> Watches(slots, fd, RequestNow(s, ask).mask)
  {
    hide Registry, Watches, EventTable.Apply, Distinct, Polled;
    var r := RequestNow(s, s.pending[s.cursor]);
    LegalKeepsHolds(s.table, Registry(s.applied), r);
    ApplyWatches(s.table, r);
    if fd == r.fd && r.kind != Remove {
      assert WatchesAfter(s.table, r, fd, r.mask);
    }
  }

  lemma NextIsKnown(s: State)
    requires OrderInv(s) && KnownInv(s) && s.cursor < |s.pending|
    ensures s.pending[s.cursor].channel in s.events
  {
    assert s.enqueued[|s.applied|] == s.pending[s.cursor];
  }

  lemma StepKeepsMask(s: State, a: Action)
    requires LockInv(s) && OrderInv(s) && KnownInv(s) && TableInv(s) && MaskInv(s) && Enabled(s, a)
    ensures MaskInv(Apply(s, a))
  {
    hide AllLegal, Registry, Watches, Holds, Enabled, LockInv, KnownInv, OrderInv, EventTable.Apply, RequestNow;
    var s' := Apply(s, a);
    if AllLegal(s'.enqueued) {
      LegalBefore(s, a);
      forall fd: nat
        ensures MaskAt(s', fd)
      {
        assert MaskAt(s, fd);
        if a.Call? || a.OwnCall? {
          CallKeepsMask(s, a, fd);
        } else if a.DrainOne? {
          DrainKeepsMask(s, fd);
        } else if fd in Registry(s.applied) && Dirty(s, Registry(s.applied)[fd]) {
          DirtyStays(s, a, Registry(s.applied)[fd]);
        }
      }
    }
  }

  // ---------- every run ----------

  ghost predicate Inv(s: State) {
    LockInv(s) && OrderInv(s) && WakeInv(s) && TableInv(s) && KnownInv(s) && MaskInv(s)
  }

  lemma StepKeepsInv(s: State, a: Action)
    requires Inv(s) && Enabled(s, a)
    ensures Inv(Apply(s, a))
  {
    hide Apply, Enabled, LockInv, OrderInv, WakeInv, TableInv, KnownInv, MaskInv;
    StepKeepsLock(s, a);
    StepKeepsOrder(s, a);
    StepKeepsWake(s, a);
    StepKeepsTable(s, a);
    StepKeepsKnown(s, a);
    StepKeepsMask(s, a);
  }

  lemma InitialInv(producers: nat, wake: Chan)
    requires 0 <= wake.fd < MAP_LIMIT
    ensures Inv(Initial(producers, wake))
  {
    var s := Initial(producers, wake);
    CountZero(s.producers, WillWake);
    assert s.applied[..0] == [];
    assert Registry(s.applied) == map[wake.fd := wake];
    InitialTable(wake);
  }

  lemma InitialTable(wake: Chan)
    requires 0 <= wake.fd < MAP_LIMIT
    ensures var t := Initial(0, wake).table;
            Holds(t, map[wake.fd := wake]) && Watches(t.slots, wake.fd, Translate(EVENT_READ))
  {
    var add := Request(Add, wake.fd, wake, Translate(EVENT_READ));
    NewHoldsNothing<Chan>();
    LegalKeepsHolds(NewTable(), map[], add);
    ApplyWatches(NewTable(), add);
    assert WatchesAfter(NewTable(), add, wake.fd, add.mask);
  }

  lemma {:induction false} RunKeepsInv(s: State, run: seq<Action>)
    requires Inv(s)
    ensures After(s, run).Some? ==> Inv(After(s, run).value)
  {
    hide Inv, Enabled, Apply;
    if run != [] {
      var before, last := After(s, run[..|run| - 1]), run[|run| - 1];
      RunKeepsInv(s, run[..|run| - 1]);
      if before.Some? && Enabled(before.value, last) {
        StepKeepsInv(before.value, last);
      }
    }
  }

  /** Nobody asks for anything about the wake-up channel. */
  lemma WakeIsClean(s: State)
    requires KnownInv(s) && OrderInv(s)
    ensures !Dirty(s, s.wake)
    ensures forall i :: 0 < i < |s.applied| ==> s.applied[i].channel != s.wake
    ensures |s.applied| <= |s.enqueued| && s.applied == s.enqueued[..|s.applied|]
    ensures s.applied != [] && s.applied[0] == Ask(Add, s.wake)
  {
    forall i | s.cursor <= i < |s.pending|
      ensures s.pending[i] != Ask(Update, s.wake)
    {
      var j := |s.applied| + i - s.cursor;
      assert s.pending[i] == s.enqueued[j] && KnownAsk(s, s.enqueued[j]);
    }
    forall i | 0 < i < |s.applied|
      ensures s.applied[i].channel != s.wake
    {
      assert s.applied[i] == s.enqueued[i] && KnownAsk(s, s.enqueued[i]);
    }
    assert s.enqueued[0] == s.applied[0];
  }

  /** The wake-up channel is always watched for reading. */
  lemma WakeIsWatched(s: State)
    requires Inv(s) && AllLegal(s.enqueued)
    ensures s.wake.fd >= 0 && WatchedForReading(s.table.slots, s.wake.fd)
    ensures WatchedFor(s.table.slots, s.wake.fd, 0x02)
  {
    hide AllLegal, Registry, Watches, WakeInv, TableInv, OrderInv, LockInv, Dirty, Translate;
    WakeIsClean(s);
    LegalPrefix(s.enqueued, |s.applied|);
    WakeStays(s.applied, s.wake);
    RegisteredIsDescriptor(s, s.wake.fd);
    assert MaskAt(s, s.wake.fd);
    WatchesBits(s.table.slots, s.wake.fd, EVENT_READ);
  }

  lemma RegisteredIsDescriptor(s: State, fd: int)
    requires TableInv(s) && AllLegal(s.enqueued) && fd in Registry(s.applied)
    ensures fd >= 0
  {
  }

  /** No wake-up is lost: when the owner is about to block, the queued requests are matched by unread
      wake-up bytes and by threads that are about to write one. So once those have written theirs,
      a non-empty queue makes `poll` return at once. */
  lemma NoLostWakeup(producers: nat, wake: Chan, run: seq<Action>)
    requires 0 <= wake.fd < MAP_LIMIT
    ensures var r := After(Initial(producers, wake), run);
            r.Some? && r.value.owner == AtPoll ==>
              && |r.value.pending| <= r.value.wakeBytes + Count(r.value.producers, WillWake)
              && (AllLegal(r.value.enqueued) && r.value.pending != [] &&
                  (forall p :: 0 <= p < |r.value.producers| ==> !WillWake(r.value.producers[p]))
                  ==> Ready(r.value))
  {
    hide AllLegal, Registry, Watches, TableInv, KnownInv, MaskInv, Enabled, Apply;
    var r := After(Initial(producers, wake), run);
    InitialInv(producers, wake);
    RunKeepsInv(Initial(producers, wake), run);
    if r.Some? && r.value.owner == AtPoll {
      var s := r.value;
      if forall p :: 0 <= p < |s.producers| ==> !WillWake(s.producers[p]) {
        CountZero(s.producers, WillWake);
      }
      if AllLegal(s.enqueued) {
        WakeIsWatched(s);
      }
    }
  }

  /** Every request is carried out once and in the order of the lock, and no thread that gets the
      lock to queue one finds the queue being drained (line 57). */
  lemma ExactlyOnce(producers: nat, wake: Chan, run: seq<Action>)
    requires 0 <= wake.fd < MAP_LIMIT
    ensures var r := After(Initial(producers, wake), run);
            r.Some? ==>
              && r.value.cursor <= |r.value.pending|
              && r.value.applied + r.value.pending[r.value.cursor..] == r.value.enqueued
              && (forall p :: Enabled(r.value, Enqueue(p)) ==> !r.value.isHandlePending)
              && (Enabled(r.value, OwnEnqueue) ==> !r.value.isHandlePending)
  {
    hide TableInv, KnownInv, MaskInv, WakeInv;
    InitialInv(producers, wake);
    RunKeepsInv(Initial(producers, wake), run);
  }

  /** If the callers play by the rules, no request ever breaks a demand of the code; the map holds
      what the carried-out requests registered, each descriptor in one slot; and a slot has the mask
      of its channel's events unless an update is on its way. */
  lemma MapAndPollerAgree(producers: nat, wake: Chan, run: seq<Action>)
    requires 0 <= wake.fd < MAP_LIMIT
    ensures var r := After(Initial(producers, wake), run);
            r.Some? && AllLegal(r.value.enqueued) ==>
              var registry := Registry(r.value.applied);
              && !r.value.faulted
              && Holds(r.value.table, registry)
              && (forall fd :: fd in registry ==> registry[fd] in r.value.events)
              && (forall fd :: fd in registry && !Dirty(r.value, registry[fd]) ==>
                    WatchedFor(r.value.table.slots, fd, r.value.events[registry[fd]]))
  {
    hide AllLegal, Registry, Watches, WatchedFor, Translate, Holds, LockInv, OrderInv, WakeInv, KnownInv, Enabled,
         Apply, Dirty;
    var r := After(Initial(producers, wake), run);
    InitialInv(producers, wake);
    RunKeepsInv(Initial(producers, wake), run);
    if r.Some? && AllLegal(r.value.enqueued) {
      var s := r.value;
      forall fd | fd in Registry(s.applied)
        ensures Registry(s.applied)[fd] in s.events
        ensures Dirty(s, Registry(s.applied)[fd]) || WatchedFor(s.table.slots, fd, s.events[Registry(s.applied)[fd]])
      {
        RegisteredIsDescriptor(s, fd);
        assert MaskAt(s, fd);
        if !Dirty(s, Registry(s.applied)[fd]) {
          WatchesBits(s.table.slots, fd, s.events[Registry(s.applied)[fd]]);
        }
      }
    }
  }

  /** What the callers have set a channel's events to: when they first asked about it, and with each update. */
  function AskedEvents(wake: Chan, run: seq<Action>, c: Chan): Option<bv32> {
    if run == [] then
      if c == wake then Some(0x02) else None
    else
      var before, last := AskedEvents(wake, run[..|run| - 1], c), run[|run| - 1];
      if (last.Call? || last.OwnCall?) && last.ask.channel == c && (before == None || last.ask.kind == Update) then
        Some(last.events)
      else
        before
  }

  lemma {:induction false} EventsAreAsked(producers: nat, wake: Chan, run: seq<Action>, c: Chan)
    requires 0 <= wake.fd < MAP_LIMIT
    ensures var r := After(Initial(producers, wake), run);
            r.Some? ==> AskedEvents(wake, run, c) == if c in r.value.events then Some(r.value.events[c]) else None
  {
    hide Apply, Enabled, Initial;
    if run == [] {
      FirstEvents(producers, wake);
    } else {
      var front, last := run[..|run| - 1], run[|run| - 1];
      var before := After(Initial(producers, wake), front);
      EventsAreAsked(producers, wake, front, c);
      if before.Some? && Enabled(before.value, last) {
        Fields(before.value, last);
      }
    }
  }

  lemma FirstEvents(producers: nat, wake: Chan)
    requires 0 <= wake.fd < MAP_LIMIT
    ensures Initial(producers, wake).events == map[wake := 0x02]
  {
  }

  /** So a slot waits for what the callers have asked for, when no update is on its way. */
  lemma SlotsWaitAsAsked(producers: nat, wake: Chan, run: seq<Action>, fd: int)
    requires 0 <= wake.fd < MAP_LIMIT
    ensures var r := After(Initial(producers, wake), run);
            r.Some? && AllLegal(r.value.enqueued) ==>
              var registry := Registry(r.value.applied);
              fd in registry && !Dirty(r.value, registry[fd]) ==>
                && AskedEvents(wake, run, registry[fd]).Some?
                && WatchedFor(r.value.table.slots, fd, AskedEvents(wake, run, registry[fd]).value)
  {
    hide AllLegal, Registry, WatchedFor, Holds, Dirty, After, Initial;
    MapAndPollerAgree(producers, wake, run);
    var r := After(Initial(producers, wake), run);
    if r.Some? && AllLegal(r.value.enqueued) && fd in Registry(r.value.applied) {
      EventsAreAsked(producers, wake, run, Registry(r.value.applied)[fd]);
    }
  }

  // ---------- a queued request is carried out ----------

  /** Every step but a new request, and a `poll` that returns for another reason than a wake-up. */
  predicate IsDue(s: State, a: Action) {
    !a.Call? && !a.OwnCall? && (a.Poll? ==> Ready(s))
  }

  ghost predicate Stuck(s: State) {
    forall a :: Enabled(s, a) ==> !IsDue(s, a)
  }

  ghost predicate CanMove(s: State) {
    exists a :: Enabled(s, a) && IsDue(s, a)
  }

  lemma OwnerMoves(s: State)
    requires LockInv(s) && WakeInv(s) && s.owner != AtPoll && (s.holder == Nobody || s.holder == TheOwner)
    ensures CanMove(s)
  {
    match s.owner {
      case Dispatching => assert Enabled(s, if s.mayRead then ReadByte else EndDispatch);
      case WantsOwn(_) => assert Enabled(s, OwnEnqueue);
      case HoldsOwn => assert Enabled(s, OwnUnlock);
      case WantsDrain(_) => assert Enabled(s, StartDrain);
      case Draining(_) => assert Enabled(s, if s.cursor < |s.pending| then DrainOne else EndDrain);
    }
  }

  lemma ProducerMoves(s: State, p: nat)
    requires LockInv(s) && p < |s.producers| && s.producers[p] != Idle
          && (s.holder == Nobody || s.holder == TheProducer(p))
    ensures CanMove(s)
  {
    assert Enabled(s, match s.producers[p] case Wants(_) => Enqueue(p) case Holding => Unlock(p) case _ => Wake(p));
  }

  /** The loop comes to rest only when every request has been carried out. */
  lemma NothingLeftBehind(s: State)
    requires Inv(s) && AllLegal(s.enqueued) && Stuck(s)
    ensures s.applied == s.enqueued && s.pending == [] && s.owner == AtPoll
    ensures forall p :: 0 <= p < |s.producers| ==> s.producers[p] == Idle
  {
    hide AllLegal, TableInv, KnownInv, MaskInv, Enabled, Watches;
    assert !CanMove(s);
    if s.holder.TheProducer? {
      ProducerMoves(s, s.holder.producer);
    }
    if s.owner != AtPoll {
      OwnerMoves(s);
    }
    forall p | 0 <= p < |s.producers|
      ensures s.producers[p] == Idle
    {
      if s.producers[p] != Idle {
        ProducerMoves(s, p);
      }
    }
    CountZero(s.producers, WillWake);
    WakeIsWatched(s);
    if s.pending != [] {
      PollIsDue(s);
    }
  }

  lemma PollIsDue(s: State)
    requires s.owner == AtPoll && Ready(s)
    ensures CanMove(s)
  {
    assert Enabled(s, Poll) && IsDue(s, Poll);
  }

  function ProducerWork(p: Producer): nat {
    match p
    case Idle => 0
    case Wants(_) => 9
    case Holding => 7
    case Waking => 6
  }

  function AllWork(producers: seq<Producer>): nat {
    if producers == [] then 0 else AllWork(producers[..|producers| - 1]) + ProducerWork(producers[|producers| - 1])
  }

  function OwnerWork(owner: Owner, mayRead: bool): nat {
    var dispatch := if mayRead then 0 else 4;
    match owner
    case AtPoll => 1
    case Dispatching => dispatch
    case WantsOwn(_) => dispatch + 5
    case HoldsOwn => dispatch + 3
    case WantsDrain(nested) => if nested then dispatch + 2 else 3
    case Draining(nested) => if nested then dispatch + 1 else 2
  }

  /** An upper bound of the steps to come if nobody makes a new request. */
  function Work(s: State): int {
    AllWork(s.producers) + 5 * s.wakeBytes + OwnerWork(s.owner, s.mayRead) + |s.pending| - s.cursor
  }

  lemma {:induction false} AllWorkUpdate(producers: seq<Producer>, p: nat, phase: Producer)
    requires p < |producers|
    ensures AllWork(producers[p := phase]) == AllWork(producers) - ProducerWork(producers[p]) + ProducerWork(phase)
  {
    var n := |producers| - 1;
    if p == n {
      assert producers[p := phase][..n] == producers[..n];
    } else {
      assert producers[p := phase][..n] == producers[..n][p := phase];
      AllWorkUpdate(producers[..n], p, phase);
    }
  }

  lemma ProducerStepIsProgress(s: State, a: Action)
    requires LockInv(s) && WakeInv(s) && Enabled(s, a) && IsDue(s, a) && IsProducerStep(a)
    ensures 0 <= Work(Apply(s, a)) < Work(s)
  {
    hide AllWork, Count, RequestNow, Demands, EventTable.Apply, WatchedForReading, EventsWith, MayAsk;
    match a {
      case Enqueue(p) => AllWorkUpdate(s.producers, p, Holding);
      case Unlock(p) => AllWorkUpdate(s.producers, p, Waking);
      case Wake(p) => AllWorkUpdate(s.producers, p, Idle);
      case _ =>
    }
  }

  /** Every due step, whichever thread takes it, brings the loop closer to rest. */
  lemma DueStepIsProgress(s: State, a: Action)
    requires LockInv(s) && WakeInv(s) && Enabled(s, a) && IsDue(s, a)
    ensures 0 <= Work(Apply(s, a)) < Work(s)
  {
    hide AllWork, Count, RequestNow, Demands, EventTable.Apply, WatchedForReading, EventsWith, MayAsk;
    if IsProducerStep(a) {
      hide Work, Apply, Enabled, LockInv, WakeInv, IsDue;
      ProducerStepIsProgress(s, a);
    }
  }

  ghost predicate DueRun(s: State, run: seq<Action>) {
    run == [] ||
    (var before := After(s, run[..|run| - 1]);
     DueRun(s, run[..|run| - 1]) && before.Some? && IsDue(before.value, run[|run| - 1]))
  }

  /** So after the last request at most `Work` steps lie between the loop and rest. */
  lemma {:induction false} DueRunIsBounded(s: State, run: seq<Action>)
    requires Inv(s) && DueRun(s, run) && After(s, run).Some?
    ensures Inv(After(s, run).value) && 0 <= Work(After(s, run).value) <= Work(s) - |run|
  {
    hide Inv, Enabled, Apply, IsDue, Work;
    if run == [] {
      WorkIsNatural(s);
    } else {
      var before, last := After(s, run[..|run| - 1]).value, run[|run| - 1];
      DueRunIsBounded(s, run[..|run| - 1]);
      StepKeepsInv(before, last);
      InvParts(before);
      DueStepIsProgress(before, last);
    }
  }

  lemma WorkIsNatural(s: State)
    requires Inv(s)
    ensures Work(s) >= 0
  {
  }

  lemma InvParts(s: State)
    requires Inv(s)
    ensures LockInv(s) && WakeInv(s)
  {
  }
}
