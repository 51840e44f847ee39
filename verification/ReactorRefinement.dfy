/** The event loop in arrays and links carries out steps of the reactor (test_epoll/lib/event_loop.c
    lines 10-69): what a call of EventLoop does to the heap is a run of Reactor. */
module ReactorRefinement {
  import opened Wrappers
  import opened EventTable
  import opened EventLoop
  import R = Reactor

  // ---------- other names for the channels ----------

  function Renamed<C, D>(r: Request<C>, name: C -> D): Request<D> {
    Request(r.kind, r.fd, name(r.channel), r.mask)
  }

  function RenamedAll<C, D>(rs: seq<Request<C>>, name: C -> D): (r: seq<Request<D>>)
    ensures |r| == |rs| && forall i :: 0 <= i < |rs| ==> r[i] == Renamed(rs[i], name)
  {
    seq(|rs|, i requires 0 <= i < |rs| => Renamed(rs[i], name))
  }

  function RenamedEntry<C, D>(e: Option<C>, name: C -> D): Option<D> {
    if e.Some? then Some(name(e.value)) else None
  }

  function RenamedTable<C, D>(t: Table<C>, name: C -> D): (u: Table<D>)
    ensures |u.entries| == |t.entries| && u.slots == t.slots
    ensures forall fd :: 0 <= fd < |t.entries| ==> u.entries[fd] == RenamedEntry(t.entries[fd], name)
  {
    Table(seq(|t.entries|, fd requires 0 <= fd < |t.entries| => RenamedEntry(t.entries[fd], name)), t.slots)
  }

  lemma RenamedGrown<C, D>(t: Table<C>, name: C -> D, slot: nat)
    ensures var grown, grown' := Grown(t.entries, slot), Grown(RenamedTable(t, name).entries, slot);
            |grown'| == |grown| && forall fd :: 0 <= fd < |grown| ==> grown'[fd] == RenamedEntry(grown[fd], name)
  {
  }

  /** Carrying out a request does not look at what a channel is. */
  lemma ApplyRenamed<C, D>(t: Table<C>, r: Request<C>, name: C -> D)
    requires Demands(t, r)
    ensures Demands(RenamedTable(t, name), Renamed(r, name))
    ensures Apply(RenamedTable(t, name), Renamed(r, name)) == RenamedTable(Apply(t, r), name)
  {
    hide PollAdd, PollDel, PollUpdate, Grown;
    var u, r' := RenamedTable(t, name), Renamed(r, name);
    if r.fd >= 0 && r.kind == Add {
      RenamedGrown(t, name, r.fd);
    }
    assert Apply(u, r').entries == RenamedTable(Apply(t, r), name).entries;
  }

  lemma {:induction false} ApplyAllRenamed<C, D>(t: Table<C>, rs: seq<Request<C>>, name: C -> D)
    requires DemandsAll(t, rs)
    ensures DemandsAll(RenamedTable(t, name), RenamedAll(rs, name))
    ensures ApplyAll(RenamedTable(t, name), RenamedAll(rs, name)) == RenamedTable(ApplyAll(t, rs), name)
    decreases |rs|
  {
    hide Apply, Demands, Renamed;
    if rs != [] {
      var n := |rs| - 1;
      assert RenamedAll(rs, name)[..n] == RenamedAll(rs[..n], name);
      ApplyAllRenamed(t, rs[..n], name);
      ApplyRenamed(ApplyAll(t, rs[..n]), rs[n], name);
    }
  }

  // ---------- a drain, step by step ----------

  /** What is queued, with the masks of this moment. */
  function Now(s: R.State): (rs: seq<Request<R.Chan>>)
    ensures |rs| == |s.pending| && forall i :: 0 <= i < |rs| ==> rs[i] == R.RequestNow(s, s.pending[i])
  {
    seq(|s.pending|, i requires 0 <= i < |s.pending| => R.RequestNow(s, s.pending[i]))
  }

  function Drains(n: nat): (run: seq<R.Action>)
    ensures |run| == n + 1
  {
    if n == 0 then [R.StartDrain] else Drains(n - 1) + [R.DrainOne]
  }

  function Drain(n: nat): seq<R.Action> {
    Drains(n) + [R.EndDrain]
  }

  ghost predicate MayDrain(s: R.State) {
    s.owner.WantsDrain? && s.holder == R.Nobody && s.cursor == 0 && DemandsAll(s.table, Now(s))
  }

  /** After `k` elements. */
  ghost function Drained(s: R.State, k: nat): R.State
    requires MayDrain(s) && k <= |s.pending|
  {
    DemandsUpTo(s.table, Now(s), k);
    s.(owner := R.Draining(s.owner.nested), holder := R.TheOwner, isHandlePending := true, cursor := k,
       applied := s.applied + s.pending[..k], table := ApplyAll(s.table, Now(s)[..k]))
  }

  lemma DemandsUpTo<C>(t: Table<C>, rs: seq<Request<C>>, k: nat)
    requires DemandsAll(t, rs) && k <= |rs|
    ensures DemandsAll(t, rs[..k])
  {
    if k < |rs| {
      DemandsPrefix(t, rs, k);
    } else {
      assert rs[..k] == rs;
    }
  }

  lemma AfterSnoc(s: R.State, run: seq<R.Action>, a: R.Action)
    requires R.After(s, run).Some? && R.Enabled(R.After(s, run).value, a)
    ensures R.After(s, run + [a]) == Some(R.Apply(R.After(s, run).value, a))
  {
    assert (run + [a])[..|run|] == run;
  }

  lemma NextDrained(s: R.State, k: nat)
    requires MayDrain(s) && k < |s.pending|
    ensures R.Enabled(Drained(s, k), R.DrainOne)
    ensures R.Apply(Drained(s, k), R.DrainOne) == Drained(s, k + 1)
  {
    hide EventTable.Apply, Demands, DemandsAll, ApplyAll, R.Ready, R.MayAsk, R.EventsWith;
    DemandsPrefix(s.table, Now(s), k);
    assert s.applied + s.pending[..k + 1] == s.applied + s.pending[..k] + [s.pending[k]];
    assert R.RequestNow(Drained(s, k), s.pending[k]) == Now(s)[k];
  }

  lemma {:induction false} AfterDrains(s: R.State, k: nat)
    requires MayDrain(s) && k <= |s.pending|
    ensures R.After(s, Drains(k)) == Some(Drained(s, k))
  {
    hide R.Apply, R.Enabled, R.After, Drained, MayDrain;
    if k == 0 {
      FirstDrained(s);
    } else {
      AfterDrains(s, k - 1);
      NextDrained(s, k - 1);
      AfterSnoc(s, Drains(k - 1), R.DrainOne);
    }
  }

  lemma FirstDrained(s: R.State)
    requires MayDrain(s)
    ensures R.After(s, [R.StartDrain]) == Some(Drained(s, 0))
  {
    AfterSnoc(s, [], R.StartDrain);
    assert [] + [R.StartDrain] == [R.StartDrain];
    assert s.applied + s.pending[..0] == s.applied;
    EmptyBatch(s.table, Now(s)[..0]);
  }

  /** A drain carries out the whole queue in order, with the masks of the moment it begins. */
  lemma DrainIsRun(s: R.State)
    requires MayDrain(s)
    ensures R.After(s, Drain(|s.pending|)) ==
            Some(s.(owner := if s.owner.nested then R.Dispatching else R.AtPoll, pending := [],
                    isHandlePending := false, hasRead := false, applied := s.applied + s.pending,
                    table := ApplyAll(s.table, Now(s))))
  {
    hide ApplyAll, DemandsAll;
    var n := |s.pending|;
    AfterDrains(s, n);
    AfterSnoc(s, Drains(n), R.EndDrain);
    assert s.pending[..n] == s.pending && Now(s)[..n] == Now(s);
  }

  // ---------- the objects and the state ----------

  /** What a channel object is called in the reactor, and that both have the same events. */
  ghost predicate Known(s: R.State, c: Channel, name: Channel -> R.Chan)
    reads c
  {
    name(c).fd == c.fd && name(c) in s.events && s.events[name(c)] == c.events
  }

  ghost predicate SameQueue(s: R.State, queue: seq<ChannelElement>, name: Channel -> R.Chan)
    reads set e | e in queue :: e.channel
  {
    && |s.pending| == |queue|
    && forall i :: 0 <= i < |queue| ==>
         s.pending[i] == R.Ask(queue[i].kind, name(queue[i].channel)) && Known(s, queue[i].channel, name)
  }

  ghost predicate Represents(loop: EventLoop, s: R.State, name: Channel -> R.Chan)
    reads loop, loop.queue, loop.channelMap, loop.channelMap.entries, loop.dispatcher.eventSet,
          set e | e in loop.queue :: e.channel
  {
    && loop.Valid()
    && s.isHandlePending == loop.isHandlePending
    && s.wakeBytes == loop.wakeBytes
    && s.table == RenamedTable(loop.Table(), name)
    && SameQueue(s, loop.queue, name)
  }

  /** The same about the requests the elements stand for. */
  ghost predicate SameAsks(s: R.State, rs: seq<Request<Channel>>, name: Channel -> R.Chan)
    reads set r | r in rs :: r.channel
  {
    && |s.pending| == |rs|
    && forall i :: 0 <= i < |rs| ==>
         s.pending[i] == R.Ask(rs[i].kind, name(rs[i].channel)) && Known(s, rs[i].channel, name)
  }

  lemma SameQueueIs(s: R.State, queue: seq<ChannelElement>, name: Channel -> R.Chan)
    ensures SameQueue(s, queue, name) <==> SameAsks(s, Requests(queue), name)
  {
    RequestsAreAbout(queue);
    assert SameQueue(s, queue, name) ==> SameAsks(s, Requests(queue), name) by {
      if SameQueue(s, queue, name) {
        forall i | 0 <= i < |queue|
          ensures s.pending[i] == R.Ask(Requests(queue)[i].kind, name(Requests(queue)[i].channel))
          ensures Known(s, Requests(queue)[i].channel, name)
        {
          assert IsAbout(Requests(queue)[i], queue[i]);
        }
      }
    }
    if SameAsks(s, Requests(queue), name) {
      forall i | 0 <= i < |queue|
        ensures s.pending[i] == R.Ask(queue[i].kind, name(queue[i].channel)) && Known(s, queue[i].channel, name)
      {
        assert IsAbout(Requests(queue)[i], queue[i]);
      }
    }
  }

  /** The requests carry the masks of this moment. */
  ghost predicate UpToDate(rs: seq<Request<Channel>>)
    reads set r | r in rs :: r.channel
  {
    forall r :: r in rs ==> r.fd == r.channel.fd && r.mask == Translate(r.channel.events)
  }

  lemma QueueIsUpToDate(queue: seq<ChannelElement>)
    ensures UpToDate(Requests(queue))
  {
    forall i | 0 <= i < |queue|
      ensures Requests(queue)[i] == RequestOf(queue[i])
    {
      RequestsAt(queue, i);
    }
  }

  lemma AsksAreNow(s: R.State, rs: seq<Request<Channel>>, name: Channel -> R.Chan)
    requires SameAsks(s, rs, name) && UpToDate(rs)
    ensures Now(s) == RenamedAll(rs, name)
  {
    forall i | 0 <= i < |rs|
      ensures Now(s)[i] == Renamed(rs[i], name)
    {
      assert rs[i] in rs;
    }
  }

  lemma NewTableRenamed(wake: Channel, name: Channel -> R.Chan)
    requires 0 <= wake.fd < MAP_LIMIT
    ensures var t, mask := NewTable<Channel>(), Translate(EVENT_READ);
            RenamedTable(Apply(t, Request(Add, wake.fd, wake, mask)), name) ==
            Apply(NewTable(), Request(Add, wake.fd, name(wake), mask))
  {
    hide Apply, Translate;
    ApplyRenamed(NewTable<Channel>(), Request(Add, wake.fd, wake, Translate(EVENT_READ)), name);
    assert RenamedTable(NewTable<Channel>(), name) == NewTable();
  }

  /** A loop as its constructor leaves it is the reactor's initial state. */
  lemma NewLoopIsInitial(loop: EventLoop, producers: nat, name: Channel -> R.Chan)
    requires loop.Valid() && loop.queue == [] && !loop.isHandlePending && loop.wakeBytes == 0
    requires 0 <= loop.wakeChannel.fd < MAP_LIMIT && loop.wakeChannel.events == EVENT_READ
    requires loop.Table() ==
             Apply(NewTable(), Request(Add, loop.wakeChannel.fd, loop.wakeChannel, Translate(EVENT_READ)))
    requires name(loop.wakeChannel).fd == loop.wakeChannel.fd
    ensures var s := R.Initial(producers, name(loop.wakeChannel));
            Represents(loop, s, name) && Known(s, loop.wakeChannel, name)
  {
    hide Apply, Translate, EventLoop.Table, EventLoop.Valid;
    NewTableRenamed(loop.wakeChannel, name);
  }

  /** `event_loop_handle_pending_channel` is a drain of the reactor. */
  method HandlePendingChannel(loop: EventLoop, ghost s: R.State, ghost name: Channel -> R.Chan)
      returns (ghost s': R.State)
    requires Represents(loop, s, name) && DemandsAll(loop.Table(), Requests(loop.queue))
    requires s.owner.WantsDrain? && s.holder == R.Nobody && s.cursor == 0
    modifies loop, loop.channelMap, loop.channelMap.entries, loop.dispatcher.eventSet
    ensures loop.channelMap.entries == old(loop.channelMap.entries) || fresh(loop.channelMap.entries)
    ensures R.After(s, Drain(|s.pending|)) == Some(s') && Represents(loop, s', name)
    ensures s'.applied == s.applied + s.pending && s'.faulted == s.faulted && s'.events == s.events
    ensures s'.owner == if s.owner.nested then R.Dispatching else R.AtPoll
  {
    hide DemandsAll, ApplyAll, Requests, EventLoop.Valid;
    SameQueueIs(s, loop.queue, name);
    QueueIsUpToDate(loop.queue);
    AsksAreNow(s, Requests(loop.queue), name);
    ApplyAllRenamed(loop.Table(), Requests(loop.queue), name);
    loop.HandlePendingChannel();
    DrainIsRun(s);
    s' := R.After(s, Drain(|s.pending|)).value;
  }

  lemma AfterAppend(s: R.State, run: seq<R.Action>, more: seq<R.Action>)
    requires R.After(s, run).Some?
    ensures R.After(s, run + more) == R.After(R.After(s, run).value, more)
    decreases |more|
  {
    hide R.Apply, R.Enabled;
    if more == [] {
      assert run + more == run;
    } else {
      var n := |more| - 1;
      assert (run + more)[..|run| + n] == run + more[..n];
      AfterAppend(s, run, more[..n]);
    }
  }

  /** A call from a callback: the request is made and queued, the mutex let go. */
  function OwnSteps(ask: R.Ask, events: bv32): seq<R.Action> {
    [R.OwnCall(ask, events)] + [R.OwnEnqueue] + [R.OwnUnlock]
  }

  lemma OwnCallStep(s: R.State, ask: R.Ask, events: bv32)
    requires R.Enabled(s, R.OwnCall(ask, events))
    ensures s.owner == R.Dispatching
    ensures R.Apply(s, R.OwnCall(ask, events)) == Asked(s, ask, events).(owner := R.WantsOwn(ask))
  {
  }

  lemma OwnEnqueueStep(s: R.State, ask: R.Ask)
    requires s.owner == R.WantsOwn(ask) && s.holder == R.Nobody
    ensures R.Enabled(s, R.OwnEnqueue)
    ensures R.Apply(s, R.OwnEnqueue) ==
            s.(owner := R.HoldsOwn, holder := R.TheOwner, pending := s.pending + [ask], enqueued := s.enqueued + [ask])
  {
  }

  lemma OwnUnlockStep(s: R.State)
    requires s.owner == R.HoldsOwn
    ensures R.Enabled(s, R.OwnUnlock)
    ensures R.Apply(s, R.OwnUnlock) == s.(owner := R.WantsDrain(true), holder := R.Nobody)
  {
  }

  lemma OwnIsRun(s: R.State, ask: R.Ask, events: bv32)
    requires s.holder == R.Nobody && R.Enabled(s, R.OwnCall(ask, events))
    ensures R.After(s, OwnSteps(ask, events)) ==
            Some(Asked(s, ask, events).(owner := R.WantsDrain(true), pending := s.pending + [ask],
                                        enqueued := s.enqueued + [ask]))
  {
    hide R.EventsWith, R.Apply, R.Enabled, R.After;
    var run := [R.OwnCall(ask, events)];
    OwnCallStep(s, ask, events);
    var s1 := AfterNext(s, [], s, R.OwnCall(ask, events));
    OwnEnqueueStep(s1, ask);
    var s2 := AfterNext(s, run, s1, R.OwnEnqueue);
    OwnUnlockStep(s2);
    var s3 := AfterNext(s, run + [R.OwnEnqueue], s2, R.OwnUnlock);
  }

  function OtherSteps(p: nat, ask: R.Ask, events: bv32): seq<R.Action> {
    [R.Call(p, ask, events)] + [R.Enqueue(p)] + [R.Unlock(p)] + [R.Wake(p)]
  }

  lemma CallStep(s: R.State, p: nat, ask: R.Ask, events: bv32)
    requires R.Enabled(s, R.Call(p, ask, events))
    ensures p < |s.producers| && s.producers[p] == R.Idle
    ensures R.Apply(s, R.Call(p, ask, events)) ==
            Asked(s, ask, events).(producers := s.producers[p := R.Wants(ask)])
  {
  }

  lemma EnqueueStep(s: R.State, p: nat, ask: R.Ask)
    requires p < |s.producers| && s.producers[p] == R.Wants(ask) && s.holder == R.Nobody
    ensures R.Enabled(s, R.Enqueue(p))
    ensures R.Apply(s, R.Enqueue(p)) ==
            s.(producers := s.producers[p := R.Holding], holder := R.TheProducer(p), pending := s.pending + [ask],
               enqueued := s.enqueued + [ask])
  {
  }

  lemma UnlockStep(s: R.State, p: nat)
    requires p < |s.producers| && s.producers[p] == R.Holding
    ensures R.Enabled(s, R.Unlock(p))
    ensures R.Apply(s, R.Unlock(p)) == s.(producers := s.producers[p := R.Waking], holder := R.Nobody)
  {
  }

  lemma WakeStep(s: R.State, p: nat)
    requires p < |s.producers| && s.producers[p] == R.Waking
    ensures R.Enabled(s, R.Wake(p))
    ensures R.Apply(s, R.Wake(p)) == s.(producers := s.producers[p := R.Idle], wakeBytes := s.wakeBytes + 1)
  {
  }

  lemma BackAgain(producers: seq<R.Producer>, p: nat, wants: R.Producer)
    requires p < |producers| && producers[p] == R.Idle
    ensures producers[p := wants][p := R.Holding][p := R.Waking][p := R.Idle] == producers
  {
  }

  lemma OtherIsRun(s: R.State, p: nat, ask: R.Ask, events: bv32)
    requires s.holder == R.Nobody && R.Enabled(s, R.Call(p, ask, events))
    ensures R.After(s, OtherSteps(p, ask, events)) ==
            Some(Asked(s, ask, events).(pending := s.pending + [ask], enqueued := s.enqueued + [ask],
                                        wakeBytes := s.wakeBytes + 1))
  {
    hide R.EventsWith, R.Apply, R.Enabled, R.After;
    var run := [R.Call(p, ask, events)];
    CallStep(s, p, ask, events);
    var s1 := AfterNext(s, [], s, R.Call(p, ask, events));
    EnqueueStep(s1, p, ask);
    var s2 := AfterNext(s, run, s1, R.Enqueue(p));
    UnlockStep(s2, p);
    var s3 := AfterNext(s, run + [R.Enqueue(p)], s2, R.Unlock(p));
    WakeStep(s3, p);
    var s4 := AfterNext(s, run + [R.Enqueue(p)] + [R.Unlock(p)], s3, R.Wake(p));
    assert s4.producers == s.producers by { BackAgain(s.producers, p, R.Wants(ask)); }
  }

  lemma AfterNext(s: R.State, run: seq<R.Action>, t: R.State, a: R.Action) returns (u: R.State)
    requires (if run == [] then t == s else R.After(s, run) == Some(t)) && R.Enabled(t, a)
    ensures u == R.Apply(t, a) && R.After(s, run + [a]) == Some(u)
    ensures run == [] ==> R.After(s, [a]) == Some(u)
  {
    hide R.Apply, R.Enabled;
    AfterSnoc(s, run, a);
    u := R.Apply(t, a);
    if run == [] {
      assert [a] == run + [a];
    }
  }

  /** The state once the caller's events are known. */
  function Asked(s: R.State, ask: R.Ask, events: bv32): R.State {
    s.(events := R.EventsWith(s, ask, events))
  }

  /** Loop and state when a thread comes to ask for something: they agree, the channel's events included. */
  ghost predicate MayAsk(loop: EventLoop, s: R.State, channel: Channel, kind: Kind, name: Channel -> R.Chan)
    reads channel, loop, loop.queue, loop.channelMap, loop.channelMap.entries, loop.dispatcher.eventSet,
          set e | e in loop.queue :: e.channel
  {
    var s1 := Asked(s, R.Ask(kind, name(channel)), channel.events);
    Represents(loop, s1, name) && Known(s1, channel, name) && !s.isHandlePending && s.holder == R.Nobody
  }

  /** `event_loop_do_channel_event` in another thread: the four steps of a producer. */
  method AskFromThread(loop: EventLoop, channel: Channel, kind: Kind, ghost p: nat, ghost s: R.State,
                       ghost name: Channel -> R.Chan)
      returns (ghost s': R.State)
    requires MayAsk(loop, s, channel, kind, name)
    requires R.Enabled(s, R.Call(p, R.Ask(kind, name(channel)), channel.events))
    modifies loop, loop.pendingTail, loop.channelMap, loop.channelMap.entries, loop.dispatcher.eventSet
    ensures loop.channelMap.entries == old(loop.channelMap.entries) || fresh(loop.channelMap.entries)
    ensures R.After(s, OtherSteps(p, R.Ask(kind, name(channel)), channel.events)) == Some(s')
    ensures Represents(loop, s', name)
  {
    hide DemandsAll, ApplyAll, Requests, EventLoop.Valid, R.After, R.Enabled, R.EventsWith, SameQueue, OtherSteps;
    ghost var ask := R.Ask(kind, name(channel));
    OtherIsRun(s, p, ask, channel.events);
    s' := R.After(s, OtherSteps(p, ask, channel.events)).value;
    ghost var before := loop.queue;
    assert SameQueue(Asked(s, ask, channel.events), before, name);
    loop.DoChannelEvent(channel, kind, false);
    assert SameQueue(Asked(s, ask, channel.events), before, name);
    assert Requests(before) == old(Requests(loop.queue));
    SameQueueIs(Asked(s, ask, channel.events), before, name);
    assert SameAsks(s', Requests(loop.queue), name);
    SameQueueIs(s', loop.queue, name);
  }

  /** The same in the owner thread, from a callback: it asks, and drains the whole queue at once. */
  method AskFromOwner(loop: EventLoop, channel: Channel, kind: Kind, ghost s: R.State, ghost name: Channel -> R.Chan)
      returns (ghost s': R.State)
    requires MayAsk(loop, s, channel, kind, name) && s.cursor == 0
    requires R.Enabled(s, R.OwnCall(R.Ask(kind, name(channel)), channel.events))
    requires DemandsAll(loop.Table(), loop.With(kind, channel))
    modifies loop, loop.pendingTail, loop.channelMap, loop.channelMap.entries, loop.dispatcher.eventSet
    ensures loop.channelMap.entries == old(loop.channelMap.entries) || fresh(loop.channelMap.entries)
    ensures R.After(s, OwnSteps(R.Ask(kind, name(channel)), channel.events) + Drain(|s.pending| + 1)) == Some(s')
    ensures Represents(loop, s', name) && s'.owner == R.Dispatching
    ensures s'.applied == s.applied + s.pending + [R.Ask(kind, name(channel))] && s'.faulted == s.faulted
  {
    hide DemandsAll, ApplyAll, Requests, EventLoop.Valid, R.After, R.Enabled, R.EventsWith, Drain, OwnSteps;
    ghost var ask := R.Ask(kind, name(channel));
    OwnIsRun(s, ask, channel.events);
    ghost var asked := R.After(s, OwnSteps(ask, channel.events)).value;
    SameQueueIs(Asked(s, ask, channel.events), loop.queue, name);
    QueueIsUpToDate(loop.queue);
    ghost var rs := loop.With(kind, channel);
    assert SameAsks(asked, rs, name) && UpToDate(rs);
    AsksAreNow(asked, rs, name);
    ApplyAllRenamed(loop.Table(), rs, name);
    DrainIsRun(asked);
    AfterAppend(s, OwnSteps(ask, channel.events), Drain(|s.pending| + 1));
    s' := R.After(asked, Drain(|s.pending| + 1)).value;
    loop.DoChannelEvent(channel, kind, true);
  }
}
