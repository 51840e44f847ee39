/** The owner's side of an event loop (test_epoll/lib/event_loop.c, poll_dispatcher.c, channel_map.c,
    channel.c): the linked list of requests, the growing map and the slot array, changed in place.
    Each method is tied to the value functions of EventTable. The mutex and the interleaving are in
    Reactor. */
module EventLoop {
  import opened Wrappers
  import opened EventTable

  class Channel {
    const fd: int
    var events: bv32

    constructor (fd: int, events: bv32)
      ensures this.fd == fd && this.events == events
    {
      this.fd := fd;
      this.events := events;
    }

    predicate WriteEnabled()
      reads this
    {
      HasWrite(events)
    }
  }

  lemma SlotIs(slots: seq<PollFd>, i: nat, events: bv32)
    requires i < |slots| && slots[i].events == Translate(events)
    ensures WatchedFor(slots, slots[i].fd, events)
  {
    hide Translate;
    MaskBits(events);
  }

  class PollDispatcher {
    const eventSet: array<PollFd>

    ghost predicate Valid() {
      eventSet.Length == INIT_POLL_SIZE
    }

    constructor ()
      ensures Valid() && fresh(eventSet)
      ensures forall i :: 0 <= i < INIT_POLL_SIZE ==> eventSet[i] == PollFd(-1, 0)
    {
      eventSet := new PollFd[INIT_POLL_SIZE](_ => PollFd(-1, 0));
    }

    method Add(channel: Channel)
      requires Valid()
      modifies eventSet
      ensures eventSet[..] == PollAdd(old(eventSet[..]), channel.fd, Translate(channel.events))
      ensures HasFree(old(eventSet[..])) ==> WatchedFor(eventSet[..], channel.fd, channel.events)
    {
      hide Translate, WatchedFor;
      MaskBits(channel.events);
      ghost var before := eventSet[..];
      var i := 0;
      while i < INIT_POLL_SIZE
        invariant 0 <= i <= INIT_POLL_SIZE && eventSet[..] == before
        invariant FreeFrom(before, 0) == FreeFrom(before, i)
      {
        if eventSet[i].fd < 0 {
          eventSet[i] := PollFd(channel.fd, Translate(channel.events));
          assert eventSet[..] == before[i := PollFd(channel.fd, Translate(channel.events))];
          SlotIs(eventSet[..], i, channel.events);
          return;
        }
        i := i + 1;
      }
    }

    method Del(channel: Channel)
      requires Valid()
      modifies eventSet
      ensures eventSet[..] == PollDel(old(eventSet[..]), channel.fd)
    {
      ghost var before := eventSet[..];
      var i := 0;
      while i < INIT_POLL_SIZE
        invariant 0 <= i <= INIT_POLL_SIZE && eventSet[..] == before
        invariant SlotFrom(before, channel.fd, 0) == SlotFrom(before, channel.fd, i)
      {
        if eventSet[i].fd == channel.fd {
          eventSet[i] := eventSet[i].(fd := -1);
          assert eventSet[..] == before[i := before[i].(fd := -1)];
          return;
        }
        i := i + 1;
      }
    }

    method Update(channel: Channel)
      requires Valid()
      modifies eventSet
      ensures eventSet[..] == PollUpdate(old(eventSet[..]), channel.fd, Translate(channel.events))
      ensures Polled(old(eventSet[..]), channel.fd) ==> WatchedFor(eventSet[..], channel.fd, channel.events)
    {
      hide Translate, WatchedFor;
      MaskBits(channel.events);
      ghost var before := eventSet[..];
      var i := 0;
      while i < INIT_POLL_SIZE
        invariant 0 <= i <= INIT_POLL_SIZE && eventSet[..] == before
        invariant SlotFrom(before, channel.fd, 0) == SlotFrom(before, channel.fd, i)
      {
        if eventSet[i].fd == channel.fd {
          eventSet[i] := eventSet[i].(events := Translate(channel.events));
          assert eventSet[..] == before[i := before[i].(events := Translate(channel.events))];
          SlotIs(eventSet[..], i, channel.events);
          return;
        }
        i := i + 1;
      }
    }
  }

  class ChannelMap {
    var entries: array<Option<Channel>>
    var nentries: nat

    /** The map lists a channel under its own descriptor. */
    ghost predicate Valid()
      reads this, entries
    {
      entries.Length == nentries &&
      forall fd :: 0 <= fd < nentries && entries[fd].Some? ==> entries[fd].value.fd == fd
    }

    constructor ()
      ensures Valid() && fresh(entries) && nentries == 0
    {
      entries, nentries := new Option<Channel>[0], 0;
    }

    /** `map_make_space`, where allocation succeeds. */
    method MakeSpace(slot: nat)
      requires Valid() && slot < MAP_LIMIT
      modifies this
      ensures Valid() && slot < nentries && entries[..] == Grown(old(entries[..]), slot)
      ensures entries == old(entries) || fresh(entries)
    {
      if nentries <= slot {
        var n := if nentries != 0 then nentries else INIT_MAP_SIZE;
        ghost var start := n;
        while n <= slot
          invariant n > 0 && Doubled(n, slot) == Doubled(start, slot)
          decreases slot + 1 - n
        {
          n := 2 * n;
        }
        var tmp := new Option<Channel>[n](_ => None);
        forall k | 0 <= k < nentries {
          tmp[k] := entries[k];
        }
        assert tmp[..] == entries[..] + seq(n - nentries, _ => None);
        nentries := n;
        entries := tmp;
      }
    }
  }

  class ChannelElement {
    const kind: Kind
    const channel: Channel
    var next: ChannelElement?

    constructor (kind: Kind, channel: Channel)
      ensures this.kind == kind && this.channel == channel && next == null
    {
      this.kind := kind;
      this.channel := channel;
      next := null;
    }
  }

  /** The request with the mask its channel's events have now. */
  ghost function RequestOf(e: ChannelElement): Request<Channel>
    reads e.channel
  {
    Request(e.kind, e.channel.fd, e.channel, Translate(e.channel.events))
  }

  ghost function Requests(queue: seq<ChannelElement>): (rs: seq<Request<Channel>>)
    reads set e | e in queue :: e.channel
    ensures |rs| == |queue|
  {
    if queue == [] then [] else Requests(queue[..|queue| - 1]) + [RequestOf(queue[|queue| - 1])]
  }

  lemma RequestsSnoc(before: seq<ChannelElement>, queue: seq<ChannelElement>)
    requires |queue| == |before| + 1 && queue[..|before|] == before
    ensures Requests(queue) == Requests(before) + [RequestOf(queue[|before|])]
  {
  }

  lemma {:induction false} RequestsAt(queue: seq<ChannelElement>, i: nat)
    requires i < |queue|
    ensures Requests(queue)[i] == RequestOf(queue[i])
  {
    if i < |queue| - 1 {
      RequestsAt(queue[..|queue| - 1], i);
    }
  }

  /** The request says what the element says; its mask is another matter. */
  ghost predicate IsAbout(r: Request<Channel>, e: ChannelElement) {
    r.kind == e.kind && r.fd == e.channel.fd && r.channel == e.channel
  }

  lemma RequestsAreAbout(queue: seq<ChannelElement>)
    ensures forall i :: 0 <= i < |queue| ==> IsAbout(Requests(queue)[i], queue[i])
  {
    forall i | 0 <= i < |queue|
      ensures IsAbout(Requests(queue)[i], queue[i])
    {
      RequestsAt(queue, i);
    }
  }

  lemma {:induction false} DemandsPrefix<C>(t: Table<C>, rs: seq<Request<C>>, k: nat)
    requires DemandsAll(t, rs) && k < |rs|
    ensures DemandsAll(t, rs[..k]) && Demands(ApplyAll(t, rs[..k]), rs[k])
    ensures DemandsAll(t, rs[..k + 1]) && ApplyAll(t, rs[..k + 1]) == Apply(ApplyAll(t, rs[..k]), rs[k])
    decreases |rs|
  {
    var before := rs[..|rs| - 1];
    if k == |rs| - 1 {
      assert rs[..k + 1] == rs;
    } else {
      assert before[..k] == rs[..k] && before[..k + 1] == rs[..k + 1];
      DemandsPrefix(t, before, k);
    }
  }

  lemma OneRequest<C>(t: Table<C>, r: Request<C>)
    requires Demands(t, r)
    ensures DemandsAll(t, [] + [r]) && ApplyAll(t, [] + [r]) == Apply(t, r)
  {
    hide Apply, Demands;
    var rs := [] + [r];
    assert rs[..|rs| - 1] == [] && rs[|rs| - 1] == r;
  }

  class EventLoop {
    const channelMap: ChannelMap
    const dispatcher: PollDispatcher
    /** The source keeps this channel in the map alone. */
    const wakeChannel: Channel
    var isHandlePending: bool
    var pendingHead: ChannelElement?
    var pendingTail: ChannelElement?
    var wakeBytes: nat
    ghost var queue: seq<ChannelElement>

    /** Map and slots. */
    ghost function Table(): Table<Channel>
      reads channelMap, channelMap.entries, dispatcher.eventSet
    {
      EventTable.Table(channelMap.entries[..], dispatcher.eventSet[..])
    }

    /** The links from head to tail spell the queue. */
    ghost predicate WellLinked()
      reads this, queue
    {
      if queue == [] then
        pendingHead == null && pendingTail == null
      else
        && pendingHead == queue[0] && pendingTail == queue[|queue| - 1]
        && queue[|queue| - 1].next == null
        && (forall i :: 0 <= i < |queue| - 1 ==> queue[i].next == queue[i + 1])
        && (forall i, j :: 0 <= i < j < |queue| ==> queue[i] != queue[j])
    }

    ghost predicate Valid()
      reads this, queue, channelMap, channelMap.entries
    {
      channelMap.Valid() && dispatcher.Valid() && WellLinked()
    }

    /** `event_loop_init`, in the owner thread: the wake-up channel, whose descriptor is `wakeFd`, is
        registered at once. */
    constructor (wakeFd: int)
      requires 0 <= wakeFd < MAP_LIMIT
      ensures Valid() && fresh(channelMap) && fresh(channelMap.entries) && fresh(dispatcher.eventSet)
      ensures !isHandlePending && queue == [] && wakeBytes == 0 && fresh(wakeChannel)
      ensures wakeChannel.fd == wakeFd && wakeChannel.events == EVENT_READ
      ensures Table() == Apply(NewTable(), Request(Add, wakeFd, wakeChannel, Translate(EVENT_READ)))
      ensures Holds(Table(), map[wakeFd := wakeChannel]) && WillHold(map[wakeFd := wakeChannel])
      ensures WatchedFor(Table().slots, wakeFd, 0x02)
    {
      hide Watches, WatchedFor, Translate, Apply, Holds, DemandsAll, ApplyAll, Demands;
      channelMap := new ChannelMap();
      dispatcher := new PollDispatcher();
      isHandlePending, pendingHead, pendingTail, wakeBytes, queue := false, null, null, 0, [];
      wakeChannel := new Channel(wakeFd, EVENT_READ);
      new;
      ghost var add := Request(Add, wakeFd, wakeChannel, Translate(EVENT_READ));
      assert Table() == NewTable();
      NewHoldsNothing<Channel>();
      EmptyBatch(Table(), []);
      BatchKeepsHolds(Table(), [], map[], add);
      LegalKeepsHolds(Table(), map[], add);
      OneRequest(Table(), add);
      DoChannelEvent(wakeChannel, Add, true);
      EmptyBatch(Table(), Requests([]));
      WatchesBits(Table().slots, wakeFd, EVENT_READ);
    }

    method HandlePendingAdd(fd: int, channel: Channel) returns (status: int)
      requires Valid() && fd == channel.fd
      requires Demands(Table(), Request(Add, fd, channel, Translate(channel.events)))
      modifies channelMap, channelMap.entries, dispatcher.eventSet
      ensures Valid() && (channelMap.entries == old(channelMap.entries) || fresh(channelMap.entries))
      ensures var r := Request(Add, fd, channel, Translate(channel.events));
              status == Status(old(Table()), r) && Table() == Apply(old(Table()), r)
    {
      if fd < 0 {
        return 0;
      }
      if fd >= channelMap.nentries {
        channelMap.MakeSpace(fd);
      }
      hide Grown, PollAdd, Translate, WellLinked;
      if channelMap.entries[fd].None? {
        channelMap.entries[fd] := Some(channel);
        dispatcher.Add(channel);
        return 1;
      }
      return 0;
    }

    method HandlePendingRemove(fd: int, channel: Channel) returns (status: int)
      requires Valid() && fd == channel.fd
      requires Demands(Table(), Request(Remove, fd, channel, Translate(channel.events)))
      modifies channelMap.entries, dispatcher.eventSet
      ensures Valid()
      ensures var r := Request(Remove, fd, channel, Translate(channel.events));
              status == Status(old(Table()), r) && Table() == Apply(old(Table()), r)
    {
      if fd < 0 {
        return 0;
      }
      if fd >= channelMap.nentries {
        return -1;
      }
      var channel2 := channelMap.entries[fd].value;
      dispatcher.Del(channel2);
      channelMap.entries[fd] := None;
      return 1;
    }

    method HandlePendingUpdate(fd: int, channel: Channel) returns (status: int)
      requires Valid() && fd == channel.fd
      requires Demands(Table(), Request(Update, fd, channel, Translate(channel.events)))
      modifies dispatcher.eventSet
      ensures Valid()
      ensures var r := Request(Update, fd, channel, Translate(channel.events));
              status == Status(old(Table()), r) && Table() == Apply(old(Table()), r)
    {
      if fd < 0 {
        return 0;
      }
      if channelMap.entries[fd].None? {
        return -1;
      }
      dispatcher.Update(channel);
      return 0;
    }

    /** Lines 18-26: one element of the list. */
    method HandleElement(e: ChannelElement)
      requires Valid() && Demands(Table(), RequestOf(e))
      modifies channelMap, channelMap.entries, dispatcher.eventSet
      ensures Valid() && (channelMap.entries == old(channelMap.entries) || fresh(channelMap.entries))
      ensures Table() == Apply(old(Table()), RequestOf(e))
    {
      var channel, status := e.channel, 0;
      match e.kind {
        case Add => status := HandlePendingAdd(channel.fd, channel);
        case Remove => status := HandlePendingRemove(channel.fd, channel);
        case Update => status := HandlePendingUpdate(channel.fd, channel);
      }
    }

    /** Lines 15-28: from the head to the end of the list. */
    method HandleList()
      requires Valid() && DemandsAll(Table(), Requests(queue))
      modifies channelMap, channelMap.entries, dispatcher.eventSet
      ensures Valid() && (channelMap.entries == old(channelMap.entries) || fresh(channelMap.entries))
      ensures Table() == ApplyAll(old(Table()), old(Requests(queue)))
    {
      hide Apply, ApplyAll, DemandsAll, Demands, RequestOf, ChannelMap.Valid, Table, Requests;
      ghost var rs, t, i := Requests(queue), Table(), 0;
      EmptyBatch(t, rs[..0]);
      var e := pendingHead;
      while e != null
        invariant 0 <= i <= |queue| && e == (if i < |queue| then queue[i] else null)
        invariant Valid() && (channelMap.entries == old(channelMap.entries) || fresh(channelMap.entries))
        invariant DemandsAll(t, rs[..i]) && Table() == ApplyAll(t, rs[..i])
        decreases |queue| - i
      {
        DemandsPrefix(t, rs, i);
        RequestsAt(queue, i);
        HandleElement(e);
        e := e.next;
        i := i + 1;
      }
      assert rs[..i] == rs;
    }

    /** `event_loop_handle_pending_channel`: the whole list is carried out in order and dropped. */
    method HandlePendingChannel()
      requires Valid() && DemandsAll(Table(), Requests(queue))
      modifies this, channelMap, channelMap.entries, dispatcher.eventSet
      ensures Valid() && queue == [] && !isHandlePending && wakeBytes == old(wakeBytes)
      ensures channelMap.entries == old(channelMap.entries) || fresh(channelMap.entries)
      ensures Table() == ApplyAll(old(Table()), old(Requests(queue)))
    {
      hide Apply, ApplyAll, DemandsAll, Requests, ChannelMap.Valid, Table;
      isHandlePending := true;
      HandleList();
      pendingHead, pendingTail, queue := null, null, [];
      isHandlePending := false;
    }

    /** `event_loop_channel_buffer_nolock`. */
    method ChannelBufferNolock(channel: Channel, kind: Kind)
      requires Valid()
      modifies this, pendingTail
      ensures Valid() && wakeBytes == old(wakeBytes) && isHandlePending == old(isHandlePending)
      ensures |queue| == |old(queue)| + 1 && queue[..|old(queue)|] == old(queue)
      ensures var e := queue[|old(queue)|];
              fresh(e) && e.kind == kind && e.channel == channel
    {
      hide ChannelMap.Valid, PollDispatcher.Valid;
      var e := new ChannelElement(kind, channel);
      if pendingHead == null {
        pendingHead := e;
        pendingTail := e;
      } else {
        pendingTail.next := e;
        pendingTail := e;
      }
      queue := queue + [e];
    }

    /** The requests that are drained when `channel` is asked for now: those queued before and the
        new one, with the masks of this moment. */
    ghost function With(kind: Kind, channel: Channel): seq<Request<Channel>>
      reads this, channel, set e | e in queue :: e.channel
    {
      Requests(queue) + [Request(kind, channel.fd, channel, Translate(channel.events))]
    }

    /** `event_loop_do_channel_event`: from another thread the request is queued and a wake-up byte
        written; from the owner the queue is drained at once. */
    method DoChannelEvent(channel: Channel, kind: Kind, inSameThread: bool)
      requires Valid() && !isHandlePending
      requires inSameThread ==> DemandsAll(Table(), With(kind, channel))
      modifies this, pendingTail, channelMap, channelMap.entries, dispatcher.eventSet
      ensures Valid() && !isHandlePending
      ensures channelMap.entries == old(channelMap.entries) || fresh(channelMap.entries)
      ensures inSameThread ==> queue == [] && wakeBytes == old(wakeBytes)
      ensures inSameThread ==> Table() == ApplyAll(old(Table()), old(With(kind, channel)))
      ensures !inSameThread ==> wakeBytes == old(wakeBytes) + 1 && Table() == old(Table())
      ensures !inSameThread ==> Requests(queue) == old(With(kind, channel))
    {
      hide ChannelMap.Valid, PollDispatcher.Valid, Table, DemandsAll, ApplyAll, Requests;
      ghost var before := queue;
      ChannelBufferNolock(channel, kind);
      RequestsSnoc(before, queue);
      if !inSameThread {
        wakeBytes := wakeBytes + 1;
      } else {
        HandlePendingChannel();
      }
    }

    /** Once what is queued has been carried out, the table holds the registry. */
    ghost predicate WillHold(registry: map<int, Channel>)
      reads this, channelMap, channelMap.entries, dispatcher.eventSet, set e | e in queue :: e.channel
    {
      DemandsAll(Table(), Requests(queue)) && Holds(ApplyAll(Table(), Requests(queue)), registry)
    }

    /** A channel's events change and the loop is told (channel.c lines 20-30), in the owner thread:
        when the call returns, its slot has the new mask. */
    method ChangeEvents(channel: Channel, events: bv32, ghost registry: map<int, Channel>)
      requires Valid() && !isHandlePending
      requires WillHold(registry) && Legal(registry, Request(Update, channel.fd, channel, 0))
      modifies channel, this, pendingTail, channelMap, channelMap.entries, dispatcher.eventSet
      ensures Valid() && !isHandlePending && queue == [] && wakeBytes == old(wakeBytes)
      ensures channelMap.entries == old(channelMap.entries) || fresh(channelMap.entries)
      ensures channel.events == events
      ensures WillHold(registry) && Holds(Table(), registry) && WatchedFor(Table().slots, channel.fd, events)
    {
      hide Holds, DemandsAll, ApplyAll, Apply, Watches, WatchedFor, Translate, Requests, Table, IsAbout,
           ChannelMap.Valid;
      ghost var before := Requests(queue);
      RequestsAreAbout(queue);
      channel.events := events;
      SettleWith(before, registry, Request(Update, channel.fd, channel, Translate(events)));
      DoChannelEvent(channel, Update, true);
      EmptyBatch(Table(), Requests([]));
      WatchesBits(Table().slots, channel.fd, events);
    }

    /** The requests of the queue may have got new masks; a further legal request still fits. */
    lemma SettleWith(before: seq<Request<Channel>>, registry: map<int, Channel>, r: Request<Channel>)
      requires |before| == |queue| && forall i :: 0 <= i < |queue| ==> IsAbout(before[i], queue[i])
      requires DemandsAll(Table(), before) && Holds(ApplyAll(Table(), before), registry) && Legal(registry, r)
      ensures DemandsAll(Table(), Requests(queue) + [r])
      ensures Holds(ApplyAll(Table(), Requests(queue) + [r]), Noted(registry, r))
      ensures r.kind != Remove ==> Watches(ApplyAll(Table(), Requests(queue) + [r]).slots, r.fd, r.mask)
    {
      hide Holds, Watches, Legal, DemandsAll, ApplyAll, Table, SameButMasks;
      var now, t := Requests(queue), Table();
      RequestsAreAbout(queue);
      assert forall i :: 0 <= i < |now| ==> IsAbout(before[i], queue[i]) && IsAbout(now[i], queue[i]);
      MasksDoNotMatter(t, before, now);
      SameHolds(ApplyAll(t, before), ApplyAll(t, now), registry);
      BatchKeepsHolds(t, now, registry, r);
    }

    /** A channel joins the loop, from any thread: it is registered at the latest with the next drain. */
    method AddChannel(channel: Channel, inSameThread: bool, ghost registry: map<int, Channel>)
      requires Valid() && !isHandlePending
      requires WillHold(registry) && Legal(registry, Request(Add, channel.fd, channel, 0))
      modifies this, pendingTail, channelMap, channelMap.entries, dispatcher.eventSet
      ensures Valid() && !isHandlePending
      ensures channelMap.entries == old(channelMap.entries) || fresh(channelMap.entries)
      ensures WillHold(registry[channel.fd := channel])
      ensures wakeBytes == old(wakeBytes) + if inSameThread then 0 else 1
      ensures inSameThread ==> queue == [] && WatchedFor(Table().slots, channel.fd, channel.events)
    {
      hide Holds, DemandsAll, ApplyAll, Apply, Watches, WatchedFor, Translate, Requests, Table, ChannelMap.Valid;
      BatchKeepsHolds(Table(), Requests(queue), registry, Request(Add, channel.fd, channel, Translate(channel.events)));
      DoChannelEvent(channel, Add, inSameThread);
      EmptyBatch(Table(), Requests([]));
      if inSameThread {
        WatchesBits(Table().slots, channel.fd, channel.events);
      }
    }

    /** A channel leaves the loop, in the owner thread. */
    method RemoveChannel(channel: Channel, ghost registry: map<int, Channel>)
      requires Valid() && !isHandlePending
      requires WillHold(registry) && Legal(registry, Request(Remove, channel.fd, channel, 0))
      modifies this, pendingTail, channelMap, channelMap.entries, dispatcher.eventSet
      ensures Valid() && !isHandlePending && queue == [] && wakeBytes == old(wakeBytes)
      ensures channelMap.entries == old(channelMap.entries) || fresh(channelMap.entries)
      ensures Holds(Table(), registry - {channel.fd})
    {
      BatchKeepsHolds(Table(), Requests(queue), registry,
            Request(Remove, channel.fd, channel, Translate(channel.events)));
      DoChannelEvent(channel, Remove, true);
    }
  }
}
