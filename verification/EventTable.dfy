/** What the owner thread of an event loop keeps (test_epoll/lib/event_loop.c lines 84-150,
    poll_dispatcher.c lines 58-141): the channels by descriptor and the slots handed to `poll`, as
    values. A channel is any type; EventLoop.dfy keeps the same state in arrays. */
module EventTable {
  import opened Wrappers

  const EVENT_READ: bv32 := 0x02
  const EVENT_WRITE: bv32 := 0x04
  const POLLRDNORM: bv16 := 0x0040
  const POLLWRNORM: bv16 := 0x0100

  const INIT_POLL_SIZE := 1024
  const INIT_MAP_SIZE := 32
  /** From here on `nentries * msize` leaves the range of `int`. */
  const MAP_LIMIT := 0x800_0000

  datatype PollFd = PollFd(fd: int, events: bv16)

  /** The poll mask of a channel's events (poll_dispatcher.c lines 64-71). */
  function Translate(events: bv32): bv16 {
    (if events & EVENT_READ != 0 then POLLRDNORM else 0) | (if events & EVENT_WRITE != 0 then POLLWRNORM else 0)
  }

  predicate HasWrite(events: bv32) {
    events & EVENT_WRITE != 0
  }

  function WithWrite(events: bv32, on: bool): bv32 {
    if on then events | EVENT_WRITE else events & !EVENT_WRITE
  }

  /** Only the interest in writing changes. */
  lemma WriteBit(events: bv32, on: bool)
    ensures HasWrite(WithWrite(events, on)) == on
    ensures WithWrite(WithWrite(events, on), false) == WithWrite(events, false)
    ensures WithWrite(events, on) & EVENT_READ == events & EVENT_READ
  {
  }

  // ---------- the slots ----------

  /** The first slot from `i` that holds the descriptor; a free slot holds -1. */
  function SlotFrom(slots: seq<PollFd>, fd: int, i: nat): (r: Option<nat>)
    requires i <= |slots|
    ensures r.Some? ==> i <= r.value < |slots| && slots[r.value].fd == fd
    ensures r.Some? ==> forall j :: i <= j < r.value ==> slots[j].fd != fd
    ensures r.None? ==> forall j :: i <= j < |slots| ==> slots[j].fd != fd
    decreases |slots| - i
  {
    if i == |slots| then None else if slots[i].fd == fd then Some(i) else SlotFrom(slots, fd, i + 1)
  }

  function FreeFrom(slots: seq<PollFd>, i: nat): (r: Option<nat>)
    requires i <= |slots|
    ensures r.Some? ==> i <= r.value < |slots| && slots[r.value].fd < 0
    ensures r.Some? ==> forall j :: i <= j < r.value ==> slots[j].fd >= 0
    ensures r.None? ==> forall j :: i <= j < |slots| ==> slots[j].fd >= 0
    decreases |slots| - i
  {
    if i == |slots| then None else if slots[i].fd < 0 then Some(i) else FreeFrom(slots, i + 1)
  }

  /** `poll_add`: without a free slot the descriptor is not watched, and nobody is told. */
  function PollAdd(slots: seq<PollFd>, fd: int, mask: bv16): seq<PollFd> {
    match FreeFrom(slots, 0)
    case Some(i) => slots[i := PollFd(fd, mask)]
    case None => slots
  }

  function PollDel(slots: seq<PollFd>, fd: int): seq<PollFd> {
    match SlotFrom(slots, fd, 0)
    case Some(i) => slots[i := slots[i].(fd := -1)]
    case None => slots
  }

  function PollUpdate(slots: seq<PollFd>, fd: int, mask: bv16): seq<PollFd> {
    match SlotFrom(slots, fd, 0)
    case Some(i) => slots[i := slots[i].(events := mask)]
    case None => slots
  }

  // ---------- the map ----------

  /** The doubling of `map_make_space`. */
  function Doubled(n: nat, slot: nat): (r: nat)
    requires n > 0
    ensures r >= n && r > slot
    ensures r == n || r / 2 <= slot
    decreases if n <= slot then slot + 1 - n else 0
  {
    if n <= slot then Doubled(2 * n, slot) else n
  }

  function Grown<C>(entries: seq<Option<C>>, slot: nat): (r: seq<Option<C>>)
    ensures |r| > slot && |r| >= |entries|
    ensures forall fd :: 0 <= fd < |entries| ==> r[fd] == entries[fd]
    ensures forall fd :: |entries| <= fd < |r| ==> r[fd] == None
  {
    if slot < |entries| then entries
    else entries + seq(Doubled(if |entries| > 0 then |entries| else INIT_MAP_SIZE, slot) - |entries|, _ => None)
  }

  // ---------- the requests ----------

  datatype Kind = Add | Remove | Update

  /** A request as it is carried out: the mask is that of the channel's events at that moment. */
  datatype Request<C> = Request(kind: Kind, fd: int, channel: C, mask: bv16)

  datatype Table<C> = Table(entries: seq<Option<C>>, slots: seq<PollFd>)

  predicate Live<C>(t: Table<C>, fd: int) {
    0 <= fd < |t.entries| && t.entries[fd].Some?
  }

  /** What the code demands of a request: an add must keep the size of the map in an `int`, a remove
      of an absent entry would follow a null pointer, an update of a descriptor past the map would
      read past its end. */
  predicate Demands<C>(t: Table<C>, r: Request<C>) {
    r.fd >= 0 ==>
      match r.kind
      case Add => r.fd < MAP_LIMIT
      case Remove => r.fd < |t.entries| ==> Live(t, r.fd)
      case Update => r.fd < |t.entries|
  }

  function Apply<C>(t: Table<C>, r: Request<C>): Table<C>
    requires Demands(t, r)
  {
    if r.fd < 0 then t
    else match r.kind
    case Add =>
      var entries := Grown(t.entries, r.fd);
      if entries[r.fd].None? then Table(entries[r.fd := Some(r.channel)], PollAdd(t.slots, r.fd, r.mask))
      else Table(entries, t.slots)
    case Remove =>
      if r.fd >= |t.entries| then t
      else Table(t.entries[r.fd := None], PollDel(t.slots, r.fd))
    case Update =>
      if t.entries[r.fd].None? then t
      else t.(slots := PollUpdate(t.slots, r.fd, r.mask))
  }

  /** The return value of the handler; an update that does its work returns nothing the callers
      could use. */
  function Status<C>(t: Table<C>, r: Request<C>): int
    requires Demands(t, r)
  {
    if r.fd < 0 then 0
    else match r.kind
    case Add => if Live(t, r.fd) then 0 else 1
    case Remove => if r.fd >= |t.entries| then -1 else 1
    case Update => if t.entries[r.fd].None? then -1 else 0
  }

  /** The handler answers 1 exactly when it has added or removed an entry, and -1 exactly when it is asked to
      remove or update a channel that is not there. */
  lemma StatusTells<C>(t: Table<C>, r: Request<C>)
    requires Demands(t, r) && r.fd >= 0
    ensures Status(t, r) == 1 <==> (Live(t, r.fd) <==> !Live(Apply(t, r), r.fd))
    ensures Status(t, r) == -1 <==> r.kind != Add && !Live(t, r.fd)
    ensures -1 <= Status(t, r) <= 1
  {
    hide PollAdd, PollDel, PollUpdate;
  }

  // ---------- map and slots agree ----------

  predicate Watches(slots: seq<PollFd>, fd: int, mask: bv16) {
    exists i :: 0 <= i < |slots| && slots[i] == PollFd(fd, mask)
  }

  predicate Polled(slots: seq<PollFd>, fd: int) {
    exists i :: 0 <= i < |slots| && slots[i].fd == fd
  }

  /** No descriptor sits in two slots. */
  predicate Distinct(slots: seq<PollFd>) {
    forall i, j :: 0 <= i < j < |slots| && slots[i].fd >= 0 ==> slots[i].fd != slots[j].fd
  }

  /** A descriptor has a channel exactly when it sits in a slot, and then in one slot only. */
  ghost predicate Agree<C>(t: Table<C>) {
    Distinct(t.slots) && forall fd: nat :: Live(t, fd) <==> Polled(t.slots, fd)
  }

  predicate HasFree(slots: seq<PollFd>) {
    exists i :: 0 <= i < |slots| && slots[i].fd < 0
  }

  lemma PollAddWatches(slots: seq<PollFd>, fd: nat, mask: bv16)
    requires Distinct(slots) && HasFree(slots) && !Polled(slots, fd)
    ensures Distinct(PollAdd(slots, fd, mask)) && |PollAdd(slots, fd, mask)| == |slots|
    ensures forall d: nat, m :: Watches(PollAdd(slots, fd, mask), d, m) <==>
                                if d == fd then m == mask else Watches(slots, d, m)
  {
    var i, slot := FreeFrom(slots, 0).value, PollFd(fd, mask);
    assert PollAdd(slots, fd, mask) == slots[i := slot] && slots[i].fd < 0;
    ReplaceWatches(slots, i, slot);
    assert slots[i := slot][i] == PollFd(fd, mask);
    assert Watches(slots[i := slot], fd, mask);
  }

  lemma PollDelWatches(slots: seq<PollFd>, fd: nat)
    requires Distinct(slots)
    ensures Distinct(PollDel(slots, fd)) && |PollDel(slots, fd)| == |slots|
    ensures forall d: nat, m :: Watches(PollDel(slots, fd), d, m) <==> d != fd && Watches(slots, d, m)
  {
    if SlotFrom(slots, fd, 0).Some? {
      var i := SlotFrom(slots, fd, 0).value;
      ReplaceWatches(slots, i, slots[i].(fd := -1));
    }
  }

  lemma PollUpdateWatches(slots: seq<PollFd>, fd: nat, mask: bv16)
    requires Distinct(slots) && Polled(slots, fd)
    ensures Distinct(PollUpdate(slots, fd, mask)) && |PollUpdate(slots, fd, mask)| == |slots|
    ensures forall d: nat, m :: Watches(PollUpdate(slots, fd, mask), d, m) <==>
                                if d == fd then m == mask else Watches(slots, d, m)
  {
    var i := SlotFrom(slots, fd, 0).value;
    ReplaceWatches(slots, i, PollFd(fd, mask));
  }

  /** One slot changes from one descriptor, or none, to another that no other slot holds. */
  lemma ReplaceWatches(slots: seq<PollFd>, i: nat, slot: PollFd)
    requires Distinct(slots) && i < |slots|
    requires slot.fd >= 0 ==> forall j :: 0 <= j < |slots| && j != i ==> slots[j].fd != slot.fd
    ensures Distinct(slots[i := slot])
    ensures forall d: nat, m :: Watches(slots[i := slot], d, m) <==>
                                if d == slot.fd then m == slot.events
                                else d != slots[i].fd && Watches(slots, d, m)
  {
    var after := slots[i := slot];
    forall d: nat, m
      ensures Watches(after, d, m) <==>
              if d == slot.fd then m == slot.events else d != slots[i].fd && Watches(slots, d, m)
    {
      if Watches(after, d, m) {
        var j :| 0 <= j < |after| && after[j] == PollFd(d, m);
        assert j != i ==> slots[j] == PollFd(d, m);
      }
      if d == slot.fd && m == slot.events {
        assert after[i] == PollFd(d, m);
      }
      if d != slot.fd && d != slots[i].fd && Watches(slots, d, m) {
        var j :| 0 <= j < |slots| && slots[j] == PollFd(d, m);
        assert after[j] == PollFd(d, m);
      }
    }
  }

  /** A poll mask, bit by bit: 0x0040 waits for reading, that is for event bit 0x02, and 0x0100 for writing,
      event bit 0x04; there are no others. */
  predicate IsMaskOf(mask: bv16, events: bv32) {
    && (mask & 0x0040 != 0 <==> events & 0x02 != 0)
    && (mask & 0x0100 != 0 <==> events & 0x04 != 0)
    && mask & 0xFEBF == 0
  }

  lemma MaskBits(events: bv32)
    ensures IsMaskOf(Translate(events), events)
  {
  }

  /** A slot of the descriptor waits for just these events. */
  predicate WatchedFor(slots: seq<PollFd>, fd: int, events: bv32) {
    exists i :: 0 <= i < |slots| && slots[i].fd == fd && IsMaskOf(slots[i].events, events)
  }

  /** A slot of the descriptor waits for reading. */
  predicate WatchedForReading(slots: seq<PollFd>, fd: int) {
    exists i :: 0 <= i < |slots| && slots[i].fd == fd && slots[i].events & 0x0040 != 0
  }

  lemma WatchesBits(slots: seq<PollFd>, fd: int, events: bv32)
    requires Watches(slots, fd, Translate(events))
    ensures WatchedFor(slots, fd, events)
    ensures events & 0x02 != 0 ==> WatchedForReading(slots, fd)
  {
    hide Translate;
    MaskBits(events);
    var i :| 0 <= i < |slots| && slots[i] == PollFd(fd, Translate(events));
    assert slots[i].fd == fd && IsMaskOf(slots[i].events, events);
  }

  lemma PolledIsWatched(slots: seq<PollFd>, fd: int)
    ensures Polled(slots, fd) <==> exists m :: Watches(slots, fd, m)
  {
    if Polled(slots, fd) {
      var i :| 0 <= i < |slots| && slots[i].fd == fd;
      assert slots[i] == PollFd(fd, slots[i].events);
      assert Watches(slots, fd, slots[i].events);
    }
  }

  /** The request puts a descriptor into the map for which there is no slot. */
  predicate Unwatched<C>(t: Table<C>, r: Request<C>) {
    r.kind == Add && r.fd >= 0 && !Live(t, r.fd) && !HasFree(t.slots)
  }

  /** What is watched after a request. */
  predicate WatchesAfter<C>(t: Table<C>, r: Request<C>, fd: nat, mask: bv16) {
    if fd != r.fd then Watches(t.slots, fd, mask)
    else match r.kind
    case Add => if Live(t, fd) then Watches(t.slots, fd, mask) else mask == r.mask
    case Remove => false
    case Update => Live(t, fd) && mask == r.mask
  }

  predicate LiveAfter<C>(t: Table<C>, r: Request<C>, fd: nat) {
    if fd != r.fd then Live(t, fd) else r.kind == Add || (r.kind == Update && Live(t, fd))
  }

  lemma ApplyWatches<C>(t: Table<C>, r: Request<C>)
    requires Agree(t) && Demands(t, r) && !Unwatched(t, r)
    ensures |Apply(t, r).slots| == |t.slots| && Distinct(Apply(t, r).slots)
    ensures forall fd: nat, m :: Watches(Apply(t, r).slots, fd, m) <==> WatchesAfter(t, r, fd, m)
  {
    if r.fd >= 0 {
      hide PollAdd, PollDel, PollUpdate, Distinct, HasFree;
      match r.kind {
        case Add => if !Live(t, r.fd) { PollAddWatches(t.slots, r.fd, r.mask); }
        case Remove =>
          PolledIsWatched(t.slots, r.fd);
          PollDelWatches(t.slots, r.fd);
        case Update =>
          PolledIsWatched(t.slots, r.fd);
          if Live(t, r.fd) { PollUpdateWatches(t.slots, r.fd, r.mask); }
      }
    }
  }

  /** Growth and requests for other descriptors lose no entry. */
  lemma ApplyKeepsEntries<C>(t: Table<C>, r: Request<C>, fd: nat)
    requires Demands(t, r)
    ensures Live(Apply(t, r), fd) <==> LiveAfter(t, r, fd)
    ensures Live(t, fd) && Live(Apply(t, r), fd) ==> Apply(t, r).entries[fd] == t.entries[fd]
    ensures r.kind == Add && fd == r.fd && !Live(t, fd) ==> Apply(t, r).entries[fd] == Some(r.channel)
  {
  }

  lemma LiveIsWatched<C>(t: Table<C>, r: Request<C>, fd: nat)
    requires Agree(t)
    ensures LiveAfter(t, r, fd) <==> exists m :: WatchesAfter(t, r, fd, m)
  {
    PolledIsWatched(t.slots, fd);
    if LiveAfter(t, r, fd) {
      if fd != r.fd || (r.kind == Add && Live(t, fd)) {
        var m :| Watches(t.slots, fd, m);
        assert WatchesAfter(t, r, fd, m);
      } else {
        assert WatchesAfter(t, r, fd, r.mask);
      }
    }
  }

  /** A request keeps map and slots in agreement exactly when it does not add a descriptor for which
      there is no slot. */
  lemma AgreementKeptExactly<C>(t: Table<C>, r: Request<C>)
    requires Agree(t) && Demands(t, r)
    ensures Agree(Apply(t, r)) <==> !Unwatched(t, r)
  {
    var t' := Apply(t, r);
    if Unwatched(t, r) {
      ApplyKeepsEntries(t, r, r.fd);
      assert t'.slots == t.slots;
      assert Live(t', r.fd) && !Polled(t'.slots, r.fd);
    } else {
      hide Apply, Distinct, HasFree;
      ApplyWatches(t, r);
      forall fd: nat
        ensures Live(t', fd) <==> Polled(t'.slots, fd)
      {
        ApplyKeepsEntries(t, r, fd);
        PolledIsWatched(t.slots, fd);
        PolledIsWatched(t'.slots, fd);
        LiveIsWatched(t, r, fd);
      }
    }
  }

  // ---------- how many descriptors fit ----------

  ghost function LiveFds<C>(t: Table<C>): set<int> {
    set fd | 0 <= fd < |t.entries| && Live(t, fd)
  }

  function PolledFds(slots: seq<PollFd>): set<int> {
    set i | 0 <= i < |slots| && slots[i].fd >= 0 :: slots[i].fd
  }

  lemma {:induction false} SlotsAreCounted(slots: seq<PollFd>)
    requires Distinct(slots)
    ensures |PolledFds(slots)| <= |slots| && (|PolledFds(slots)| < |slots| <==> HasFree(slots))
  {
    hide PolledFds, HasFree, Distinct;
    if slots == [] {
      NoSlots(slots);
    } else {
      LastSlot(slots);
      SlotsAreCounted(slots[..|slots| - 1]);
    }
  }

  lemma NoSlots(slots: seq<PollFd>)
    requires slots == []
    ensures PolledFds(slots) == {} && !HasFree(slots)
  {
  }

  lemma LastSlot(slots: seq<PollFd>)
    requires Distinct(slots) && slots != []
    ensures var before, fd := slots[..|slots| - 1], slots[|slots| - 1].fd;
            && Distinct(before) && (HasFree(slots) <==> HasFree(before) || fd < 0)
            && PolledFds(slots) == PolledFds(before) + (if fd >= 0 then {fd} else {})
            && fd !in PolledFds(before)
  {
    var n := |slots| - 1;
    var before := slots[..n];
    assert forall i :: 0 <= i < n ==> before[i] == slots[i];
    if HasFree(before) {
      var i :| 0 <= i < n && before[i].fd < 0;
      assert slots[i].fd < 0;
    }
    forall d: int
      ensures d in PolledFds(slots) <==> d in PolledFds(before) || (d == slots[n].fd && d >= 0)
    {
      if d in PolledFds(before) {
        var i :| 0 <= i < n && before[i].fd >= 0 && before[i].fd == d;
        assert slots[i].fd == d;
      }
    }
  }

  /** There is a free slot exactly while fewer descriptors are live than there are slots. */
  lemma FreeSlotExactly<C>(t: Table<C>)
    requires Agree(t)
    ensures HasFree(t.slots) <==> |LiveFds(t)| < |t.slots|
  {
    SlotsAreCounted(t.slots);
    assert LiveFds(t) == PolledFds(t.slots) by {
      forall fd: int
        ensures fd in LiveFds(t) <==> fd in PolledFds(t.slots)
      {
        if fd >= 0 {
          assert Live(t, fd) <==> Polled(t.slots, fd);
        }
      }
    }
  }

  // ---------- whole batches ----------

  ghost predicate DemandsAll<C>(t: Table<C>, rs: seq<Request<C>>)
    decreases |rs|, 0
  {
    rs == [] || (DemandsAll(t, rs[..|rs| - 1]) && Demands(ApplyAll(t, rs[..|rs| - 1]), rs[|rs| - 1]))
  }

  ghost function ApplyAll<C>(t: Table<C>, rs: seq<Request<C>>): Table<C>
    requires DemandsAll(t, rs)
    decreases |rs|, 1
  {
    if rs == [] then t else Apply(ApplyAll(t, rs[..|rs| - 1]), rs[|rs| - 1])
  }

  lemma EmptyBatch<C>(t: Table<C>, rs: seq<Request<C>>)
    requires rs == []
    ensures DemandsAll(t, rs) && ApplyAll(t, rs) == t
  {
  }

  /** The channels the callers mean to have registered. */
  function Noted<C>(registry: map<int, C>, r: Request<C>): map<int, C> {
    match r.kind
    case Add => registry[r.fd := r.channel]
    case Remove => registry - {r.fd}
    case Update => registry
  }

  /** What a careful caller asks for: a new descriptor while fewer than 1024 are registered, or
      something about its own registered channel. */
  predicate Legal<C(==)>(registry: map<int, C>, r: Request<C>) {
    && r.fd >= 0
    && match r.kind
       case Add => r.fd < MAP_LIMIT && r.fd !in registry && |registry| < INIT_POLL_SIZE
       case _ => r.fd in registry && registry[r.fd] == r.channel
  }

  /** The table holds just the registered channels, each watched through one slot. */
  ghost predicate Holds<C>(t: Table<C>, registry: map<int, C>) {
    && |t.slots| == INIT_POLL_SIZE
    && Agree(t)
    && (forall fd: nat :: Live(t, fd) <==> fd in registry)
    && (forall fd :: fd in registry ==> fd >= 0 && t.entries[fd] == Some(registry[fd]))
  }

  lemma HoldsAgree<C>(t: Table<C>, registry: map<int, C>)
    requires Holds(t, registry)
    ensures Agree(t) && forall fd: nat :: Live(t, fd) <==> fd in registry
  {
  }

  lemma HoldsCount<C>(t: Table<C>, registry: map<int, C>)
    requires Holds(t, registry)
    ensures HasFree(t.slots) <==> |registry| < INIT_POLL_SIZE
  {
    FreeSlotExactly(t);
    assert LiveFds(t) == registry.Keys;
  }

  /** A legal request meets the demands of the code and takes the table to the new registry. */
  lemma LegalKeepsHolds<C>(t: Table<C>, registry: map<int, C>, r: Request<C>)
    requires Holds(t, registry) && Legal(registry, r)
    ensures Demands(t, r) && !Unwatched(t, r) && Holds(Apply(t, r), Noted(registry, r))
  {
    HoldsCount(t, registry);
    assert Demands(t, r) && !Unwatched(t, r);
    AgreementKeptExactly(t, r);
    ApplyWatches(t, r);
    hide Apply, Agree;
    var t', registry' := Apply(t, r), Noted(registry, r);
    forall fd: nat
      ensures Live(t', fd) <==> fd in registry'
      ensures fd in registry' ==> t'.entries[fd] == Some(registry'[fd])
    {
      ApplyKeepsEntries(t, r, fd);
    }
  }

  /** A legal request at the end of a batch takes effect whatever the batch holds. */
  lemma BatchKeepsHolds<C>(t: Table<C>, rs: seq<Request<C>>, registry: map<int, C>, r: Request<C>)
    requires DemandsAll(t, rs) && Holds(ApplyAll(t, rs), registry) && Legal(registry, r)
    ensures DemandsAll(t, rs + [r]) && Holds(ApplyAll(t, rs + [r]), Noted(registry, r))
    ensures r.kind != Remove ==> Watches(ApplyAll(t, rs + [r]).slots, r.fd, r.mask)
  {
    hide Demands, Apply, Holds, Watches;
    assert (rs + [r])[..|rs|] == rs;
    var before := ApplyAll(t, rs);
    LegalKeepsHolds(before, registry, r);
    HoldsAgree(before, registry);
    ApplyWatches(before, r);
    if r.kind != Remove {
      assert WatchesAfter(before, r, r.fd, r.mask);
    }
  }

  /** A table without entries, its slots free. */
  function NewTable<C>(): Table<C> {
    Table([], seq(INIT_POLL_SIZE, _ => PollFd(-1, 0)))
  }

  lemma NewHoldsNothing<C>()
    ensures Holds(NewTable<C>(), map[])
  {
  }

  /** The first `n` descriptors are added one after another. */
  function Adds<C>(n: nat, channels: nat -> C, mask: bv16): (rs: seq<Request<C>>) {
    if n == 0 then [] else Adds(n - 1, channels, mask) + [Request(Add, n - 1, channels(n - 1), mask)]
  }

  function Added<C>(n: nat, channels: nat -> C): (m: map<int, C>)
    ensures |m| == n && forall fd :: fd in m <==> 0 <= fd < n
  {
    if n == 0 then map[] else Added(n - 1, channels)[n - 1 := channels(n - 1)]
  }

  lemma {:induction false} AddsHold<C>(n: nat, channels: nat -> C, mask: bv16)
    requires n <= INIT_POLL_SIZE
    ensures var t, rs := NewTable<C>(), Adds(n, channels, mask);
            DemandsAll(t, rs) && Holds(ApplyAll(t, rs), Added(n, channels))
  {
    hide Holds, Demands, Apply, NewTable, DemandsAll, ApplyAll;
    if n == 0 {
      NewHoldsNothing<C>();
      EmptyBatch(NewTable<C>(), []);
    } else {
      AddsHold(n - 1, channels, mask);
      BatchKeepsHolds(NewTable<C>(), Adds(n - 1, channels, mask), Added(n - 1, channels),
                      Request(Add, n - 1, channels(n - 1), mask));
    }
  }

  /** The agreement can break: after 1024 descriptors a new loop takes the next one into its map and has
      no slot for it. */
  lemma AgreementCanBreak<C>(channels: nat -> C, mask: bv16)
    ensures var rs, r := Adds(INIT_POLL_SIZE, channels, mask),
                         Request(Add, INIT_POLL_SIZE, channels(INIT_POLL_SIZE), mask);
            && DemandsAll(NewTable<C>(), rs)
            && var t := ApplyAll(NewTable<C>(), rs);
               && Agree(t) && Demands(t, r)
               && Live(Apply(t, r), INIT_POLL_SIZE) && !Polled(Apply(t, r).slots, INIT_POLL_SIZE)
  {
    FullTable(INIT_POLL_SIZE, channels, mask);
  }

  lemma FullTable<C>(n: nat, channels: nat -> C, mask: bv16)
    requires n == INIT_POLL_SIZE
    ensures var rs, r := Adds(n, channels, mask), Request(Add, n, channels(n), mask);
            && DemandsAll(NewTable<C>(), rs)
            && var t := ApplyAll(NewTable<C>(), rs);
               && Agree(t) && Demands(t, r) && Live(Apply(t, r), n) && !Polled(Apply(t, r).slots, n)
  {
    hide ApplyAll, DemandsAll, Adds, Added, Agree, NewTable, HasFree, Polled, Apply;
    AddsHold(n, channels, mask);
    var t, r := ApplyAll(NewTable<C>(), Adds(n, channels, mask)), Request(Add, n, channels(n), mask);
    HoldsCount(t, Added(n, channels));
    HoldsAgree(t, Added(n, channels));
    ApplyKeepsEntries(t, r, n);
    AgreedIsPolled(t, n);
    NoSlotLeft(t, r);
  }

  lemma AgreedIsPolled<C>(t: Table<C>, fd: nat)
    requires Agree(t)
    ensures Live(t, fd) <==> Polled(t.slots, fd)
  {
  }

  lemma NoSlotLeft<C>(t: Table<C>, r: Request<C>)
    requires Demands(t, r) && Unwatched(t, r)
    ensures Apply(t, r).slots == t.slots
  {
  }

  predicate SameButMask<C(==)>(r: Request<C>, r': Request<C>) {
    r.kind == r'.kind && r.fd == r'.fd && r.channel == r'.channel
  }

  predicate SameButMasks<C(==)>(t: Table<C>, t': Table<C>) {
    t.entries == t'.entries && SameFds(t.slots, t'.slots)
  }

  /** Which descriptors are held where does not depend on the masks. */
  lemma {:induction false} MasksDoNotMatter<C>(t: Table<C>, rs: seq<Request<C>>, rs': seq<Request<C>>)
    requires |rs| == |rs'| && forall i :: 0 <= i < |rs| ==> SameButMask(rs[i], rs'[i])
    requires DemandsAll(t, rs)
    ensures DemandsAll(t, rs') && SameButMasks(ApplyAll(t, rs), ApplyAll(t, rs'))
    decreases |rs|
  {
    if rs != [] {
      var n := |rs| - 1;
      MasksDoNotMatter(t, rs[..n], rs'[..n]);
      assert SameButMask(rs[n], rs'[n]);
      ApplySame(ApplyAll(t, rs[..n]), ApplyAll(t, rs'[..n]), rs[n], rs'[n]);
    }
  }

  lemma ApplySame<C>(t: Table<C>, t': Table<C>, r: Request<C>, r': Request<C>)
    requires SameButMasks(t, t') && SameButMask(r, r') && Demands(t, r)
    ensures Demands(t', r') && SameButMasks(Apply(t, r), Apply(t', r'))
  {
    hide Grown, PollAdd, PollDel, PollUpdate;
    PollsAlike(t.slots, t'.slots, r.fd, r.mask, r'.mask);
  }

  predicate SameFds(slots: seq<PollFd>, slots': seq<PollFd>) {
    |slots| == |slots'| && forall i :: 0 <= i < |slots| ==> slots[i].fd == slots'[i].fd
  }

  lemma PollsAlike(slots: seq<PollFd>, slots': seq<PollFd>, fd: int, mask: bv16, mask': bv16)
    requires SameFds(slots, slots')
    ensures SameFds(PollAdd(slots, fd, mask), PollAdd(slots', fd, mask'))
    ensures SameFds(PollDel(slots, fd), PollDel(slots', fd))
    ensures SameFds(PollUpdate(slots, fd, mask), PollUpdate(slots', fd, mask'))
  {
    FirstsAlike(slots, slots', fd);
    hide FreeFrom, SlotFrom;
  }

  lemma FirstsAlike(slots: seq<PollFd>, slots': seq<PollFd>, fd: int)
    requires SameFds(slots, slots')
    ensures FreeFrom(slots, 0) == FreeFrom(slots', 0)
    ensures SlotFrom(slots, fd, 0) == SlotFrom(slots', fd, 0)
  {
    hide FreeFrom, SlotFrom;
  }

  lemma SameHolds<C>(t: Table<C>, t': Table<C>, registry: map<int, C>)
    requires SameButMasks(t, t') && Holds(t, registry)
    ensures Holds(t', registry)
  {
    forall fd: nat
      ensures Polled(t.slots, fd) <==> Polled(t'.slots, fd)
    {
      if i :| 0 <= i < |t.slots| && t.slots[i].fd == fd {
        assert t'.slots[i].fd == fd;
      }
      if i :| 0 <= i < |t.slots| && t'.slots[i].fd == fd {
        assert t.slots[i].fd == fd;
      }
    }
  }
}
