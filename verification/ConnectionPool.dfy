/** The database connection pool (connection/src/connection_pool.cpp). The value functions say what
    each critical section does; the class does it in place; the lemmas speak of all runs, in which
    consumers, the producing thread and the scanning thread interleave in any order. */
module ConnectionPool {
  import opened Wrappers

  /** A connection with the clock reading of its last refresh. */
  datatype Conn = Conn(id: nat, refreshed: nat)

  /** The shared state: the idle queue, the connections out on lease, the connection count, the
      clock, and whether the producing thread sleeps in `wait`. */
  datatype State = State(idle: seq<Conn>, leased: set<nat>, count: int, clock: nat, producerAsleep: bool, nextId: nat)

  datatype Config = Config(initSize: nat, maxSize: nat, maxIdleTime: nat) {
    /** The idle time after which the scan removes a connection. */
    function Limit(): nat {
      1000 * maxIdleTime
    }
  }

  // ---------- the critical sections ----------

  /** `getconnection` once the queue is not empty (lines 63-73): the front is leased, all waiting
      threads are notified. */
  function Take(s: State): State
    requires s.idle != []
  {
    s.(idle := s.idle[1..], leased := s.leased + {s.idle[0].id}, producerAsleep := false)
  }

  /** The deleter of a leased connection (lines 64-68): refreshed, queued, nobody notified. */
  function GiveBack(s: State, id: nat): State {
    s.(idle := s.idle + [Conn(id, s.clock)], leased := s.leased - {id})
  }

  /** The producing thread, awake (lines 80-102): it sleeps while the queue is not empty, else it
      connects if there is room, and notifies. */
  function Produce(c: Config, s: State, connected: bool): State {
    if s.idle != [] then
      s.(producerAsleep := true)
    else if s.count < c.maxSize && connected then
      s.(idle := [Conn(s.nextId, s.clock)], count := s.count + 1, nextId := s.nextId + 1, producerAsleep := false)
    else
      s.(producerAsleep := false)
  }

  /** How the scan ends. `FrontOfEmpty`: it asks an empty queue for its front. */
  datatype Scanned = Stopped(state: State, removed: nat) | FrontOfEmpty(state: State, removed: nat)

  /** The scan (lines 117-130), whose `k`-th test reads the clock as `now(k)`. */
  function ScanFrom(c: Config, s: State, now: nat -> nat, k: nat): Scanned
    decreases |s.idle|
  {
    if s.count <= c.initSize then Stopped(s, k)
    else if s.idle == [] then FrontOfEmpty(s, k)
    else if now(k) - s.idle[0].refreshed > c.Limit() then
      ScanFrom(c, s.(idle := s.idle[1..], count := s.count - 1), now, k + 1)
    else
      Stopped(s, k)
  }

  /** The constructor (lines 17-37) after `n` attempts to connect; `connected` says which succeed,
      `now` reads the clock. */
  function Started(n: nat, connected: nat -> bool, now: nat -> nat): State {
    if n == 0 then
      State([], {}, 0, now(0), false, 0)
    else
      var s := Started(n - 1, connected, now);
      if !connected(n - 1) then s
      else s.(idle := s.idle + [Conn(s.nextId, now(n - 1))], count := s.count + 1, clock := now(n - 1),
            nextId := s.nextId + 1)
  }

  lemma NoneStarted(connected: nat -> bool, now: nat -> nat)
    ensures Started(0, connected, now) == State([], {}, 0, now(0), false, 0)
  {
  }

  lemma NextStarted(n: nat, connected: nat -> bool, now: nat -> nat)
    ensures var s := Started(n, connected, now);
            Started(n + 1, connected, now) ==
            if connected(n) then
              s.(idle := s.idle + [Conn(s.nextId, now(n))], count := s.count + 1, clock := now(n),
                 nextId := s.nextId + 1)
            else s
  {
  }

  // ---------- the class ----------

  class Pool {
    const config: Config
    var idle: seq<Conn>
    var count: int
    var clock: nat
    var producerAsleep: bool
    var nextId: nat
    ghost var leased: set<nat>

    ghost function Value(): State
      reads this
    {
      State(idle, leased, count, clock, producerAsleep, nextId)
    }

    /** Lines 22-37. */
    constructor (config: Config, connected: nat -> bool, now: nat -> nat)
      ensures this.config == config && Value() == Started(config.initSize, connected, now)
    {
      this.config := config;
      idle, count, leased, clock, producerAsleep, nextId := [], 0, {}, now(0), false, 0;
      new;
      hide Started;
      var i := 0;
      NoneStarted(connected, now);
      while i < config.initSize
        invariant 0 <= i <= config.initSize && this.config == config
        invariant Value() == Started(i, connected, now)
      {
        NextStarted(i, connected, now);
        if connected(i) {
          clock := now(i);
          idle := idle + [Conn(nextId, now(i))];
          nextId := nextId + 1;
          count := count + 1;
        }
        i := i + 1;
      }
    }

    /** `getconnection` after its wait; `None` when the queue is still empty. */
    method TryGet() returns (r: Option<Conn>)
      modifies this
      ensures r == None <==> old(idle) == []
      ensures r == None ==> Value() == old(Value())
      ensures r.Some? ==>
                && r.value == old(idle)[0] && idle == old(idle)[1..] && leased == old(leased) + {r.value.id}
                && count == old(count) && clock == old(clock) && nextId == old(nextId) && !producerAsleep
                && Value() == Take(old(Value()))
                && (Separate(old(Value())) ==> r.value.id !in old(leased))
    {
      if |idle| == 0 {
        return None;
      }
      r := Some(idle[0]);
      leased := leased + {idle[0].id};
      idle := idle[1..];
      producerAsleep := false;
    }

    method Return(id: nat)
      modifies this
      ensures Value() == GiveBack(old(Value()), id)
      ensures idle == old(idle) + [Conn(id, clock)] && leased == old(leased) - {id}
      ensures count == old(count) && clock == old(clock) && nextId == old(nextId)
      ensures producerAsleep == old(producerAsleep)
    {
      idle := idle + [Conn(id, clock)];
      leased := leased - {id};
    }

    method ProduceOnce(connected: bool)
      modifies this
      ensures Value() == Produce(config, old(Value()), connected)
      ensures producerAsleep <==> old(idle) != []
      ensures idle == if old(idle) == [] && old(count) < config.maxSize && connected then [Conn(old(nextId), clock)]
                      else old(idle)
      ensures count + |old(idle)| == old(count) + |idle| && nextId + |old(idle)| == old(nextId) + |idle|
      ensures clock == old(clock) && leased == old(leased)
    {
      if |idle| != 0 {
        producerAsleep := true;
        return;
      }
      if count < config.maxSize && connected {
        idle := idle + [Conn(nextId, clock)];
        nextId := nextId + 1;
        count := count + 1;
      }
      producerAsleep := false;
    }

    /** One scan; false when it ran into an empty queue. */
    method Scan(now: nat -> nat) returns (ok: bool)
      modifies this`idle, this`count
      ensures var r := ScanFrom(config, old(Value()), now, 0);
              ok == r.Stopped? && Value() == r.state
    {
      var k := 0;
      while count > config.initSize
        invariant ScanFrom(config, Value(), now, k) == ScanFrom(config, old(Value()), now, 0)
        decreases |idle|
      {
        if |idle| == 0 {
          return false;
        }
        var p := idle[0];
        if now(k) - p.refreshed > config.Limit() {
          idle := idle[1..];
          count := count - 1;
          k := k + 1;
        } else {
          break;
        }
      }
      ok := true;
    }
  }

  // ---------- what every run keeps ----------

  function Max(a: int, b: int): int {
    if a >= b then a else b
  }

  ghost predicate Sorted(idle: seq<Conn>, clock: nat) {
    && (forall i, j :: 0 <= i <= j < |idle| ==> idle[i].refreshed <= idle[j].refreshed)
    && (forall i :: 0 <= i < |idle| ==> idle[i].refreshed <= clock)
  }

  /** No connection is queued twice, or queued and leased. */
  ghost predicate Separate(s: State) {
    && (forall i, j :: 0 <= i < j < |s.idle| ==> s.idle[i].id != s.idle[j].id)
    && (forall i :: 0 <= i < |s.idle| ==> s.idle[i].id !in s.leased && s.idle[i].id < s.nextId)
    && (forall id :: id in s.leased ==> id < s.nextId)
  }

  /** The count is the idle and the leased connections together and stays within the limits; the
      queue is sorted by refresh time. */
  ghost predicate Inv(c: Config, s: State) {
    && s.count == |s.idle| + |s.leased|
    && s.count <= Max(c.initSize, c.maxSize)
    && Sorted(s.idle, s.clock)
    && Separate(s)
  }

  lemma QueueKeepsInv(c: Config, s: State)
    requires Inv(c, s) && s.count < Max(c.initSize, c.maxSize)
    ensures Inv(c, s.(idle := s.idle + [Conn(s.nextId, s.clock)], count := s.count + 1, nextId := s.nextId + 1))
  {
  }

  lemma EmptyInv(c: Config, clock: nat)
    ensures Inv(c, State([], {}, 0, clock, false, 0))
  {
  }

  /** The pool starts within the invariant, whichever connections fail. */
  lemma {:induction false} StartedInv(c: Config, n: nat, connected: nat -> bool, now: nat -> nat)
    requires n <= c.initSize && forall i, j :: i <= j ==> now(i) <= now(j)
    ensures var s := Started(n, connected, now);
            Inv(c, s) && s.leased == {} && Supplied(s) && s.count <= n
  {
    hide Sorted, Separate;
    if n == 0 {
      EmptyInv(c, now(0));
    } else {
      StartedInv(c, n - 1, connected, now);
      var s := Started(n - 1, connected, now);
      if connected(n - 1) {
        ClockBefore(n - 1, connected, now);
        LaterClock(c, s, now(n - 1));
        QueueKeepsInv(c, s.(clock := now(n - 1)));
      }
    }
  }

  lemma {:induction false} ClockBefore(n: nat, connected: nat -> bool, now: nat -> nat)
    requires forall i, j :: i <= j ==> now(i) <= now(j)
    ensures Started(n, connected, now).clock <= now(n)
  {
    if n > 0 {
      ClockBefore(n - 1, connected, now);
      assert now(n - 1) <= now(n);
    }
  }

  lemma LaterClock(c: Config, s: State, clock: nat)
    requires Inv(c, s) && s.clock <= clock
    ensures Inv(c, s.(clock := clock))
  {
  }

  lemma TakeKeepsInv(c: Config, s: State)
    requires Inv(c, s) && s.idle != []
    ensures Inv(c, Take(s))
  {
    assert s.idle[0].id !in s.leased;
    forall i | 0 <= i < |s.idle| - 1
      ensures s.idle[1..][i].id != s.idle[0].id
    {
      assert s.idle[1..][i] == s.idle[i + 1];
    }
  }

  lemma GiveBackKeepsInv(c: Config, s: State, id: nat)
    requires Inv(c, s) && id in s.leased
    ensures Inv(c, GiveBack(s, id))
  {
  }

  lemma ProduceKeepsInv(c: Config, s: State, connected: bool)
    requires Inv(c, s)
    ensures Inv(c, Produce(c, s, connected))
  {
    hide Inv;
    if s.idle == [] && s.count < c.maxSize && connected {
      QueueKeepsInv(c, s);
      var p := Conn(s.nextId, s.clock);
      assert s.idle + [p] == [p];
      var queued := s.(idle := s.idle + [p], count := s.count + 1, nextId := s.nextId + 1);
      ProducerDoesNotMatter(c, queued, false);
      assert Produce(c, s, connected) == queued.(producerAsleep := false);
    } else {
      ProducerDoesNotMatter(c, s, s.idle != []);
    }
  }

  lemma ProducerDoesNotMatter(c: Config, s: State, asleep: bool)
    requires Inv(c, s)
    ensures Inv(c, s.(producerAsleep := asleep))
  {
  }

  lemma PopKeepsInv(c: Config, s: State)
    requires Inv(c, s) && s.idle != []
    ensures Inv(c, s.(idle := s.idle[1..], count := s.count - 1))
  {
  }

  /** One critical section of one of the threads, or the passing of time. */
  datatype Action =
    | Tick(to: nat)
    | TakeOne
    | GiveOne(id: nat)
    | ProduceOne(connected: bool)
    | WakeProducer
    | ScanAll(now: nat -> nat)

  ghost predicate Monotone(now: nat -> nat, from: nat) {
    from <= now(0) && forall i, j :: 0 <= i <= j ==> now(i) <= now(j)
  }

  /** A step that can be taken without undefined behaviour. */
  ghost predicate Enabled(c: Config, s: State, a: Action) {
    match a
    case Tick(to) => s.clock <= to
    case TakeOne => s.idle != []
    case GiveOne(id) => id in s.leased
    case ProduceOne(_) => !s.producerAsleep
    case WakeProducer => s.producerAsleep
    case ScanAll(now) => Monotone(now, s.clock) && ScanFrom(c, s, now, 0).Stopped?
  }

  ghost function Apply(c: Config, s: State, a: Action): State
    requires Enabled(c, s, a)
  {
    match a
    case Tick(to) => s.(clock := to)
    case TakeOne => Take(s)
    case GiveOne(id) => GiveBack(s, id)
    case ProduceOne(connected) => Produce(c, s, connected)
    case WakeProducer => s.(producerAsleep := false)
    case ScanAll(now) => ScanFrom(c, s, now, 0).state
  }

  lemma {:induction false} ScanKeepsInv(c: Config, s: State, now: nat -> nat, k: nat)
    requires Inv(c, s)
    ensures var r := ScanFrom(c, s, now, k);
            Inv(c, r.state) && r.state.leased == s.leased && r.removed >= k
    decreases |s.idle|
  {
    hide Inv;
    if s.count > c.initSize && s.idle != [] && now(k) - s.idle[0].refreshed > c.Limit() {
      PopKeepsInv(c, s);
      ScanKeepsInv(c, s.(idle := s.idle[1..], count := s.count - 1), now, k + 1);
    }
  }

  lemma StepKeepsInv(c: Config, s: State, a: Action)
    requires Inv(c, s) && Enabled(c, s, a)
    ensures Inv(c, Apply(c, s, a))
  {
    match a {
      case Tick(_) =>
      case TakeOne => TakeKeepsInv(c, s);
      case GiveOne(id) => GiveBackKeepsInv(c, s, id);
      case ProduceOne(connected) => ProduceKeepsInv(c, s, connected);
      case WakeProducer =>
      case ScanAll(now) => ScanKeepsInv(c, s, now, 0);
    }
  }

  ghost function After(c: Config, s: State, run: seq<Action>): Option<State> {
    if run == [] then
      Some(s)
    else
      var before := After(c, s, run[..|run| - 1]);
      var last := run[|run| - 1];
      if before.Some? && Enabled(c, before.value, last) then Some(Apply(c, before.value, last)) else None
  }

  lemma {:induction false} RunKeepsInv(c: Config, s: State, run: seq<Action>)
    requires Inv(c, s)
    ensures After(c, s, run).Some? ==> Inv(c, After(c, s, run).value)
  {
    hide Inv, Enabled, Apply;
    if run != [] {
      var before, last := After(c, s, run[..|run| - 1]), run[|run| - 1];
      RunKeepsInv(c, s, run[..|run| - 1]);
      if before.Some? && Enabled(c, before.value, last) {
        StepKeepsInv(c, before.value, last);
      }
    }
  }

  /** Every state that a run from the start of a pool reaches. */
  lemma ReachableInv(c: Config, connected: nat -> bool, now: nat -> nat, run: seq<Action>)
    requires forall i, j :: i <= j ==> now(i) <= now(j)
    ensures var r := After(c, Started(c.initSize, connected, now), run);
            r.Some? ==> Inv(c, r.value)
  {
    hide Inv;
    StartedInv(c, c.initSize, connected, now);
    RunKeepsInv(c, Started(c.initSize, connected, now), run);
  }

  // ---------- who has which connection ----------

  function Ids(idle: seq<Conn>): (ids: seq<nat>)
    ensures |ids| == |idle| && forall i :: 0 <= i < |idle| ==> ids[i] == idle[i].id
  {
    seq(|idle|, i requires 0 <= i < |idle| => idle[i].id)
  }

  /** The connections a step takes from the queue: the one that is handed out, or those a scan removes. */
  function LeftBy(s: State, s': State, a: Action): seq<nat> {
    if a.TakeOne? && s.idle != [] then [s.idle[0].id]
    else if a.ScanAll? && |s'.idle| <= |s.idle| then Ids(s.idle[..|s.idle| - |s'.idle|])
    else []
  }

  /** The connections a step puts into the queue: the one that comes back, or a new one. */
  function JoinedBy(s: State, s': State, a: Action): seq<nat> {
    if a.GiveOne? then [a.id]
    else if a.ProduceOne? && |s'.idle| >= |s.idle| then Ids(s'.idle[|s.idle|..])
    else []
  }

  ghost function Left(c: Config, s: State, run: seq<Action>): seq<nat> {
    if run == [] then [] else
      var before, after := After(c, s, run[..|run| - 1]), After(c, s, run);
      Left(c, s, run[..|run| - 1]) +
      (if before.Some? && after.Some? then LeftBy(before.value, after.value, run[|run| - 1]) else [])
  }

  ghost function Joined(c: Config, s: State, run: seq<Action>): seq<nat> {
    if run == [] then [] else
      var before, after := After(c, s, run[..|run| - 1]), After(c, s, run);
      Joined(c, s, run[..|run| - 1]) +
      (if before.Some? && after.Some? then JoinedBy(before.value, after.value, run[|run| - 1]) else [])
  }

  lemma ScanUnfolds(c: Config, s: State, now: nat -> nat, k: nat)
    ensures ScanFrom(c, s, now, k) ==
            if s.count <= c.initSize then Stopped(s, k)
            else if s.idle == [] then FrontOfEmpty(s, k)
            else if now(k) - s.idle[0].refreshed > c.Limit() then
              ScanFrom(c, s.(idle := s.idle[1..], count := s.count - 1), now, k + 1)
            else Stopped(s, k)
  {
  }

  lemma RestOfRest(idle: seq<Conn>, left: seq<Conn>)
    requires 0 < |idle| && |left| <= |idle| - 1 && left == idle[1..][|idle| - 1 - |left|..]
    ensures left == idle[|idle| - |left|..]
  {
  }

  lemma {:induction false} ScanDropsFront(c: Config, s: State, now: nat -> nat, k: nat)
    ensures var r := ScanFrom(c, s, now, k);
            |r.state.idle| <= |s.idle| && r.state.idle == s.idle[|s.idle| - |r.state.idle|..]
    decreases |s.idle|
  {
    hide ScanFrom;
    ScanUnfolds(c, s, now, k);
    if s.count > c.initSize && s.idle != [] && now(k) - s.idle[0].refreshed > c.Limit() {
      var rest := s.(idle := s.idle[1..], count := s.count - 1);
      ScanDropsFront(c, rest, now, k + 1);
      RestOfRest(s.idle, ScanFrom(c, rest, now, k + 1).state.idle);
    }
  }

  lemma IdsSplit(idle: seq<Conn>, n: nat)
    requires n <= |idle|
    ensures Ids(idle) == Ids(idle[..n]) + Ids(idle[n..])
  {
  }

  lemma NoIds(idle: seq<Conn>)
    ensures Ids([]) == [] && [] + Ids(idle) == Ids(idle) == Ids(idle) + []
  {
  }

  /** The queue as a scan, a lease and an arrival leave it. */
  lemma StepMoves(c: Config, s: State, a: Action)
    requires Enabled(c, s, a)
    ensures var s' := Apply(c, s, a);
            match a
            case TakeOne => s.idle != [] && s'.idle == s.idle[1..]
            case ScanAll(_) => |s'.idle| <= |s.idle| && s'.idle == s.idle[|s.idle| - |s'.idle|..]
            case GiveOne(id) => s'.idle == s.idle + [Conn(id, s.clock)]
            case ProduceOne(_) => |s'.idle| >= |s.idle| && s'.idle[..|s.idle|] == s.idle
            case _ => s'.idle == s.idle
  {
    hide ScanFrom, Monotone;
    if a.ScanAll? {
      ScanDropsFront(c, s, a.now, 0);
    }
  }

  lemma StepIsFifo(c: Config, s: State, a: Action)
    requires Enabled(c, s, a)
    ensures var s' := Apply(c, s, a);
            Ids(s.idle) + JoinedBy(s, s', a) == LeftBy(s, s', a) + Ids(s'.idle)
  {
    hide Enabled, Apply, Ids;
    StepMoves(c, s, a);
    var s' := Apply(c, s, a);
    NoIds(s.idle);
    match a {
      case TakeOne =>
        IdsSplit(s.idle, 1);
        OneId(s.idle[..1]);
      case ScanAll(_) => IdsSplit(s.idle, |s.idle| - |s'.idle|);
      case GiveOne(id) =>
        IdsSplit(s'.idle, |s.idle|);
        OneId(s'.idle[|s.idle|..]);
      case ProduceOne(_) => IdsSplit(s'.idle, |s.idle|);
      case _ =>
    }
    NoIds(s'.idle);
  }

  lemma OneId(idle: seq<Conn>)
    requires |idle| == 1
    ensures Ids(idle) == [idle[0].id]
  {
  }

  lemma FifoAgain(start: seq<nat>, joined: seq<nat>, left: seq<nat>, here: seq<nat>, join: seq<nat>, leave: seq<nat>,
                  after: seq<nat>)
    requires start + joined == left + here && here + join == leave + after
    ensures start + (joined + join) == (left + leave) + after
  {
    assert start + (joined + join) == (start + joined) + join;
    assert (left + here) + join == left + (here + join);
    assert left + (leave + after) == (left + leave) + after;
  }

  /** In every run connections leave the queue in the order in which they joined it: those that were
      handed out or removed, and then those still idle, are those that were there and those that joined. */
  lemma {:induction false} FirstQueuedFirstLeased(c: Config, s: State, run: seq<Action>)
    ensures var r := After(c, s, run);
            r.Some? ==> Ids(s.idle) + Joined(c, s, run) == Left(c, s, run) + Ids(r.value.idle)
  {
    hide Enabled, Apply, LeftBy, JoinedBy, Ids;
    if run == [] {
      assert Ids(s.idle) + [] == [] + Ids(s.idle);
    } else {
      var front, last := run[..|run| - 1], run[|run| - 1];
      var before := After(c, s, front);
      FirstQueuedFirstLeased(c, s, front);
      if before.Some? && Enabled(c, before.value, last) {
        var t, t' := before.value, Apply(c, before.value, last);
        StepIsFifo(c, t, last);
        FifoAgain(Ids(s.idle), Joined(c, s, front), Left(c, s, front), Ids(t.idle), JoinedBy(t, t', last),
                  LeftBy(t, t', last), Ids(t'.idle));
      }
    }
  }

  /** The connections handed out and not yet returned, each as often as that is so. */
  ghost function Outstanding(c: Config, s: State, run: seq<Action>): multiset<nat> {
    if run == [] then multiset{} else
      var before, last := After(c, s, run[..|run| - 1]), run[|run| - 1];
      var out := Outstanding(c, s, run[..|run| - 1]);
      if last.GiveOne? then out - multiset{last.id}
      else if last.TakeOne? && before.Some? && before.value.idle != [] then out + multiset{before.value.idle[0].id}
      else out
  }

  /** No connection is handed out twice: those out are the leased ones, each once, and none of them is in
      the queue. */
  lemma {:induction false} NobodySharesALease(c: Config, s: State, run: seq<Action>)
    requires Inv(c, s) && s.leased == {}
    ensures var r := After(c, s, run);
            r.Some? ==>
              && Outstanding(c, s, run) == multiset(r.value.leased)
              && (forall id :: Outstanding(c, s, run)[id] <= 1)
              && (forall i :: 0 <= i < |r.value.idle| ==> Outstanding(c, s, run)[r.value.idle[i].id] == 0)
  {
    hide Inv, Enabled, Apply;
    RunKeepsInv(c, s, run);
    if After(c, s, run).Some? {
      NoneIsBoth(c, After(c, s, run).value);
    }
    if run != [] {
      var front, last := run[..|run| - 1], run[|run| - 1];
      var before := After(c, s, front);
      NobodySharesALease(c, s, front);
      if before.Some? && Enabled(c, before.value, last) {
        RunKeepsInv(c, s, front);
        StepLeases(c, before.value, last);
      }
    }
  }

  lemma NoneIsBoth(c: Config, s: State)
    requires Inv(c, s)
    ensures forall i :: 0 <= i < |s.idle| ==> s.idle[i].id !in s.leased
  {
  }

  lemma StepLeases(c: Config, s: State, a: Action)
    requires Inv(c, s) && Enabled(c, s, a)
    ensures multiset(Apply(c, s, a).leased) ==
            if a.GiveOne? then multiset(s.leased) - multiset{a.id}
            else if a.TakeOne? && s.idle != [] then multiset(s.leased) + multiset{s.idle[0].id}
            else multiset(s.leased)
  {
    hide ScanFrom, Monotone;
    NoneIsBoth(c, s);
    if a.ScanAll? {
      ScanKeepsInv(c, s, a.now, 0);
    }
  }

  /** A new pool has one connection for each attempt that succeeds, in order. */
  lemma {:induction false} StartedHolds(n: nat, connected: nat -> bool, now: nat -> nat) returns (which: seq<nat>)
    ensures forall i, j :: 0 <= i < j < |which| ==> which[i] < which[j]
    ensures forall k: nat :: k in which <==> k < n && connected(k)
    ensures var s := Started(n, connected, now);
            && s.idle == seq(|which|, i requires 0 <= i < |which| => Conn(i, now(which[i])))
            && s.count == |which| && s.nextId == |which| && s.leased == {} && !s.producerAsleep
  {
    if n == 0 {
      which := [];
    } else {
      which := StartedHolds(n - 1, connected, now);
      if connected(n - 1) {
        assert forall i :: 0 <= i < |which| ==> which[i] in which;
        which := which + [n - 1];
      }
    }
  }

  // ---------- the scan ----------

  /** Every idle connection is past its time when the scan comes to it. */
  ghost predicate AllExpired(c: Config, idle: seq<Conn>, now: nat -> nat, k: nat) {
    forall i :: 0 <= i < |idle| ==> now(k + i) - idle[i].refreshed > c.Limit()
  }

  lemma AllExpiredFront(c: Config, idle: seq<Conn>, now: nat -> nat, k: nat)
    requires idle != []
    ensures AllExpired(c, idle, now, k) <==>
            now(k) - idle[0].refreshed > c.Limit() && AllExpired(c, idle[1..], now, k + 1)
  {
    if AllExpired(c, idle, now, k) {
      assert now(k + 0) - idle[0].refreshed > c.Limit();
      forall i | 0 <= i < |idle| - 1
        ensures now(k + 1 + i) - idle[1..][i].refreshed > c.Limit()
      {
        assert now(k + (i + 1)) - idle[i + 1].refreshed > c.Limit();
      }
    } else {
      var i :| 0 <= i < |idle| && now(k + i) - idle[i].refreshed <= c.Limit();
      if i > 0 {
        assert idle[1..][i - 1] == idle[i] && now(k + 1 + (i - 1)) == now(k + i);
      }
    }
  }

  /** The scan asks an empty queue for its front exactly when more connections than `_init_size` are
      out on lease and every idle one is past its time. */
  lemma {:induction false} ScanMeetsEmptyExactly(c: Config, s: State, now: nat -> nat, k: nat)
    requires s.count == |s.idle| + |s.leased|
    ensures ScanFrom(c, s, now, k).FrontOfEmpty? <==>
            |s.leased| > c.initSize && AllExpired(c, s.idle, now, k)
    decreases |s.idle|
  {
    if s.count > c.initSize && s.idle != [] {
      AllExpiredFront(c, s.idle, now, k);
      if now(k) - s.idle[0].refreshed > c.Limit() {
        ScanMeetsEmptyExactly(c, s.(idle := s.idle[1..], count := s.count - 1), now, k + 1);
      }
    }
  }

  /** In a sorted queue the front is the oldest. */
  lemma FrontIsOldest(c: Config, idle: seq<Conn>, clock: nat, now: nat)
    requires Sorted(idle, clock) && (idle == [] || now - idle[0].refreshed <= c.Limit())
    ensures forall i :: 0 <= i < |idle| ==> now - idle[i].refreshed <= c.Limit()
  {
  }

  /** When the scan stops, it has removed the oldest connections only, and either the count is down
      to `_init_size` or no connection left was past its time at the last test. */
  lemma {:induction false} ScanIsExact(c: Config, s: State, now: nat -> nat, k: nat)
    requires Inv(c, s) && ScanFrom(c, s, now, k).Stopped?
    ensures var r := ScanFrom(c, s, now, k);
            && k <= r.removed <= k + |s.idle|
            && r.state.idle == s.idle[r.removed - k..]
            && (s.count >= c.initSize ==> r.state.count >= c.initSize)
            && (forall i :: 0 <= i < r.removed - k ==> now(k + i) - s.idle[i].refreshed > 1000 * c.maxIdleTime)
            && (r.state.count <= c.initSize ||
                forall i :: 0 <= i < |r.state.idle| ==>
                              now(r.removed) - r.state.idle[i].refreshed <= 1000 * c.maxIdleTime)
    decreases |s.idle|
  {
    hide Sorted, Separate;
    if s.count > c.initSize && s.idle != [] && now(k) - s.idle[0].refreshed > c.Limit() {
      PopKeepsInv(c, s);
      ScanIsExact(c, s.(idle := s.idle[1..], count := s.count - 1), now, k + 1);
      var r := ScanFrom(c, s, now, k);
      assert s.idle[1..][r.removed - k - 1..] == s.idle[r.removed - k..];
    } else if s.count > c.initSize {
      FrontIsOldest(c, s.idle, s.clock, now(k));
    }
  }

  // ---------- does an empty queue find the producer awake? ----------

  /** Supply: whenever the queue is empty, the producing thread is awake. */
  predicate Supplied(s: State) {
    s.idle == [] ==> !s.producerAsleep
  }

  lemma {:induction false} ScanEmptiesExactly(c: Config, s: State, now: nat -> nat, k: nat)
    requires s.count == |s.idle| + |s.leased| && s.idle != [] && ScanFrom(c, s, now, k).Stopped?
    ensures ScanFrom(c, s, now, k).state.idle == [] <==>
            |s.leased| == c.initSize && AllExpired(c, s.idle, now, k)
    decreases |s.idle|
  {
    if s.count > c.initSize {
      var s' := s.(idle := s.idle[1..], count := s.count - 1);
      AllExpiredFront(c, s.idle, now, k);
      if now(k) - s.idle[0].refreshed > c.Limit() && s'.idle != [] {
        ScanEmptiesExactly(c, s', now, k + 1);
      }
    }
  }

  lemma {:induction false} ScanKeepsProducer(c: Config, s: State, now: nat -> nat, k: nat)
    ensures ScanFrom(c, s, now, k).state.producerAsleep == s.producerAsleep
    decreases |s.idle|
  {
    if s.count > c.initSize && s.idle != [] && now(k) - s.idle[0].refreshed > c.Limit() {
      ScanKeepsProducer(c, s.(idle := s.idle[1..], count := s.count - 1), now, k + 1);
    }
  }

  /** Every step keeps the supply going, except a scan that removes the last idle connections while
      exactly `_init_size` are on lease and the producer sleeps: it notifies nobody. */
  lemma SupplyKeptExactly(c: Config, s: State, a: Action)
    requires Inv(c, s) && Supplied(s) && Enabled(c, s, a)
    ensures Supplied(Apply(c, s, a)) <==>
            !(a.ScanAll? && s.producerAsleep && |s.leased| == c.initSize &&
              AllExpired(c, s.idle, a.now, 0))
  {
    hide Inv, ScanFrom;
    CountIsInv(c, s);
    if a.ScanAll? {
      ScanKeepsProducer(c, s, a.now, 0);
      if s.idle != [] {
        ScanEmptiesExactly(c, s, a.now, 0);
      }
    }
  }

  lemma CountIsInv(c: Config, s: State)
    requires Inv(c, s)
    ensures s.count == |s.idle| + |s.leased|
  {
  }

  // ---------- both failures happen ----------

  const SMALL := Config(1, 2, 0)

  function Succeeds(k: nat): bool {
    true
  }

  function AtZero(k: nat): nat {
    0
  }

  function AtFive(k: nat): nat {
    5
  }

  lemma OneStepMore(c: Config, s: State, run: seq<Action>, t: State, a: Action)
    requires After(c, s, run) == Some(t) && Enabled(c, t, a)
    ensures After(c, s, run + [a]) == Some(Apply(c, t, a))
  {
    assert (run + [a])[..|run + [a]| - 1] == run;
  }

  /** A pool of one connection, from its start: the connection is leased and a second one is made. */
  lemma LeasedAndProduced()
    ensures var run := [TakeOne] + [ProduceOne(true)];
            After(SMALL, Started(1, Succeeds, AtZero), run) == Some(State([Conn(1, 0)], {0}, 2, 0, false, 2))
  {
    var s0 := Started(1, Succeeds, AtZero);
    assert Started(0, Succeeds, AtZero) == State([], {}, 0, 0, false, 0);
    assert s0 == State([Conn(0, 0)], {}, 1, 0, false, 1);
    assert After(SMALL, s0, []) == Some(s0);
    assert [] + [TakeOne] == [TakeOne];
    OneStepMore(SMALL, s0, [], s0, TakeOne);
    var s1 := Take(s0);
    assert s1 == State([], {0}, 1, 0, false, 1);
    OneStepMore(SMALL, s0, [TakeOne], s1, ProduceOne(true));
  }

  /** A run from the start of a pool after which a scan removes the last idle connection while the
      producer sleeps: nobody is left to make another one until a further notification. */
  lemma SupplyCanStop()
    ensures var run := [TakeOne] + [ProduceOne(true)] + [ProduceOne(false)] + [Tick(5)];
            var r := After(SMALL, Started(1, Succeeds, AtZero), run);
            && r.Some? && Supplied(r.value) && Enabled(SMALL, r.value, ScanAll(AtFive))
            && var s := Apply(SMALL, r.value, ScanAll(AtFive));
               s.idle == [] && s.producerAsleep && !Supplied(s)
  {
    hide After;
    var s0, run := Started(1, Succeeds, AtZero), [TakeOne] + [ProduceOne(true)];
    LeasedAndProduced();
    var s2 := State([Conn(1, 0)], {0}, 2, 0, false, 2);
    OneStepMore(SMALL, s0, run, s2, ProduceOne(false));
    var s3 := s2.(producerAsleep := true);
    OneStepMore(SMALL, s0, run + [ProduceOne(false)], s3, Tick(5));
    var s4 := s3.(clock := 5);
    assert ScanFrom(SMALL, s4.(idle := [], count := 1), AtFive, 1) == Stopped(s4.(idle := [], count := 1), 1);
    assert s4.idle[1..] == [];
  }

  /** A run from the start of a pool after which a scan asks an empty queue for its front. */
  lemma ScanCanMeetEmpty()
    ensures var run := [TakeOne] + [ProduceOne(true)] + [TakeOne];
            var r := After(SMALL, Started(1, Succeeds, AtZero), run);
            r.Some? && Monotone(AtFive, r.value.clock) && ScanFrom(SMALL, r.value, AtFive, 0).FrontOfEmpty?
  {
    hide After;
    var s0, run := Started(1, Succeeds, AtZero), [TakeOne] + [ProduceOne(true)];
    LeasedAndProduced();
    OneStepMore(SMALL, s0, run, State([Conn(1, 0)], {0}, 2, 0, false, 2), TakeOne);
  }
}
