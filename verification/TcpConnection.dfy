/** What a connection does to its byte stream (test_epoll/lib/tcp_connection.c), as values: the bytes
    the kernel has taken, those in the output buffer, and whether write events are on. */
module ByteStream {
  import opened MachineTypes

  datatype Stream = Stream(wire: seq<uint8>, buffer: seq<uint8>, writing: bool) {
    /** Everything accepted so far, in order. */
    function Bytes(): seq<uint8> {
      wire + buffer
    }

    /** `tcp_connection_send_data` tries the socket first. */
    predicate Direct() {
      !writing && buffer == []
    }
  }

  /** `tcp_connection_send_data`, where `write` returns `wrote`. A failed direct write is -1, which
      the unsigned `nwrited` turns into 2^64 - 1: then the byte before the payload is sent too. */
  function Send(s: Stream, behind: uint8, payload: seq<uint8>, wrote: int): Stream
    requires -1 <= wrote <= |payload|
  {
    if !s.Direct() then
      s.(buffer := s.buffer + payload, writing := s.writing || payload != [])
    else if wrote < 0 then
      s.(buffer := [behind] + payload, writing := true)
    else
      Stream(s.wire + payload[..wrote], payload[wrote..], wrote < |payload|)
  }

  /** `handle_write`, where `write` returns `wrote`. */
  function Flush(s: Stream, wrote: int): Stream
    requires -1 <= wrote <= |s.buffer|
  {
    if wrote <= 0 then s
    else Stream(s.wire + s.buffer[..wrote], s.buffer[wrote..], s.writing && wrote < |s.buffer|)
  }

  datatype Op = Sends(behind: uint8, payload: seq<uint8>, wrote: int) | Flushes(wrote: int)

  predicate Possible(s: Stream, op: Op) {
    match op
    case Sends(_, payload, wrote) => -1 <= wrote <= |payload|
    case Flushes(wrote) => -1 <= wrote <= |s.buffer|
  }

  function Step(s: Stream, op: Op): Stream
    requires Possible(s, op)
  {
    match op
    case Sends(behind, payload, wrote) => Send(s, behind, payload, wrote)
    case Flushes(wrote) => Flush(s, wrote)
  }

  predicate IsPossible(s: Stream, ops: seq<Op>)
    decreases |ops|, 0
  {
    ops == [] || (IsPossible(s, ops[..|ops| - 1]) && Possible(After(s, ops[..|ops| - 1]), ops[|ops| - 1]))
  }

  function After(s: Stream, ops: seq<Op>): Stream
    requires IsPossible(s, ops)
    decreases |ops|, 1
  {
    if ops == [] then s else Step(After(s, ops[..|ops| - 1]), ops[|ops| - 1])
  }

  /** What the callers wanted sent. */
  function Payloads(ops: seq<Op>): seq<uint8> {
    if ops == [] then []
    else Payloads(ops[..|ops| - 1]) + if ops[|ops| - 1].Sends? then ops[|ops| - 1].payload else []
  }

  /** How often the direct write of a send failed. */
  function Failures(s: Stream, ops: seq<Op>): nat
    requires IsPossible(s, ops)
  {
    if ops == [] then 0
    else
      var before, last := ops[..|ops| - 1], ops[|ops| - 1];
      Failures(s, before) + if last.Sends? && last.wrote < 0 && After(s, before).Direct() then 1 else 0
  }

  const FRESH := Stream([], [], false)

  /** Write events are on exactly while bytes wait, after every run with any partial writes. */
  lemma {:induction false} InterestFollowsBuffer(ops: seq<Op>)
    requires IsPossible(FRESH, ops)
    ensures var s := After(FRESH, ops);
            s.writing <==> s.buffer != []
  {
    if ops != [] {
      InterestFollowsBuffer(ops[..|ops| - 1]);
    }
  }

  lemma StepBytes(s: Stream, op: Op)
    requires Possible(s, op) && (s.writing <==> s.buffer != [])
    ensures Step(s, op).Bytes() ==
            s.Bytes() + match op
                        case Flushes(_) => []
                        case Sends(behind, payload, wrote) =>
                          (if wrote < 0 && s.Direct() then [behind] else []) + payload
  {
    match op {
      case Sends(behind, payload, wrote) =>
        if !s.Direct() {
          assert s.wire + (s.buffer + payload) == s.Bytes() + payload;
        } else if wrote >= 0 {
          assert s.wire + payload[..wrote] + payload[wrote..] == s.wire + payload;
        }
      case Flushes(wrote) =>
        if wrote > 0 {
          assert s.buffer[..wrote] + s.buffer[wrote..] == s.buffer;
          assert s.wire + s.buffer[..wrote] + s.buffer[wrote..] == s.wire + s.buffer;
        }
    }
  }

  /** The wire gets just the bytes that `write` reports as taken; a send that finds bytes waiting or write
      events on does not try to write. */
  lemma StepWire(s: Stream, op: Op)
    requires Possible(s, op)
    ensures |Step(s, op).wire| ==
            |s.wire| + match op
                       case Flushes(wrote) => if wrote > 0 then wrote else 0
                       case Sends(_, _, wrote) => if wrote > 0 && s.buffer == [] && !s.writing then wrote else 0
    ensures Step(s, op).wire[..|s.wire|] == s.wire
  {
  }

  lemma {:induction false} BytesOfRun(ops: seq<Op>)
    requires IsPossible(FRESH, ops)
    ensures var s := After(FRESH, ops);
            && |s.Bytes()| == |Payloads(ops)| + Failures(FRESH, ops)
            && (Failures(FRESH, ops) == 0 ==> s.Bytes() == Payloads(ops))
  {
    hide Step, Possible, Stream.Bytes, Stream.Direct;
    if ops == [] {
      NothingSent();
    } else {
      var before, last := ops[..|ops| - 1], ops[|ops| - 1];
      BytesOfRun(before);
      InterestFollowsBuffer(before);
      StepBytes(After(FRESH, before), last);
    }
  }

  lemma NothingSent()
    ensures FRESH.Bytes() == []
  {
  }

  /** The bytes on the wire and then those in the buffer are the payloads, in order, exactly when no
      direct write failed. */
  lemma ConservedExactly(ops: seq<Op>)
    requires IsPossible(FRESH, ops)
    ensures After(FRESH, ops).Bytes() == Payloads(ops) <==> Failures(FRESH, ops) == 0
  {
    BytesOfRun(ops);
  }

  /** The socket's buffer is full, and the peer gets a byte that was never sent. */
  lemma FailedWriteSendsAStranger()
    ensures exists ops :: IsPossible(FRESH, ops) && Payloads(ops) == [0x41] && After(FRESH, ops).wire == [0x00, 0x41]
  {
    var one := [Sends(0x00, [0x41], -1)];
    var ops := one + [Flushes(2)];
    assert one[..0] == [] && ops[..1] == one;
    assert After(FRESH, one[..0]) == FRESH && Payloads(one[..0]) == [];
    assert IsPossible(FRESH, one) && After(FRESH, one) == Stream([], [0x00, 0x41], true);
    assert IsPossible(FRESH, ops) && After(FRESH, ops) == Stream([0x00, 0x41], [], false);
    assert Payloads(one) == [0x41];
  }
}

/** The connection (test_epoll/lib/tcp_connection.c) over its buffers, its channel and its loop,
    driven in the loop's thread. */
module TcpConnection {
  import opened MachineTypes
  import opened Wrappers
  import opened Buffer
  import opened EventTable
  import opened EventLoop
  import opened ByteStream

  const TWO_64 := 0x1_0000_0000_0000_0000
  const INT_MAX := 0x7FFF_FFFF

  class TcpConnection {
    const eventLoop: EventLoop
    const channel: Channel
    const inputBuffer: ByteBuffer
    const outputBuffer: ByteBuffer
    ghost var wire: seq<uint8>

    ghost predicate Valid()
      reads inputBuffer, outputBuffer, eventLoop, eventLoop.queue, eventLoop.channelMap, eventLoop.channelMap.entries
    {
      inputBuffer != outputBuffer && inputBuffer.data != outputBuffer.data &&
      inputBuffer.Valid() && outputBuffer.Valid() && eventLoop.Valid() && !eventLoop.isHandlePending
    }

    ghost function Value(): Stream
      requires Valid()
      reads this, channel, outputBuffer, outputBuffer.data
      reads inputBuffer, eventLoop, eventLoop.queue, eventLoop.channelMap, eventLoop.channelMap.entries
    {
      Stream(wire, outputBuffer.Readable(), channel.WriteEnabled())
    }

    /** The loop has the channel registered, and its slot has the mask of its events. */
    ghost predicate Registered(registry: map<int, Channel>)
      reads channel, eventLoop, eventLoop.channelMap, eventLoop.channelMap.entries, eventLoop.dispatcher.eventSet,
            set e | e in eventLoop.queue :: e.channel
    {
      && channel.fd in registry && registry[channel.fd] == channel && channel.fd >= 0
      && eventLoop.WillHold(registry)
      && WatchedFor(eventLoop.Table().slots, channel.fd, channel.events)
    }

    /** `tcp_connection_new`, from the loop's thread or another one. */
    constructor (fd: int, eventLoop: EventLoop, inSameThread: bool, ghost registry: map<int, Channel>)
      requires eventLoop.Valid() && !eventLoop.isHandlePending && eventLoop.WillHold(registry)
      requires 0 <= fd < MAP_LIMIT && fd !in registry && |registry| < INIT_POLL_SIZE
      modifies eventLoop, eventLoop.pendingTail, eventLoop.channelMap, eventLoop.channelMap.entries,
               eventLoop.dispatcher.eventSet
      ensures Valid() && this.eventLoop == eventLoop && channel.fd == fd && fresh(channel)
      ensures Value() == FRESH && inputBuffer.Readable() == []
      ensures eventLoop.WillHold(registry[fd := channel])
      ensures inSameThread ==> Registered(registry[fd := channel])
    {
      hide Holds, WatchedFor, EventLoop.WillHold, EventLoop.Table, EventLoop.Valid;
      this.eventLoop := eventLoop;
      inputBuffer := new ByteBuffer();
      outputBuffer := new ByteBuffer();
      channel := new Channel(fd, EVENT_READ);
      wire := [];
      new;
      eventLoop.AddChannel(channel, inSameThread, registry);
    }

    /** `channel_write_event_enable` and `_disable` on the connection's loop. */
    method SetWriting(on: bool, ghost registry: map<int, Channel>)
      requires Valid() && Registered(registry)
      modifies channel, eventLoop, eventLoop.pendingTail, eventLoop.channelMap, eventLoop.channelMap.entries,
               eventLoop.dispatcher.eventSet
      ensures Valid() && Registered(registry)
      ensures eventLoop.channelMap.entries == old(eventLoop.channelMap.entries) || fresh(eventLoop.channelMap.entries)
      ensures channel.events == WithWrite(old(channel.events), on) && channel.WriteEnabled() == on
    {
      hide Legal, EventLoop.WillHold, WatchedFor, WithWrite, HasWrite, ByteBuffer.Valid, EventLoop.Valid, Holds;
      WriteBit(channel.events, on);
      UpdateIsLegal(registry);
      eventLoop.ChangeEvents(channel, WithWrite(channel.events, on), registry);
    }

    lemma UpdateIsLegal(registry: map<int, Channel>)
      requires Registered(registry)
      ensures Legal(registry, Request(Update, channel.fd, channel, 0))
      ensures Legal(registry, Request(Remove, channel.fd, channel, 0))
    {
    }

    /** `tcp_connection_send_data`: the payload is `memory[at..at + size]`, and `write` returns
        `wrote`. */
    method SendData(memory: seq<uint8>, at: nat, size: nat, wrote: int, ghost registry: map<int, Channel>)
      returns (result: int)
      requires Valid() && Registered(registry)
      requires at + size <= |memory| < TWO_64 / 2 && size < INT_MAX && -1 <= wrote <= size
      requires wrote < 0 && Value().Direct() ==> at > 0
      modifies this, channel, outputBuffer, outputBuffer.data, eventLoop, eventLoop.pendingTail, eventLoop.channelMap,
               eventLoop.channelMap.entries, eventLoop.dispatcher.eventSet
      ensures Valid() && Registered(registry)
      ensures outputBuffer.data == old(outputBuffer.data) || fresh(outputBuffer.data)
      ensures eventLoop.channelMap.entries == old(eventLoop.channelMap.entries) || fresh(eventLoop.channelMap.entries)
      ensures Value() == Send(old(Value()), if at > 0 then memory[at - 1] else 0, memory[at..at + size], wrote)
      ensures result == if old(Value()).Direct() then wrote else 0
    {
      hide Valid, Registered, Send, Written, HasWrite, ByteBuffer.Valid, ByteBuffer.Readable;
      ghost var was := Value();
      var nwrited, nleft, from := TryDirect(memory, at, size, wrote);
      if nleft > 0 {
        Queue(memory[from..from + nleft], registry);
      }
      SendParts(was, memory, at, size, wrote);
      result := if nwrited >= TWO_64 / 2 then nwrited - TWO_64 else nwrited;
    }

    /** Lines 92-112 in the arithmetic of `size_t`, that is modulo 2^64: what was written, what is
        left, and where that starts. */
    method TryDirect(memory: seq<uint8>, at: nat, size: nat, wrote: int) returns (nwrited: nat, nleft: nat, from: nat)
      requires Valid() && at + size <= |memory| < TWO_64 / 2 && -1 <= wrote <= size
      requires wrote < 0 && Value().Direct() ==> at > 0
      modifies this`wire
      ensures Valid() && wire == Written(old(Value()), memory, at, wrote)
      ensures var direct := old(Value()).Direct();
              && nwrited == (if !direct then 0 else if wrote < 0 then TWO_64 - 1 else wrote)
              && nleft == (if direct then size - wrote else size)
              && from == (if direct then at + wrote else at)
    {
      hide HasWrite;
      nwrited, nleft := 0, size;
      if !channel.WriteEnabled() && outputBuffer.ReadableSize() == 0 {
        nwrited := if wrote < 0 then wrote + TWO_64 else wrote;
        nleft := (nleft - nwrited) % TWO_64;
        if wrote > 0 {
          wire := wire + memory[at..at + wrote];
        }
      }
      from := (at + nwrited) % TWO_64;
    }

    static ghost function Written(s: Stream, memory: seq<uint8>, at: nat, wrote: int): seq<uint8>
      requires at + wrote <= |memory|
    {
      if s.Direct() && wrote > 0 then s.wire + memory[at..at + wrote] else s.wire
    }

    /** What is written at once and what is queued make up a send. */
    static lemma SendParts(s: Stream, memory: seq<uint8>, at: nat, size: nat, wrote: int)
      requires at + size <= |memory| && -1 <= wrote <= size && (wrote < 0 && s.Direct() ==> at > 0)
      ensures var from, nleft := if s.Direct() then at + wrote else at, if s.Direct() then size - wrote else size;
              Send(s, if at > 0 then memory[at - 1] else 0, memory[at..at + size], wrote) ==
              Stream(Written(s, memory, at, wrote), s.buffer + memory[from..from + nleft], s.writing || nleft > 0)
    {
      var payload := memory[at..at + size];
      if s.Direct() {
        if wrote < 0 {
          assert memory[at - 1..at + size] == [memory[at - 1]] + payload;
        } else {
          assert payload[..wrote] == memory[at..at + wrote] && payload[wrote..] == memory[at + wrote..at + size];
        }
      }
    }

    /** Lines 114-120: bytes are queued and write events are switched on if they are not. */
    method Queue(bytes: seq<uint8>, ghost registry: map<int, Channel>)
      requires Valid() && Registered(registry)
      modifies channel, outputBuffer, outputBuffer.data, eventLoop, eventLoop.pendingTail, eventLoop.channelMap,
               eventLoop.channelMap.entries, eventLoop.dispatcher.eventSet
      ensures Valid() && Registered(registry) && wire == old(wire)
      ensures outputBuffer.data == old(outputBuffer.data) || fresh(outputBuffer.data)
      ensures eventLoop.channelMap.entries == old(eventLoop.channelMap.entries) || fresh(eventLoop.channelMap.entries)
      ensures outputBuffer.Readable() == old(outputBuffer.Readable()) + bytes && channel.WriteEnabled()
    {
      hide HasWrite, WithWrite, Holds, WatchedFor, Legal, EventLoop.WillHold, EventLoop.Table;
      outputBuffer.Append(bytes);
      if !channel.WriteEnabled() {
        SetWriting(true, registry);
      }
    }

    /** `handle_write`: `write` returns `wrote` for the bytes of the output buffer. */
    method HandleWrite(wrote: int, ghost registry: map<int, Channel>)
      requires Valid() && Registered(registry) && -1 <= wrote <= outputBuffer.ReadableSize()
      modifies this, channel, outputBuffer, eventLoop, eventLoop.pendingTail, eventLoop.channelMap,
               eventLoop.channelMap.entries, eventLoop.dispatcher.eventSet
      ensures Valid() && Registered(registry) && outputBuffer.data == old(outputBuffer.data)
      ensures eventLoop.channelMap.entries == old(eventLoop.channelMap.entries) || fresh(eventLoop.channelMap.entries)
      ensures Value() == Flush(old(Value()), wrote)
    {
      hide Holds, WatchedFor, HasWrite, WithWrite, EventLoop.WillHold;
      if wrote > 0 {
        wire := wire + outputBuffer.Readable()[..wrote];
        outputBuffer.Consume(wrote);
        if outputBuffer.ReadableSize() == 0 {
          SetWriting(false, registry);
        }
      }
    }

    /** `tcp_connection_send_buffer`: the readable bytes of another buffer, which is then empty. */
    method SendBuffer(buffer: ByteBuffer, wrote: int, ghost registry: map<int, Channel>) returns (result: int)
      requires Valid() && Registered(registry) && buffer.Valid() && buffer != outputBuffer
      requires buffer.data != outputBuffer.data && buffer.data.Length < TWO_64 / 2
      requires buffer.ReadableSize() < INT_MAX && -1 <= wrote <= buffer.ReadableSize()
      requires wrote < 0 && Value().Direct() ==> buffer.readIndex > 0
      modifies this, channel, outputBuffer, outputBuffer.data, buffer`readIndex, eventLoop, eventLoop.pendingTail,
               eventLoop.channelMap, eventLoop.channelMap.entries, eventLoop.dispatcher.eventSet
      ensures Valid() && Registered(registry) && buffer.Valid() && buffer.Readable() == []
      ensures Value() == Send(old(Value()), old(if buffer.readIndex > 0 then buffer.data[buffer.readIndex - 1] else 0),
                              old(buffer.Readable()), wrote)
    {
      hide Registered, Send, HasWrite, EventLoop.Valid, ByteBuffer.Readable;
      var size := buffer.ReadableSize();
      buffer.ReadableInBlock();
      result := SendData(buffer.data[..], buffer.readIndex, size, wrote, registry);
      buffer.Consume(size);
    }

    /** `handle_read`: what arrives is queued for the application; at the end of the stream, or when
        the read fails, the channel leaves the loop. */
    method HandleRead(arrived: Option<seq<uint8>>, ghost registry: map<int, Channel>) returns (closed: bool)
      requires Valid() && Registered(registry)
      requires arrived.Some? ==> |arrived.value| <= inputBuffer.WriteableSize() + INIT_BUFFER_SIZE
      modifies inputBuffer, inputBuffer.data, eventLoop, eventLoop.pendingTail, eventLoop.channelMap,
               eventLoop.channelMap.entries, eventLoop.dispatcher.eventSet
      ensures Valid() && Value() == old(Value())
      ensures closed <==> arrived.None? || arrived.value == []
      ensures inputBuffer.Readable() == old(inputBuffer.Readable()) + if closed then [] else arrived.value
      ensures if closed then Holds(eventLoop.Table(), registry - {channel.fd}) else Registered(registry)
    {
      hide Holds, WatchedFor, HasWrite, EventLoop.WillHold, EventLoop.Table, EventLoop.Valid, Legal,
           ByteBuffer.Readable;
      var result := inputBuffer.SocketRead(arrived);
      if result > 0 {
        return false;
      }
      UpdateIsLegal(registry);
      eventLoop.RemoveChannel(channel, registry);
      return true;
    }
  }
}
