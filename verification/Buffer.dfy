/** The byte buffer of a connection (test_epoll/lib/buffer.c): a block with a read and a write
    index that refines a queue of bytes, through compaction, growth and the scatter read. */
module Buffer {
  import opened MachineTypes
  import opened Wrappers
  import opened CStrings
  import opened Memory

  const INIT_BUFFER_SIZE := 65536
  const CRLF: seq<uint8> := [0x0D, 0x0A]

  /** Bytes written behind a slice make it longer. */
  lemma SliceGrows(before: seq<uint8>, after: seq<uint8>, from: nat, to: nat, bytes: seq<uint8>)
    requires from <= to <= |before| && to + |bytes| <= |after|
    requires after[..to + |bytes|] == before[..to] + bytes
    ensures after[from..to + |bytes|] == before[from..to] + bytes
  {
    assert after[from..to + |bytes|] == after[..to + |bytes|][from..];
    assert before[from..to] == before[..to][from..];
  }

  class ByteBuffer {
    var data: array<uint8>
    var readIndex: nat
    var writeIndex: nat
    var totalSize: nat

    ghost predicate Valid()
      reads this
    {
      data.Length == totalSize && readIndex <= writeIndex <= totalSize
    }

    /** The queue: what was written and not yet read. */
    ghost function Readable(): seq<uint8>
      requires Valid()
      reads this, data
    {
      data[readIndex..writeIndex]
    }

    constructor ()
      ensures Valid() && fresh(data) && Readable() == [] && totalSize == INIT_BUFFER_SIZE
    {
      data := new uint8[INIT_BUFFER_SIZE];
      totalSize, readIndex, writeIndex := INIT_BUFFER_SIZE, 0, 0;
    }

    /** The queue, cut out of the whole block. */
    lemma ReadableInBlock()
      requires Valid()
      ensures data[..][readIndex..readIndex + ReadableSize()] == Readable()
    {
    }

    function WriteableSize(): (n: nat)
      requires Valid()
      reads this
      ensures writeIndex + n == totalSize
    {
      totalSize - writeIndex
    }

    function ReadableSize(): (n: nat)
      requires Valid()
      reads this, data
      ensures n == |Readable()|
    {
      writeIndex - readIndex
    }

    function FrontSpareSize(): nat
      reads this
    {
      readIndex
    }

    /** Makes `size` bytes writable: nothing to do, or the readable bytes move to the front one by
        one, or the block grows by `size`. The queue stays as it is. */
    method MakeRoom(size: nat)
      requires Valid()
      modifies this, data
      ensures Valid() && Readable() == old(Readable()) && WriteableSize() >= size
      ensures data == old(data) || fresh(data)
      ensures totalSize == if old(readIndex + WriteableSize()) >= size then old(totalSize) else old(totalSize) + size
    {
      if WriteableSize() >= size {
        return;
      }
      if FrontSpareSize() + WriteableSize() >= size {
        var readable := ReadableSize();
        MoveToFront(data, readIndex, readable);
        readIndex := 0;
        writeIndex := readable;
      } else {
        var bigger := new uint8[totalSize + size];
        forall k | 0 <= k < totalSize {
          bigger[k] := data[k];
        }
        data := bigger;
        totalSize := totalSize + size;
      }
    }

    /** Lines 41-45: byte by byte from the front, so the overlap does no harm. */
    static method MoveToFront(block: array<uint8>, from: nat, n: nat)
      requires from + n <= block.Length
      modifies block
      ensures block[..n] == old(block[from..from + n])
    {
      ghost var queue := block[from..from + n];
      var i := 0;
      while i < n
        invariant 0 <= i <= n
        invariant forall k :: 0 <= k < i ==> block[k] == queue[k]
        invariant forall k :: i <= k < n ==> block[from + k] == queue[k]
      {
        block[i] := block[from + i];
        i := i + 1;
      }
    }

    /** `buffer_append`. */
    method Append(bytes: seq<uint8>)
      requires Valid()
      modifies this, data
      ensures Valid() && Readable() == old(Readable()) + bytes
      ensures data == old(data) || fresh(data)
    {
      MakeRoom(|bytes|);
      AppendInPlace(bytes);
    }

    /** Lines 63-64: the copy behind what is there. */
    method AppendInPlace(bytes: seq<uint8>)
      requires Valid() && WriteableSize() >= |bytes|
      modifies this`writeIndex, data
      ensures Valid() && Readable() == old(Readable()) + bytes
    {
      ghost var before := data[..];
      Memcpy(data, writeIndex, bytes);
      writeIndex := writeIndex + |bytes|;
      SliceGrows(before, data[..], readIndex, writeIndex - |bytes|, bytes);
    }

    method AppendChar(c: uint8)
      requires Valid()
      modifies this, data
      ensures Valid() && Readable() == old(Readable()) + [c]
      ensures data == old(data) || fresh(data)
    {
      MakeRoom(1);
      data[writeIndex] := c;
      writeIndex := writeIndex + 1;
    }

    /** `buffer_socket_read`: one `readv` into the free end of the block and then into a spill buffer
        on the stack. `arrived` is what the system call delivers, `None` when it fails. */
    method SocketRead(arrived: Option<seq<uint8>>) returns (result: int)
      requires Valid()
      requires arrived.Some? ==> |arrived.value| <= WriteableSize() + INIT_BUFFER_SIZE
      modifies this, data
      ensures Valid()
      ensures data == old(data) || fresh(data)
      ensures arrived.None? ==> result == -1 && Readable() == old(Readable())
      ensures arrived.Some? ==> result == |arrived.value| && Readable() == old(Readable()) + arrived.value
    {
      var additional := new uint8[INIT_BUFFER_SIZE];
      if arrived.None? {
        return -1;
      }
      result := |arrived.value|;
      var spilled := TakeIn(arrived.value, additional);
      if spilled > 0 {
        Append(additional[..spilled]);
      }
    }

    /** The bytes that fit go to the free end of the block, the rest to `additional`. */
    method TakeIn(bytes: seq<uint8>, additional: array<uint8>) returns (spilled: nat)
      requires Valid() && additional != data && |bytes| <= WriteableSize() + additional.Length
      modifies this, data, additional
      ensures Valid() && data == old(data) && totalSize == old(totalSize) && spilled <= additional.Length
      ensures Readable() + additional[..spilled] == old(Readable()) + bytes
    {
      var maxWritable := WriteableSize();
      var n := if |bytes| <= maxWritable then |bytes| else maxWritable;
      ghost var before := data[..];
      Readv(data, writeIndex, maxWritable, additional, bytes);
      writeIndex := writeIndex + n;
      spilled := |bytes| - n;
      SliceGrows(before, data[..], readIndex, writeIndex - n, bytes[..n]);
      assert bytes == bytes[..n] + bytes[n..];
    }

    /** What a successful `readv` leaves in its two parts. */
    static method Readv(first: array<uint8>, at: nat, room: nat, second: array<uint8>, bytes: seq<uint8>)
      requires first != second && at + room == first.Length && |bytes| <= room + second.Length
      modifies first, second
      ensures var n := if |bytes| <= room then |bytes| else room;
              && first[..at + n] == old(first[..at]) + bytes[..n]
              && second[..|bytes| - n] == bytes[n..]
    {
      var n := if |bytes| <= room then |bytes| else room;
      Memcpy(first, at, bytes[..n]);
      Memcpy(second, 0, bytes[n..]);
    }

    /** `buffer_read_char`; the caller must know that there is one. */
    method ReadChar() returns (c: uint8)
      requires Valid() && ReadableSize() > 0
      modifies this`readIndex
      ensures Valid() && [c] + Readable() == old(Readable())
    {
      c := data[readIndex];
      readIndex := readIndex + 1;
    }

    /** Moves the read index on, as the callers do directly. */
    method Consume(n: nat)
      requires Valid() && n <= ReadableSize()
      modifies this`readIndex
      ensures Valid() && Readable() == old(Readable())[n..]
    {
      readIndex := readIndex + n;
    }

    /** `buffer_find_CRLF`, as an offset from the read index: the first CRLF of the queue. */
    method FindCrlf() returns (at: Option<nat>)
      requires Valid()
      ensures at == Memmem(Readable(), CRLF, 0)
      ensures at.Some? ==> OccursAt(Readable(), CRLF, at.value)
      ensures forall k: nat :: (at.Some? ==> k < at.value) ==> !OccursAt(Readable(), CRLF, k)
    {
      MemmemIsFirst(Readable(), CRLF, 0);
      at := Memmem(data[readIndex..writeIndex], CRLF, 0);
    }
  }
}
