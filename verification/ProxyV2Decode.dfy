/** The TLV loop of the parser against a recursive reading of the same bytes
    (asio_server/proxy_protocol.cpp:938-1093). */
module ProxyV2Decode {
  import opened MachineTypes
  import opened Wrappers
  import opened ProxyInfo
  import opened ProxyV2Create
  import opened ProxyV2Parse
  import opened ProxyV2Endless
  import Crc = Crc32c

  /** The vectors a region declares, and what is left when three bytes or fewer remain or a
      declared length does not fit. */
  function Split(region: seq<uint8>): (seq<TlvVector>, seq<uint8>) {
    if |region| <= 3 || U16At(region, 1) > |region| - 3 then
      ([], region)
    else
      var n := U16At(region, 1);
      var (ts, tail) := Split(region[3 + n..]);
      ([Tlv(region[0], region[3..3 + n])] + ts, tail)
  }

  lemma SliceOfSlice(buf: seq<uint8>, pos: nat, end: nat, i: nat, j: nat)
    requires i <= j && pos + j <= end <= |buf|
    ensures buf[pos..end][i..j] == buf[pos + i..pos + j]
  {
    var a, b := buf[pos..end][i..j], buf[pos + i..pos + j];
    assert |a| == |b| && forall k :: 0 <= k < |a| ==> a[k] == buf[pos..end][i + k] == b[k];
  }

  /** The first vector of a region, and the region behind it. */
  lemma SplitHead(buf: seq<uint8>, pos: nat, end: nat)
    requires pos + 3 < end <= |buf| && 3 + U16At(buf, pos + 1) as int <= end - pos
    ensures var n := U16At(buf, pos + 1);
            var (ts, tail) := Split(buf[pos + 3 + n..end]);
            Split(buf[pos..end]) == ([Tlv(buf[pos], buf[pos + 3..pos + 3 + n])] + ts, tail)
  {
    hide Split, U16At;
    var region, n: int := buf[pos..end], U16At(buf, pos + 1);
    SameU16(buf, pos, end, 1);
    SliceOfSlice(buf, pos, end, 3, 3 + n);
    SliceOfSlice(buf, pos, end, 3 + n, end - pos);
    assert region[3 + n..] == region[3 + n..end - pos];
    SplitCons(region, n);
  }

  lemma SameU16(buf: seq<uint8>, pos: nat, end: nat, i: nat)
    requires pos + i + 2 <= end <= |buf|
    ensures U16At(buf[pos..end], i) == U16At(buf, pos + i)
  {
  }

  lemma SplitCons(region: seq<uint8>, n: nat)
    requires |region| > 3 && U16At(region, 1) == n && 3 + n <= |region|
    ensures var (ts, tail) := Split(region[3 + n..]);
            Split(region) == ([Tlv(region[0], region[3..3 + n])] + ts, tail)
  {
    hide U16At;
  }

  lemma SplitEnds(buf: seq<uint8>, pos: nat, end: nat)
    requires pos <= end <= |buf| && (end - pos <= 3 || 3 + U16At(buf, pos + 1) as int > end - pos)
    ensures Split(buf[pos..end]) == ([], buf[pos..end])
    ensures end - pos > 3 ==> U16At(buf[pos..end], 1) == U16At(buf, pos + 1)
  {
  }

  lemma TlvBytesAt(buf: seq<uint8>, pos: nat)
    requires pos + 3 <= |buf| && pos + 3 + U16At(buf, pos + 1) as int <= |buf|
    ensures var n := U16At(buf, pos + 1);
            TlvBytes(Tlv(buf[pos], buf[pos + 3..pos + 3 + n])) == buf[pos..pos + 3 + n]
  {
    var n := U16At(buf, pos + 1);
    assert n / 256 == buf[pos + 1] && n % 256 == buf[pos + 2];
  }

  /** Nothing of the region is lost or made up. */
  lemma {:induction false} SplitKeepsBytes(buf: seq<uint8>, pos: nat, end: nat)
    requires pos <= end <= |buf|
    ensures TlvsBytes(Split(buf[pos..end]).0) + Split(buf[pos..end]).1 == buf[pos..end]
    decreases end - pos
  {
    hide Split, TlvBytes, U16At;
    if end - pos <= 3 || 3 + U16At(buf, pos + 1) as int > end - pos {
      SplitEnds(buf, pos, end);
    } else {
      var n := U16At(buf, pos + 1);
      var ts, rest := Split(buf[pos..end]).0, Split(buf[pos + 3 + n..end]).0;
      SplitHead(buf, pos, end);
      SplitKeepsBytes(buf, pos + 3 + n, end);
      TlvBytesAt(buf, pos);
      assert ts[1..] == rest;
      assert TlvsBytes(ts) == buf[pos..pos + 3 + n] + TlvsBytes(rest);
      assert buf[pos..end] == buf[pos..pos + 3 + n] + buf[pos + 3 + n..end];
    }
  }

  /** Vectors laid out one after another are found again, whatever up to three bytes follow them;
      only a last vector without a value needs at least one byte behind it. */
  lemma {:induction false} SplitFindsVectors(ts: seq<TlvVector>, tail: seq<uint8>)
    requires |tail| <= 3 && (ts != [] && tail == [] ==> ts[|ts| - 1].value != [])
    ensures Split(TlvsBytes(ts) + tail) == (ts, tail)
    decreases |ts|
  {
    var region := TlvsBytes(ts) + tail;
    if ts == [] {
      assert region == tail;
    } else {
      var t, rest := ts[0], ts[1..];
      var n := |t.value|;
      assert region == TlvBytes(t) + (TlvsBytes(rest) + tail);
      assert region[0] == t.kind && region[1] == n / 256 && region[2] == n % 256;
      assert region[3..3 + n] == t.value;
      assert region[3 + n..] == TlvsBytes(rest) + tail;
      if rest != [] {
        assert |TlvsBytes(rest)| >= 3;
      }
      SplitFindsVectors(rest, tail);
      assert ts == [t] + rest;
    }
  }

  /** What the parser keeps of one flat vector, or how the call ends at it. `last`: the vector ends
      the buffer, so that a value cannot be copied with one byte more. */
  function Keep(t: TlvVector, last: bool): (r: Fate)
    requires |t.value| <= 0xFFFC
    ensures r.EndsCall? ==> !r.outcome.Length?
  {
    var n := |t.value|;
    if t.kind == TYPE_ALPN || t.kind == TYPE_AUTHORITY then Keeps([t])
    else if t.kind == TYPE_UNIQUE_ID then if n > 128 then EndsCall(Error(-ERR_PP2_TYPE_UNIQUE_ID)) else Keeps([t])
    else if t.kind == TYPE_NETNS then KeepAscii(t, last)
    else if t.kind == TYPE_AWS then
      if n < 2 then EndsCall(Error(-ERR_PP2_TYPE_AWS))
      else if t.value[0] == 0x01 then KeepAscii(t, last) else Keeps([])
    else if t.kind == TYPE_AZURE then
      if n < 5 then EndsCall(Error(-ERR_PP2_TYPE_AZURE))
      else Keeps(if t.value[0] == 0x01 then [t] else [])
    else
      Keeps([])
  }

  datatype Fate = Keeps(tlvs: seq<TlvVector>) | EndsCall(outcome: Outcome)

  function KeepAscii(t: TlvVector, last: bool): Fate
    requires |t.value| <= 0xFFFC
  {
    if last then EndsCall(Overread) else Keeps([Tlv(t.kind, t.value + [0])])
  }

  /** The reading of a list of vectors: how the call ends, if it ends at one of them, what is kept,
      and the buffer, in which a checksum that was looked at has become zero. */
  datatype Reading = Reading(ends: Option<Outcome>, buf: seq<uint8>, tlvs: seq<TlvVector>, crc32c: bool)

  /** A checksum vector whose value starts at `at`: it must have four bytes and be the checksum of
      everything up to `end` with those bytes zero. */
  function ReadChecksum(t: TlvVector, buf: seq<uint8>, at: nat, end: nat): Reading
    requires at + |t.value| <= end <= |buf|
  {
    if |t.value| != 4 then Reading(Some(Error(-ERR_PP2_TYPE_CRC32C)), buf, [], false)
    else
      var zeroed := ZeroFour(buf, at);
      if t.value == Crc.Checksum(zeroed[..end]) then Reading(None, zeroed, [t], true)
      else Reading(Some(Error(-ERR_PP2_TYPE_CRC32C)), zeroed, [], false)
  }

  /** The vector at `at`. */
  function ReadOne(t: TlvVector, buf: seq<uint8>, at: nat, end: nat): (r: Reading)
    requires at + 3 + |t.value| <= end <= |buf| && |t.value| <= 0xFFFC
    ensures |r.buf| == |buf|
    ensures r.ends.Some? ==> r.tlvs == [] && !r.crc32c
  {
    if t.kind == TYPE_CRC32C then ReadChecksum(t, buf, at + 3, end)
    else
      match Keep(t, at + 3 + |t.value| == |buf|)
      case EndsCall(outcome) => Reading(Some(outcome), buf, [], false)
      case Keeps(us) => Reading(None, buf, us, false)
  }

  /** The vectors from `at` on, read one after another. */
  function ReadAll(ts: seq<TlvVector>, buf: seq<uint8>, at: nat, end: nat): (r: Reading)
    requires at + |TlvsBytes(ts)| <= end <= |buf|
    requires forall t :: t in ts ==> |t.value| <= 0xFFFC
    ensures |r.buf| == |buf|
    decreases |ts|
  {
    if ts == [] then
      Reading(None, buf, [], false)
    else
      var first := ReadOne(ts[0], buf, at, end);
      if first.ends.Some? then first
      else
        var rest := ReadAll(ts[1..], first.buf, at + 3 + |ts[0].value|, end);
        Reading(rest.ends, rest.buf, first.tlvs + rest.tlvs, first.crc32c || rest.crc32c)
  }

  function Holding(info: Info, r: Reading): Info {
    info.(tlvs := info.tlvs + r.tlvs, crc32c := info.crc32c || r.crc32c)
  }

  lemma CopiedUnless(buf: seq<uint8>, at: nat, n: uint16)
    requires n < 0xFFFF && at + n <= |buf|
    ensures CopyAscii(buf, at, n) == if at + n == |buf| then Failed(Overread) else Copied(buf[at..at + n] + [0])
  {
  }

  lemma FlatStepKeeps(buf: seq<uint8>, pos: nat, rem: uint16, info: Info)
    requires rem > 3 && pos + rem <= |buf| && 3 + U16At(buf, pos + 1) as int <= rem as int
    requires buf[pos] != TYPE_SSL && buf[pos] != TYPE_CRC32C
    ensures var n := U16At(buf, pos + 1);
            match Keep(Tlv(buf[pos], buf[pos + 3..pos + 3 + n]), pos + 3 + n == |buf|)
            case EndsCall(o) => TlvStep(buf, pos, rem, info) == Stop(o, buf, info)
            case Keeps(us) => TlvStep(buf, pos, rem, info) == Next(buf, info.(tlvs := info.tlvs + us), 3 + n)
  {
    hide SslStep, CrcStep, U16At, U16, CopyAscii;
    CopiedUnless(buf, pos + 3, U16At(buf, pos + 1));
    assert info.tlvs + [] == info.tlvs;
    U16Is(3 + U16At(buf, pos + 1) as int, 3 + U16At(buf, pos + 1) as int, 0);
  }

  lemma ChecksumStepReads(buf: seq<uint8>, pos: nat, rem: uint16, info: Info)
    requires rem > 3 && pos + rem <= |buf| && 3 + U16At(buf, pos + 1) as int <= rem as int && buf[pos] == TYPE_CRC32C
    ensures var n := U16At(buf, pos + 1);
            var r := ReadChecksum(Tlv(buf[pos], buf[pos + 3..pos + 3 + n]), buf, pos + 3, pos + rem);
            TlvStep(buf, pos, rem, info) ==
            if r.ends.Some? then Stop(r.ends.value, r.buf, info) else Next(r.buf, Holding(info, r), 3 + n)
  {
    hide SslStep, StoreStep, AsciiStep, U16At, U16, Crc.Checksum;
    U16Is(3 + U16At(buf, pos + 1) as int, 3 + U16At(buf, pos + 1) as int, 0);
  }

  lemma SplitLengths(region: seq<uint8>)
    requires |region| <= 0xFFFF
    ensures forall t :: t in Split(region).0 ==> |t.value| <= 0xFFFC
    ensures |TlvsBytes(Split(region).0)| + |Split(region).1| == |region|
    decreases |region|
  {
    hide TlvBytes, U16At, TlvsBytes;
    if |region| > 3 && U16At(region, 1) <= |region| - 3 {
      var n := U16At(region, 1);
      var t, rest := Tlv(region[0], region[3..3 + n]), Split(region[3 + n..]).0;
      assert |t.value| == n;
      SplitLengths(region[3 + n..]);
      ConsSize(t, rest);
    } else {
      NoSize();
    }
  }

  lemma ConsSize(t: TlvVector, ts: seq<TlvVector>)
    ensures |TlvsBytes([t] + ts)| == 3 + |t.value| + |TlvsBytes(ts)|
  {
    assert ([t] + ts)[1..] == ts;
  }

  lemma NoSize()
    ensures TlvsBytes([]) == []
  {
  }

  /** One turn at a vector that fits is the reading of that vector. */
  lemma StepReads(buf: seq<uint8>, pos: nat, rem: uint16, info: Info)
    requires rem > 3 && pos + rem <= |buf| && 3 + U16At(buf, pos + 1) as int <= rem as int && buf[pos] != TYPE_SSL
    ensures var t := Tlv(buf[pos], buf[pos + 3..pos + 3 + U16At(buf, pos + 1)]);
            var r := ReadOne(t, buf, pos, pos + rem);
            TlvStep(buf, pos, rem, info) ==
            if r.ends.Some? then Stop(r.ends.value, r.buf, info) else Next(r.buf, Holding(info, r), 3 + |t.value|)
  {
    hide U16At, TlvStep, Keep, ReadChecksum;
    if buf[pos] == TYPE_CRC32C {
      ChecksumStepReads(buf, pos, rem, info);
    } else {
      FlatStepKeeps(buf, pos, rem, info);
    }
  }

  lemma ReadCons(t: TlvVector, ts: seq<TlvVector>, buf: seq<uint8>, at: nat, end: nat)
    requires at + |TlvsBytes([t] + ts)| <= end <= |buf| && |t.value| <= 0xFFFC
    requires forall u :: u in ts ==> |u.value| <= 0xFFFC
    ensures at + 3 + |t.value| + |TlvsBytes(ts)| <= end
    ensures var first := ReadOne(t, buf, at, end);
            ReadAll([t] + ts, buf, at, end) ==
            if first.ends.Some? then first
            else
              var rest := ReadAll(ts, first.buf, at + 3 + |t.value|, end);
              Reading(rest.ends, rest.buf, first.tlvs + rest.tlvs, first.crc32c || rest.crc32c)
  {
    hide ReadOne, TlvBytes, TlvsBytes;
    ConsSize(t, ts);
    assert ([t] + ts)[1..] == ts;
  }

  /** For a region without SSL vectors the loop does what the recursive reading says: it keeps the
      same vectors, ends at the same one in the same way, and leaves the same buffer. Behind the
      vectors it returns the length of the header if at most three bytes are left, and refuses a vector
      that does not fit; only a declared length above 65532 makes it go on inside the tail. */
  lemma {:induction false} WalkDecodes(buf: seq<uint8>, pos: nat, rem: uint16, info: Info)
    requires pos + rem <= |buf|
    requires forall t :: t in Split(buf[pos..pos + rem]).0 ==> t.kind != TYPE_SSL
    ensures var (ts, tail) := Split(buf[pos..pos + rem]);
            && |tail| <= rem as int && pos + |TlvsBytes(ts)| + |tail| == pos + rem
            && (forall t :: t in ts ==> |t.value| <= 0xFFFC)
            && var r := ReadAll(ts, buf, pos, pos + rem);
               Walk(buf, pos, rem, info) ==
               if r.ends.Some? then Parsed(r.ends.value, r.buf, Holding(info, r))
               else if |tail| <= 3 then Parsed(Length(pos + rem), r.buf, Holding(info, r))
               else if U16At(tail, 1) <= 0xFFFC then Parsed(Error(-ERR_PP2_TLV_LENGTH), r.buf, Holding(info, r))
               else Walk(r.buf, pos + rem - |tail|, |tail|, Holding(info, r))
    decreases rem
  {
    hide TlvStep, Split, U16At, ReadAll, ReadOne, TlvsBytes, Walk, Holding;
    var end := pos + rem;
    SplitLengths(buf[pos..end]);
    if rem <= 3 || 3 + U16At(buf, pos + 1) as int > rem as int {
      WalkUnfolds(buf, pos, rem, info);
      SplitEnds(buf, pos, end);
      NothingRead(buf, pos, end, info);
      if rem > 3 && U16At(buf, pos + 1) <= 0xFFFC {
        TooLongStops(buf, pos, rem, info);
      }
    } else {
      var n: int := U16At(buf, pos + 1);
      var t, rest := Tlv(buf[pos], buf[pos + 3..pos + 3 + n]), Split(buf[pos + 3 + n..end]).0;
      SplitHead(buf, pos, end);
      assert Split(buf[pos..end]).0 == [t] + rest;
      TurnReads(buf, pos, rem, info);
      SplitLengths(buf[pos + 3 + n..end]);
      ReadCons(t, rest, buf, pos, end);
      var r := ReadOne(t, buf, pos, end);
      if r.ends.None? {
        WalkDecodes(r.buf, pos + 3 + n, rem - 3 - n, Holding(info, r));
        HoldingBoth(info, r, ReadAll(rest, r.buf, pos + 3 + n, end));
      } else {
        HoldsNothing(info, r);
      }
    }
  }

  /** The loop takes the turn of `StepReads`, and the region behind the vector is as before. */
  lemma TurnReads(buf: seq<uint8>, pos: nat, rem: uint16, info: Info)
    requires rem > 3 && pos + rem <= |buf| && 3 + U16At(buf, pos + 1) as int <= rem as int && buf[pos] != TYPE_SSL
    ensures var n, end := U16At(buf, pos + 1) as int, pos + rem;
            var r := ReadOne(Tlv(buf[pos], buf[pos + 3..pos + 3 + n]), buf, pos, end);
            && Walk(buf, pos, rem, info) ==
               (if r.ends.Some? then Parsed(r.ends.value, r.buf, info)
                else Walk(r.buf, pos + 3 + n, rem - 3 - n, Holding(info, r)))
            && (r.ends.None? ==> r.buf[pos + 3 + n..end] == buf[pos + 3 + n..end])
  {
    hide TlvStep, U16At, ReadOne, Walk, Holding;
    WalkUnfolds(buf, pos, rem, info);
    StepReads(buf, pos, rem, info);
    StepClears(buf, pos, rem, info);
    var s := TlvStep(buf, pos, rem, info);
    if s.Next? {
      SameBehind(buf, s.buf, pos + 3, U16At(buf, pos + 1), pos + rem);
    }
  }

  lemma SameBehind(buf: seq<uint8>, buf': seq<uint8>, at: nat, n: nat, end: nat)
    requires at + n <= end <= |buf| == |buf'|
    requires buf != buf' ==> n == 4
    requires forall k :: 0 <= k < |buf| && buf[k] != buf'[k] ==> at <= k < at + 4
    ensures buf[at + n..end] == buf'[at + n..end]
  {
  }

  lemma NothingRead(buf: seq<uint8>, pos: nat, end: nat, info: Info)
    requires pos <= end <= |buf|
    ensures TlvsBytes([]) == [] && ReadAll([], buf, pos, end) == Reading(None, buf, [], false)
    ensures Holding(info, Reading(None, buf, [], false)) == info
  {
    assert info.tlvs + [] == info.tlvs;
  }

  /** A vector at which the call ends is not kept. */
  lemma HoldsNothing(info: Info, r: Reading)
    requires r.tlvs == [] && !r.crc32c
    ensures Holding(info, r) == info
  {
    assert info.tlvs + [] == info.tlvs;
  }

  lemma HoldingBoth(info: Info, first: Reading, rest: Reading)
    ensures Holding(Holding(info, first), rest) ==
            Holding(info, Reading(rest.ends, rest.buf, first.tlvs + rest.tlvs, first.crc32c || rest.crc32c))
  {
    assert info.tlvs + first.tlvs + rest.tlvs == info.tlvs + (first.tlvs + rest.tlvs);
  }

  lemma TooLongStops(buf: seq<uint8>, pos: nat, rem: uint16, info: Info)
    requires rem > 3 && pos + rem <= |buf| && 3 + U16At(buf, pos + 1) as int > rem as int
          && U16At(buf, pos + 1) <= 0xFFFC
    ensures TlvStep(buf, pos, rem, info) == Stop(Error(-ERR_PP2_TLV_LENGTH), buf, info)
  {
  }

  // ---------- what becomes of the buffer ----------

  lemma StepClears(buf: seq<uint8>, pos: nat, rem: uint16, info: Info)
    requires rem > 3 && pos + rem <= |buf|
    ensures var s := TlvStep(buf, pos, rem, info);
            && |s.buf| == |buf|
            && (s.buf != buf ==> buf[pos] == TYPE_CRC32C && U16At(buf, pos + 1) == 4 && 7 <= rem)
            && forall k :: 0 <= k < |buf| && buf[k] != s.buf[k] ==> s.buf[k] == 0 && pos + 3 <= k < pos + 7
  {
    hide U16At, SslLoop, Crc.Checksum;
  }

  /** In some turn the loop looks at a checksum vector whose value holds byte `k`. */
  ghost predicate LooksAt(p: Place, k: nat)
    requires p.Inside()
  {
    exists i: nat :: AtChecksum(PlaceAt(p, i), k)
  }

  ghost predicate AtChecksum(at: Option<Place>, k: nat) {
    at.Some? &&
    var q := at.value;
    q.Inside() && 7 <= q.rem && q.buf[q.pos] == TYPE_CRC32C && U16At(q.buf, q.pos + 1) == 4 && q.pos + 3 <= k < q.pos
          + 7
  }

  /** On any input the loop changes nothing but bytes of checksum vectors it looks at, all inside the
      region, and these become zero. */
  lemma {:induction false} WalkClearsOnlyChecksums(p: Place, k: nat)
    requires p.Inside() && k < |p.buf|
    ensures var after := Walk(p.buf, p.pos, p.rem, p.info).buf;
            && |after| == |p.buf|
            && (p.buf[k] != after[k] ==> after[k] == 0 && p.pos <= k < p.pos + p.rem && LooksAt(p, k))
    decreases p.rem
  {
    hide TlvStep, U16At, Walk;
    WalkUnfolds(p.buf, p.pos, p.rem, p.info);
    if p.rem > 3 {
      StepClears(p.buf, p.pos, p.rem, p.info);
      assert PlaceAt(p, 0) == Some(p);
      if p.buf[k] != p.Turn().buf[k] {
        assert AtChecksum(PlaceAt(p, 0), k);
      }
      if p.Turn().Next? && p.Turn().offset > 0 {
        var q := Behind(p, p.Turn());
        WalkClearsOnlyChecksums(q, k);
        if LooksAt(q, k) {
          var i: nat :| AtChecksum(PlaceAt(q, i), k);
          assert PlaceAt(p, i + 1) == PlaceAt(q, i);
        }
      }
    }
  }
}
