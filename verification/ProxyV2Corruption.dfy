/** A header created with a checksum: any change of bits within four consecutive bytes of the
    addresses, of a vector's value, of the padding or of the checksum itself is rejected
    (asio_server/proxy_protocol.cpp:713-721 and 957-976). */
module ProxyV2Corruption {
  import opened MachineTypes
  import opened Wrappers
  import opened Blocks
  import opened ProxyInfo
  import opened ProxyVectors
  import opened ProxyV2Create
  import opened ProxyV2Parse
  import opened ProxyV2RoundTrip
  import opened ProxyV2Theorems
  import Crc = Crc32c

  // ---------- which bytes are meant ----------

  /** `k` is inside the value of one of the vectors, which start at `at`; whether values with an inner
      structure (SSL) count is up to `ssl`. */
  ghost predicate InValue(vs: seq<Vector>, at: nat, k: nat, ssl: bool)
    requires Short(vs)
  {
    vs != [] &&
    var next := at + 3 + |Added(vs[0]).value|;
    (((ssl || !vs[0].Ssl?) && at + 3 <= k < next) || InValue(vs[1..], next, k, ssl))
  }

  ghost predicate Guarded(addr: seq<uint8>, sent: Info, vs: seq<Vector>, k: nat, ssl: bool)
    requires Short(vs)
  {
    var at := 16 + |addr|;
    var noop := at + |Bytes(vs)|;
    var gap := Padding(sent, RawLength(addr, sent));
    || 16 <= k < at
    || (at <= k < noop && InValue(vs, at, k, ssl))
    || noop + 3 <= k < noop + gap
    || noop + gap + 3 <= k < noop + gap + 7
  }

  lemma {:induction false} InValueIsLater(vs: seq<Vector>, at: nat, k: nat, ssl: bool)
    requires Short(vs) && InValue(vs, at, k, ssl)
    ensures at + 3 <= k
    decreases |vs|
  {
    hide Added;
    var next := at + 3 + |Added(vs[0]).value|;
    if InValue(vs[1..], next, k, ssl) {
      InValueIsLater(vs[1..], next, k, ssl);
    }
  }

  // ---------- the loop gets to the checksum ----------

  /** `buf` differs from `good` between `pos` and `end` only inside values. */
  ghost predicate SameHeads(buf: seq<uint8>, good: seq<uint8>, pos: nat, vs: seq<Vector>, ssl: bool)
    requires Short(vs)
  {
    |buf| == |good| && pos + |Bytes(vs)| <= |good| &&
    forall k :: pos <= k < pos + |Bytes(vs)| && buf[k] != good[k] ==> InValue(vs, pos, k, ssl)
  }

  lemma InValueSplits(vs: seq<Vector>, at: nat, k: nat, ssl: bool)
    requires Short(vs) && vs != [] && InValue(vs, at, k, ssl)
    ensures var next := at + 3 + |Added(vs[0]).value|;
            at + 3 <= k && (k < next ==> ssl || !vs[0].Ssl?) && (next <= k ==> InValue(vs[1..], next, k, ssl))
  {
    hide Added;
    var next := at + 3 + |Added(vs[0]).value|;
    if InValue(vs[1..], next, k, ssl) {
      InValueIsLater(vs[1..], next, k, ssl);
    }
  }

  lemma SameHeadsTail(buf: seq<uint8>, good: seq<uint8>, pos: nat, vs: seq<Vector>, ssl: bool)
    requires Short(vs) && vs != [] && SameHeads(buf, good, pos, vs, ssl)
    ensures var n := 3 + |Added(vs[0]).value|;
            && pos + n <= |buf| == |good|
            && SameHeads(buf, good, pos + n, vs[1..], ssl)
            && buf[pos..pos + 3] == good[pos..pos + 3]
            && (vs[0].Ssl? && !ssl ==> buf[pos..pos + n] == good[pos..pos + n])
  {
    hide Added, Bytes, InValue, TlvBytes;
    BytesCons(vs);
    var n := 3 + |Added(vs[0]).value|;
    forall k | pos <= k < pos + |Bytes(vs)| && buf[k] != good[k]
      ensures pos + 3 <= k
      ensures k < pos + n ==> ssl || !vs[0].Ssl?
      ensures pos + n <= k ==> InValue(vs[1..], pos + n, k, ssl)
    {
      InValueSplits(vs, pos, k, ssl);
    }
  }

  /** One vector whose value may have been changed: the loop goes on behind it. */
  lemma StepOverValue(buf: seq<uint8>, pos: nat, rem: uint16, info: Info, v: Vector)
    requires Addable(v) && !v.Ssl? && !IsEmptyAws(v) && |Added(v).value| <= 0xFFFC
    requires rem > 3 && pos + rem <= |buf| && 3 + |Added(v).value| < rem
    requires buf[pos] == Added(v).kind && U16At(buf, pos + 1) == |Added(v).value|
    ensures var s := TlvStep(buf, pos, rem, info);
            s.Next? && s.buf == buf && s.offset == 3 + |Added(v).value|
  {
    hide SslStep, CrcStep, U16At, U16;
    U16Is(3 + |Added(v).value|, 3 + |Added(v).value|, 0);
  }

  lemma {:induction false} WalkOverValues(buf: seq<uint8>, good: seq<uint8>, pos: nat, rem: uint16, info: Info,
          vs: seq<Vector>) returns (info': Info)
    requires Short(vs) && NoEmptyAws(vs) && AllComplete(vs)
    requires SameHeads(buf, good, pos, vs, false) && Starts(good, pos, Bytes(vs))
    requires pos + rem <= |buf| && |Bytes(vs)| + 3 < rem
    ensures Walk(buf, pos, rem, info) == Walk(buf, pos + |Bytes(vs)|, rem - |Bytes(vs)|, info')
    decreases |vs|
  {
    hide TlvStep, TlvBytes, Added, Received, U16At, InValue, SameHeads, Bytes;
    if vs == [] {
      NoBytes();
      info' := info;
    } else {
      var v, rest := vs[0], vs[1..];
      BytesCons(vs);
      SameHeadsTail(buf, good, pos, vs, false);
      StartsSplit(good, pos, TlvBytes(Added(v)), Bytes(rest));
      TlvSize(Added(v));
      ReadTlv(good, pos, Added(v));
      SameHead(buf, good, pos);
      var next: Info;
      if v.Ssl? {
        SslStepOf(buf, pos, rem, info, v);
        next := info.(tlvs := info.tlvs + Received(v), ssl := SeenFlags(v.flags));
      } else {
        StepOverValue(buf, pos, rem, info, v);
        next := TlvStep(buf, pos, rem, info).info;
      }
      info' := WalkOverValues(buf, good, pos + 3 + |Added(v).value|, rem - 3 - |Added(v).value|, next, rest);
    }
  }

  /** One vector of any kind whose value may have been changed: the call ends there without success, or
      the loop goes on behind it. */
  lemma StepOverAny(buf: seq<uint8>, pos: nat, rem: uint16, info: Info, v: Vector)
    requires Addable(v) && |Added(v).value| <= 0xFFFC
    requires rem > 3 && pos + rem <= |buf| && 3 + |Added(v).value| < rem
    requires buf[pos] == Added(v).kind && U16At(buf, pos + 1) == |Added(v).value|
    ensures match TlvStep(buf, pos, rem, info)
            case Stop(outcome, _, _) => !outcome.Length?
            case Next(buf', _, offset) => buf' == buf && offset == 3 + |Added(v).value|
  {
    hide SslLoop, CrcStep, U16At, U16, FlagsOf, SslWritten, SslValue;
    var n, at := |Added(v).value|, pos + 3;
    U16Is(3 + n, 3 + n, 0);
    if at + 5 <= |buf| {
      SslLoopGrows(buf, at + 5, 0, U16(n - 5), info.(ssl := FlagsOf(buf[at], buf[at + 1..at + 5])), false, {});
    }
  }

  /** Any vectors at all, with any values: the call ends without success or the loop gets behind them. */
  lemma {:induction false} WalkOverAny(buf: seq<uint8>, good: seq<uint8>, pos: nat, rem: uint16, info: Info,
          vs: seq<Vector>) returns (behind: Option<Info>)
    requires Short(vs) && SameHeads(buf, good, pos, vs, true) && Starts(good, pos, Bytes(vs))
    requires pos + rem <= |buf| && |Bytes(vs)| + 3 < rem
    ensures behind == None ==> !Walk(buf, pos, rem, info).outcome.Length?
    ensures behind.Some? ==> Walk(buf, pos, rem, info) == Walk(buf, pos + |Bytes(vs)|, rem - |Bytes(vs)|, behind.value)
    decreases |vs|
  {
    hide TlvStep, TlvBytes, Added, U16At, InValue, SameHeads, Bytes;
    if vs == [] {
      NoBytes();
      behind := Some(info);
    } else {
      var v, rest := vs[0], vs[1..];
      BytesCons(vs);
      SameHeadsTail(buf, good, pos, vs, true);
      StartsSplit(good, pos, TlvBytes(Added(v)), Bytes(rest));
      TlvSize(Added(v));
      ReadTlv(good, pos, Added(v));
      SameHead(buf, good, pos);
      StepOverAny(buf, pos, rem, info, v);
      match TlvStep(buf, pos, rem, info) {
        case Stop(_, _, _) => behind := None;
        case Next(_, info', _) =>
          behind := WalkOverAny(buf, good, pos + 3 + |Added(v).value|, rem - 3 - |Added(v).value|, info', rest);
      }
    }
  }

  lemma NoBytes()
    ensures Bytes([]) == []
  {
  }

  lemma SameHead(buf: seq<uint8>, good: seq<uint8>, pos: nat)
    requires |buf| == |good| && pos + 3 <= |buf| && buf[pos..pos + 3] == good[pos..pos + 3]
    ensures buf[pos] == good[pos] && U16At(buf, pos + 1) == U16At(good, pos + 1)
  {
    assert buf[pos] == buf[pos..pos + 3][0] && buf[pos + 1] == buf[pos..pos + 3][1]
          && buf[pos + 2] == buf[pos..pos + 3][2];
    assert good[pos] == good[pos..pos + 3][0] && good[pos + 1] == good[pos..pos + 3][1]
          && good[pos + 2] == good[pos..pos + 3][2];
  }

  lemma WalkOverNoop(buf: seq<uint8>, good: seq<uint8>, pos: nat, rem: uint16, info: Info, gap: nat)
    requires |buf| == |good| && pos + rem <= |buf| && gap + 3 < rem && (gap == 0 || 3 <= gap)
    requires buf[pos..pos + 3] == good[pos..pos + 3] && Starts(good, pos, Noop(gap))
    ensures Walk(buf, pos, rem, info) == Walk(buf, pos + gap, rem - gap, info)
  {
    hide SslStep, CrcStep, StoreStep, AsciiStep, U16At, TlvBytes, U16;
    if gap != 0 {
      ReadTlv(good, pos, Tlv(TYPE_NOOP, Zeros(gap - 3)));
      SameHead(buf, good, pos);
      U16Is(gap, gap, 0);
    }
  }

  lemma WalkIntoCrc(buf: seq<uint8>, pos: nat, info: Info)
    requires pos + 7 <= |buf| && buf[pos..pos + 3] == CRC_HEADER
    requires buf[pos + 3..pos + 7] != Crc.Checksum(ZeroFour(buf, pos + 3)[..pos + 7])
    ensures Walk(buf, pos, 7, info).outcome == Error(-ERR_PP2_TYPE_CRC32C)
  {
    hide SslStep, StoreStep, AsciiStep, TlvBytes, Crc.Checksum;
    assert buf[pos] == buf[pos..pos + 3][0] && buf[pos + 1] == buf[pos..pos + 3][1]
          && buf[pos + 2] == buf[pos..pos + 3][2];
  }

  // ---------- the checksum does not fit ----------

  function Zeroed(h: seq<uint8>): seq<uint8>
    requires |h| >= 4
  {
    h[..|h| - 4] + [0, 0, 0, 0]
  }

  /** A short burst that spares the three bytes in front of the checksum breaks it. */
  lemma ChecksumBreaks(h: seq<uint8>, bad: seq<uint8>, i: nat)
    requires |h| == |bad| >= 16 && h != bad && Crc.DifferWithin(h, bad, i)
    requires h[|h| - 4..] == Crc.Checksum(Zeroed(h))
    requires forall k :: |h| - 7 <= k < |h| - 4 ==> h[k] == bad[k]
    ensures bad[|h| - 4..] != Crc.Checksum(Zeroed(bad))
  {
    hide Crc.Checksum;
    var n := |h| - 4;
    if h[..n] == bad[..n] {
      assert h == h[..n] + h[n..] && bad == bad[..n] + bad[n..];
    } else {
      var d :| 0 <= d < n && h[d] != bad[d];
      assert d < n - 3;
      assert h[n..] == bad[n..];
      assert Zeroed(h)[d] != Zeroed(bad)[d];
      Crc.ChecksumCatchesBurst(Zeroed(h), Zeroed(bad), i);
    }
  }

  // ---------- the result ----------

  lemma AddressesStillRead(inet: Inet, buf: seq<uint8>, len: uint16, info: Info, addrLen: nat)
    requires inet.Valid() && info.family <= 2 && 16 + len <= |buf|
    requires addrLen == (if info.family == 0 then 0 else if info.family == 1 then 12 else 36) && addrLen <= len
    ensures var a := Addresses(inet, buf, len, info);
            a.Vectors? && a.pos == 16 + addrLen && a.rem == len - addrLen
  {
  }

  lemma AddressSize(inet: Inet, sent: Info)
    requires inet.Valid() && AddressBlock(inet, sent).Success? && sent.family != ADDR_FAMILY_UNIX
    ensures |AddressBlock(inet, sent).value| == if sent.family == 0 then 0 else if sent.family == 1 then 12 else 36
  {
  }

  /** Changes that keep to guarded bytes spare the fixed part and the three leading bytes of every
      vector, of the padding and of the checksum. */
  lemma SparedBytes(addr: seq<uint8>, sent: Info, vs: seq<Vector>, h: seq<uint8>, bad: seq<uint8>, payload: seq<uint8>,
                    ssl: bool)
    requires Short(vs) && |bad| == |h| == 16 + |addr| + |Bytes(vs)| + Padding(sent, RawLength(addr, sent)) + 7
    requires forall k :: 0 <= k < |bad| && bad[k] != h[k] ==> Guarded(addr, sent, vs, k, ssl)
    ensures var gap, at := Padding(sent, RawLength(addr, sent)), 16 + |addr|;
            var noop := at + |Bytes(vs)|;
            && (bad + payload)[0..16] == (h + payload)[0..16]
            && SameHeads(bad + payload, h + payload, at, vs, ssl)
            && (bad + payload)[noop..noop + 3] == (h + payload)[noop..noop + 3]
            && (forall k :: |h| - 7 <= k < |h| - 4 ==> h[k] == bad[k])
  {
    hide Bytes, Gap, InValue;
    var at := 16 + |addr|;
    forall k | at <= k < at + |Bytes(vs)| && (bad + payload)[k] != (h + payload)[k]
      ensures InValue(vs, at, k, ssl)
    {
      assert bad[k] != h[k];
    }
    GapIsZeroOrMore(addr, sent);
  }

  lemma GapIsZeroOrMore(addr: seq<uint8>, sent: Info)
    ensures Padding(sent, RawLength(addr, sent)) == 0 || Padding(sent, RawLength(addr, sent)) >= 3
  {
    if sent.alignmentPower > 1 {
      GapIsLeast(RawLength(addr, sent), Pow2(sent.alignmentPower), 0);
    }
  }

  /** `good` is a header with a checksum and `bad` has been changed within four bytes, all of them guarded. */
  ghost predicate Damaged(addr: seq<uint8>, sent: Info, vs: seq<Vector>, h: seq<uint8>, bad: seq<uint8>, i: nat,
                          ssl: bool)
    requires Short(vs)
  {
    && bad != h && Crc.DifferWithin(h, bad, i)
    && forall k :: 0 <= k < |bad| && bad[k] != h[k] ==> Guarded(addr, sent, vs, k, ssl)
  }

  /** From behind the vectors the loop gets to the checksum, which does not fit. */
  lemma TailRejects(addr: seq<uint8>, sent: Info, vs: seq<Vector>, h: seq<uint8>, bad: seq<uint8>,
                    payload: seq<uint8>, i: nat, ssl: bool, info: Info)
    requires Short(vs) && sent.crc32c && Laid(addr, sent, vs, h, payload) && Damaged(addr, sent, vs, h, bad, i, ssl)
    ensures |bad| == |h| && (bad + payload)[0..16] == (h + payload)[0..16]
    ensures SameHeads(bad + payload, h + payload, 16 + |addr|, vs, ssl)
    ensures var noop := 16 + |addr| + |Bytes(vs)|;
            Walk(bad + payload, noop, |h| - noop, info).outcome == Error(-ERR_PP2_TYPE_CRC32C)
  {
    hide Walk, Noop, Bytes, Gap, Crc.Checksum, ZeroFour, InValue, Guarded, Starts, SameHeads, Crc.DifferWithin, Short,
         Padding;
    var gap, noop := Padding(sent, RawLength(addr, sent)), 16 + |addr| + |Bytes(vs)|;
    SameSize(h, bad, i);
    SparedBytes(addr, sent, vs, h, bad, payload, ssl);
    WalkOverNoop(bad + payload, h + payload, noop, |h| - noop, info, gap);
    ChecksumStillBroken(h, bad, payload, i);
    WalkIntoCrc(bad + payload, |h| - 7, info);
  }

  /** The loop over the corrupted vectors ends at the checksum. */
  lemma WalkRejects(addr: seq<uint8>, sent: Info, vs: seq<Vector>, h: seq<uint8>, bad: seq<uint8>,
                    payload: seq<uint8>, i: nat, info: Info)
    requires Short(vs) && NoEmptyAws(vs) && AllComplete(vs)
    requires sent.crc32c && Laid(addr, sent, vs, h, payload) && Damaged(addr, sent, vs, h, bad, i, false)
    ensures |bad| == |h| && (bad + payload)[0..16] == (h + payload)[0..16]
    ensures Walk(bad + payload, 16 + |addr|, |h| - 16 - |addr|, info).outcome == Error(-ERR_PP2_TYPE_CRC32C)
  {
    hide Walk, Noop, Bytes, Gap, Crc.Checksum, ZeroFour, Starts, SameHeads, Damaged, Short, NoEmptyAws, Padding;
    var at := 16 + |addr|;
    TailRejects(addr, sent, vs, h, bad, payload, i, false, info);
    var info' := WalkOverValues(bad + payload, h + payload, at, |h| - at, info, vs);
    TailRejects(addr, sent, vs, h, bad, payload, i, false, info');
  }

  /** With SSL values among the corrupted ones it ends there or in front. */
  lemma WalkNeverAccepts(addr: seq<uint8>, sent: Info, vs: seq<Vector>, h: seq<uint8>, bad: seq<uint8>,
                         payload: seq<uint8>, i: nat, info: Info)
    requires Short(vs) && sent.crc32c && Laid(addr, sent, vs, h, payload) && Damaged(addr, sent, vs, h, bad, i, true)
    ensures |bad| == |h| && (bad + payload)[0..16] == (h + payload)[0..16]
    ensures !Walk(bad + payload, 16 + |addr|, |h| - 16 - |addr|, info).outcome.Length?
  {
    hide Walk, Noop, Bytes, Gap, Crc.Checksum, ZeroFour, Starts, SameHeads, Damaged, Short, Padding;
    var at := 16 + |addr|;
    TailRejects(addr, sent, vs, h, bad, payload, i, true, info);
    var behind := WalkOverAny(bad + payload, h + payload, at, |h| - at, info, vs);
    if behind.Some? {
      TailRejects(addr, sent, vs, h, bad, payload, i, true, behind.value);
    }
  }

  /** The parser gets to the loop with anything that differs from a header behind its first 16 bytes. */
  lemma DamagedIsWalked(inet: Inet, sent: Info, vs: seq<Vector>, bad: seq<uint8>, payload: seq<uint8>)
      returns (info: Info)
    requires Sendable(inet, sent, vs) && sent.family != ADDR_FAMILY_UNIX
    requires var h := Created(inet, sent, vs);
             |bad| == |h| >= 16 && (bad + payload)[0..16] == (h + payload)[0..16]
    ensures var at := 16 + |AddressBlock(inet, sent).value|;
            && 16 <= at <= |bad| <= 0xFFFF
            && Parse(inet, bad + payload, CLEARED) == Walk(bad + payload, at, |bad| - at, info)
  {
    hide Walk, Noop, Bytes, Gap, AddressBlock, Created, FixedPart, FixedBytes, Addresses, Fits, Crc.Checksum, U16At,
         ZeroFour, Starts, Short, Padding;
    Placed(inet, sent, vs, payload);
    HeaderSize(inet, sent, vs);
    AddressSize(inet, sent);
    var h := Created(inet, sent, vs);
    var start := CLEARED.(local := sent.family == 0, family := sent.family, transport := sent.transport);
    AddressesStillRead(inet, bad + payload, |h| - 16, start, |AddressBlock(inet, sent).value|);
    FixedStillRead(bad + payload, h + payload, sent, |h| - 16);
    info := Addresses(inet, bad + payload, |h| - 16, start).info;
  }

  /** Any burst of changed bits within four consecutive bytes is rejected, as long as it keeps to
      guarded bytes. */
  lemma BurstIsRejected(inet: Inet, sent: Info, vs: seq<Vector>, bad: seq<uint8>, payload: seq<uint8>, i: nat)
    requires Sendable(inet, sent, vs) && sent.family != ADDR_FAMILY_UNIX && sent.crc32c
    requires NoEmptyAws(vs) && AllComplete(vs)
    requires Damaged(AddressBlock(inet, sent).value, sent, vs, Created(inet, sent, vs), bad, i, false)
    ensures |bad| >= 16 && Parse(inet, bad + payload, CLEARED).outcome == Error(-ERR_PP2_TYPE_CRC32C)
  {
    hide Walk, Noop, Bytes, Gap, AddressBlock, Created, Fits, Crc.Checksum, ZeroFour, Starts, Damaged, Short,
         NoEmptyAws, AllComplete, Parse, FixedPart, Padding;
    var addr, h := AddressBlock(inet, sent).value, Created(inet, sent, vs);
    Placed(inet, sent, vs, payload);
    WalkRejects(addr, sent, vs, h, bad, payload, i, sent);
    var info := DamagedIsWalked(inet, sent, vs, bad, payload);
    WalkRejects(addr, sent, vs, h, bad, payload, i, info);
  }

  /** And no burst is accepted that keeps to guarded bytes or to the values of SSL vectors, whatever
      vectors were sent. */
  lemma BurstIsNeverAccepted(inet: Inet, sent: Info, vs: seq<Vector>, bad: seq<uint8>, payload: seq<uint8>, i: nat)
    requires Sendable(inet, sent, vs) && sent.family != ADDR_FAMILY_UNIX && sent.crc32c
    requires Damaged(AddressBlock(inet, sent).value, sent, vs, Created(inet, sent, vs), bad, i, true)
    ensures |bad| >= 16 && !Parse(inet, bad + payload, CLEARED).outcome.Length?
  {
    hide Walk, Noop, Bytes, Gap, AddressBlock, Created, Fits, Crc.Checksum, ZeroFour, Starts, Damaged, Short,
         Parse, FixedPart, Padding;
    var addr, h := AddressBlock(inet, sent).value, Created(inet, sent, vs);
    Placed(inet, sent, vs, payload);
    WalkNeverAccepts(addr, sent, vs, h, bad, payload, i, sent);
    var info := DamagedIsWalked(inet, sent, vs, bad, payload);
    WalkNeverAccepts(addr, sent, vs, h, bad, payload, i, info);
  }

  // ---------- a byte that is not guarded ----------

  /** The header with another type byte in its checksum vector. */
  function Retyped(h: seq<uint8>, kind: uint8): seq<uint8>
    requires |h| >= 7
  {
    h[|h| - 7 := kind]
  }

  lemma StartsInPrefix(buf: seq<uint8>, good: seq<uint8>, pos: nat, s: seq<uint8>, n: nat)
    requires n <= |buf| && n <= |good| && buf[..n] == good[..n] && pos + |s| <= n && Starts(good, pos, s)
    ensures Starts(buf, pos, s)
  {
    assert buf[pos..pos + |s|] == buf[..n][pos..pos + |s|];
    assert good[pos..pos + |s|] == good[..n][pos..pos + |s|];
  }

  /** In front of its checksum vector it is laid out as before. */
  lemma RetypedPlaced(addr: seq<uint8>, sent: Info, vs: seq<Vector>, h: seq<uint8>, payload: seq<uint8>, kind: uint8)
    requires Short(vs) && sent.crc32c && Laid(addr, sent, vs, h, payload)
    ensures |h| >= 23
    ensures var gap, at, buf := Padding(sent, RawLength(addr, sent)), 16 + |addr|, Retyped(h, kind) + payload;
            && Starts(buf, 0, FixedPart(sent.family, sent.transport, |h| - 16)) && Starts(buf, 16, addr)
            && Starts(buf, at, Bytes(vs)) && Starts(buf, at + |Bytes(vs)|, Noop(gap))
  {
    hide Noop, Bytes, Crc.Checksum, ZeroFour, Starts, Short, FixedPart, Padding;
    var gap, at, buf := Padding(sent, RawLength(addr, sent)), 16 + |addr|, Retyped(h, kind) + payload;
    assert buf[..|h| - 7] == (h + payload)[..|h| - 7];
    StartsInPrefix(buf, h + payload, 0, FixedPart(sent.family, sent.transport, |h| - 16), |h| - 7);
    StartsInPrefix(buf, h + payload, 16, addr, |h| - 7);
    StartsInPrefix(buf, h + payload, at, Bytes(vs), |h| - 7);
    NoopSize(gap);
    StartsInPrefix(buf, h + payload, at + |Bytes(vs)|, Noop(gap), |h| - 7);
  }

  lemma WalkRetyped(addr: seq<uint8>, sent: Info, vs: seq<Vector>, h: seq<uint8>, payload: seq<uint8>, kind: uint8,
                    info: Info)
    requires Short(vs) && sent.crc32c && Laid(addr, sent, vs, h, payload)
    requires NoEmptyAws(vs) && AllComplete(vs) && IsUnknown(kind)
    ensures |h| >= 23 && |Retyped(h, kind) + payload| == |h + payload|
    ensures Walk(Retyped(h, kind) + payload, 16 + |addr|, |h| - 16 - |addr|, info) ==
            Parsed(Length(|h|), Retyped(h, kind) + payload, After(info, vs))
  {
    hide Walk, Noop, Bytes, Starts, Short, After, NoEmptyAws, AllComplete, FixedPart, Padding, Retyped, Crc.Checksum,
         ZeroFour, IsUnknown;
    var gap, at, buf := Padding(sent, RawLength(addr, sent)), 16 + |addr|, Retyped(h, kind) + payload;
    RetypedPlaced(addr, sent, vs, h, payload, kind);
    RetypedSize(h, kind, payload);
    WalkVectors(buf, at, |h| - at, info, vs);
    WalkNoop(buf, at + |Bytes(vs)|, gap + 7, After(info, vs), gap);
    RetypedTail(h, payload, kind, After(info, vs));
  }

  /** Another type byte makes the checksum vector one that nobody looks at: the header is accepted. */
  lemma RetypedIsAccepted(inet: Inet, sent: Info, vs: seq<Vector>, payload: seq<uint8>, kind: uint8)
    requires Sendable(inet, sent, vs) && sent.family != ADDR_FAMILY_UNIX && sent.crc32c
    requires NoEmptyAws(vs) && AllComplete(vs) && IsUnknown(kind)
    ensures var h := Created(inet, sent, vs);
            && |h| >= 16
            && Parse(inet, Retyped(h, kind) + payload, CLEARED) ==
               Parsed(Length(|h|), Retyped(h, kind) + payload, After(Seen(inet, sent), vs))
  {
    hide Walk, Noop, Bytes, AddressBlock, Created, Fits, Starts, Short, After, Seen, NoEmptyAws, AllComplete, Parse,
         FixedPart, Padding, Retyped, Crc.Checksum, ZeroFour;
    var addr, h := AddressBlock(inet, sent).value, Created(inet, sent, vs);
    Placed(inet, sent, vs, payload);
    RetypedPlaced(addr, sent, vs, h, payload, kind);
    WalkRetyped(addr, sent, vs, h, payload, kind, Seen(inet, sent));
    ParseGetsToLoop(inet, Retyped(h, kind) + payload, sent, |h| - 16);
  }

  lemma RetypedSize(h: seq<uint8>, kind: uint8, payload: seq<uint8>)
    requires |h| >= 7
    ensures |Retyped(h, kind) + payload| == |h| + |payload|
  {
  }

  predicate IsUnknown(kind: uint8) {
    kind !in {TYPE_ALPN, TYPE_AUTHORITY, TYPE_CRC32C, TYPE_UNIQUE_ID, TYPE_SSL, TYPE_NETNS, TYPE_AWS, TYPE_AZURE}
  }

  lemma UnknownStep(buf: seq<uint8>, pos: nat, info: Info)
    requires pos + 7 <= |buf| && IsUnknown(buf[pos]) && U16At(buf, pos + 1) == 4
    ensures TlvStep(buf, pos, 7, info) == Next(buf, info, 7)
  {
    hide U16At;
  }

  lemma RetypedTail(h: seq<uint8>, payload: seq<uint8>, kind: uint8, info: Info)
    requires |h| >= 7 && Starts(h + payload, |h| - 7, CRC_HEADER + h[|h| - 4..]) && IsUnknown(kind)
    ensures var buf := Retyped(h, kind) + payload;
            Walk(buf, |h| - 7, 7, info) == Parsed(Length(|h|), buf, info)
  {
    hide TlvStep, IsUnknown, Starts, Retyped;
    RetypedSize(h, kind, payload);
    var buf := Retyped(h, kind) + payload;
    RetypedBytes(h, payload, kind);
    UnknownStep(buf, |h| - 7, info);
    WalkEnds(buf, |h|, info);
  }

  lemma RetypedBytes(h: seq<uint8>, payload: seq<uint8>, kind: uint8)
    requires |h| >= 7 && Starts(h + payload, |h| - 7, CRC_HEADER + h[|h| - 4..])
    ensures var buf, n := Retyped(h, kind) + payload, |h| - 7;
            buf[n] == kind && U16At(buf, n + 1) == 4
  {
    var n := |h| - 7;
    assert (CRC_HEADER + h[|h| - 4..])[1] == (h + payload)[n..n + 7][1];
    assert (CRC_HEADER + h[|h| - 4..])[2] == (h + payload)[n..n + 7][2];
  }

  lemma SameSize(h: seq<uint8>, bad: seq<uint8>, i: nat)
    requires Crc.DifferWithin(h, bad, i)
    ensures |h| == |bad|
  {
  }

  lemma FixedStillRead(buf: seq<uint8>, good: seq<uint8>, sent: Info, len: uint16)
    requires |buf| == |good| >= 16 && buf[0..16] == good[0..16]
    requires sent.family <= 3 && sent.transport <= 2 && Starts(good, 0, FixedPart(sent.family, sent.transport, len))
    ensures FixedBytes(buf, CLEARED) ==
            Accepted(CLEARED.(local := sent.family == 0, family := sent.family, transport := sent.transport))
    ensures U16At(buf, 14) == len
  {
    assert Starts(buf, 0, FixedPart(sent.family, sent.transport, len));
    FixedBytesRead(buf, sent.family, sent.transport, len);
  }

  lemma ChecksumStillBroken(h: seq<uint8>, bad: seq<uint8>, payload: seq<uint8>, i: nat)
    requires |h| == |bad| >= 16 && h != bad && Crc.DifferWithin(h, bad, i)
    requires Starts(h + payload, |h| - 7, CRC_HEADER + h[|h| - 4..])
    requires h[|h| - 4..] == Crc.Checksum(ZeroFour(h + payload, |h| - 4)[..|h|])
    requires forall k :: |h| - 7 <= k < |h| - 4 ==> h[k] == bad[k]
    ensures (bad + payload)[|h| - 7..|h| - 4] == CRC_HEADER
    ensures (bad + payload)[|h| - 4..|h|] != Crc.Checksum(ZeroFour(bad + payload, |h| - 4)[..|h|])
  {
    hide Crc.Checksum;
    StartsSplit(h + payload, |h| - 7, CRC_HEADER, h[|h| - 4..]);
    assert (bad + payload)[|h| - 7..|h| - 4] == (h + payload)[|h| - 7..|h| - 4];
    assert ZeroFour(h + payload, |h| - 4)[..|h|] == Zeroed(h);
    assert ZeroFour(bad + payload, |h| - 4)[..|h|] == Zeroed(bad);
    assert (bad + payload)[|h| - 4..|h|] == bad[|h| - 4..];
    ChecksumBreaks(h, bad, i);
  }

  /** Parsing uses the checksum up: the bytes are left zero. So parsing the same buffer again fails,
      exactly when the checksum was not zero to begin with. */
  lemma SecondParseIsRefused(inet: Inet, sent: Info, vs: seq<Vector>, payload: seq<uint8>)
    requires Sendable(inet, sent, vs) && sent.family != ADDR_FAMILY_UNIX && sent.crc32c
    requires NoEmptyAws(vs) && AllComplete(vs)
    ensures var h := Created(inet, sent, vs);
            && |h| >= 16
            && var first := Parse(inet, h + payload, CLEARED);
               && first.outcome == Length(|h|) && |first.buf| == |h + payload|
               && var second := Parse(inet, first.buf, CLEARED);
                  if h[|h| - 4..] == [0, 0, 0, 0] then second == first && first.buf == h + payload
                  else second.outcome == Error(-ERR_PP2_TYPE_CRC32C)
  {
    hide Created, Parse, AddressBlock, Bytes, Fits, Short, NoEmptyAws, AllComplete, Damaged, Spent, AsSent, Laid,
         CopiesBehind, Added;
    var addr, h := AddressBlock(inet, sent).value, Created(inet, sent, vs);
    HeaderSize(inet, sent, vs);
    ChecksumFollows(sent, vs, payload);
    RoundTrip(inet, sent, vs, payload);
    AsSentParts(inet, sent, vs, payload);
    Placed(inet, sent, vs, payload);
    SpentDiffers(h);
    if h[|h| - 4..] != [0, 0, 0, 0] {
      SpentIsDamaged(addr, sent, vs, h, payload);
      BurstIsRejected(inet, sent, vs, Spent(h, true), payload, |h| - 4);
    }
  }

  lemma ChecksumFollows(sent: Info, vs: seq<Vector>, payload: seq<uint8>)
    requires Short(vs) && sent.crc32c
    ensures !CopiesBehind(sent, vs, payload)
  {
  }

  lemma AsSentParts(inet: Inet, sent: Info, vs: seq<Vector>, payload: seq<uint8>)
    requires Sendable(inet, sent, vs)
    ensures var r, h := AsSent(inet, sent, vs, payload), Created(inet, sent, vs);
            r.outcome == Length(|h|) && |h| >= 4 && r.buf == Spent(h, sent.crc32c) + payload
  {
    hide GotFrom, Created;
    HeaderSize(inet, sent, vs);
  }

  lemma SpentDiffers(h: seq<uint8>)
    requires |h| >= 4
    ensures |Spent(h, true)| == |h| && Crc.DifferWithin(h, Spent(h, true), |h| - 4)
    ensures h[|h| - 4..] == [0, 0, 0, 0] <==> Spent(h, true) == h
  {
    assert h == h[..|h| - 4] + h[|h| - 4..];
    assert Spent(h, true)[|h| - 4..] == [0, 0, 0, 0];
  }

  lemma SpentIsDamaged(addr: seq<uint8>, sent: Info, vs: seq<Vector>, h: seq<uint8>, payload: seq<uint8>)
    requires Short(vs) && sent.crc32c && Laid(addr, sent, vs, h, payload) && h[|h| - 4..] != [0, 0, 0, 0]
    ensures Damaged(addr, sent, vs, h, Spent(h, true), |h| - 4, false)
  {
    hide Bytes, Padding, InValue, Starts, Crc.Checksum, ZeroFour, Crc.DifferWithin, Noop, FixedPart;
    SpentDiffers(h);
    assert Spent(h, true)[..|h| - 4] == h[..|h| - 4];
  }
}
