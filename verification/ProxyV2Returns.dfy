/** On which bytes the version 2 parser returns (asio_server/proxy_protocol.cpp:938-1091). */
module ProxyV2Returns {
  import opened MachineTypes
  import opened Wrappers
  import opened ProxyInfo
  import opened ProxyV2Create
  import opened ProxyV2Parse
  import opened ProxyV2RoundTrip
  import opened ProxyV2Endless
  import opened ProxyV2Decode
  import Crc = Crc32c

  // ---------- the inner loop ----------

  ghost function Below(n: nat): (s: set<nat>)
    ensures |s| == n && forall o: nat :: o in s <==> o < n
  {
    if n == 0 then {} else Below(n - 1) + {n - 1}
  }

  /** Still inside after as many turns as there are 16-bit offsets. */
  ghost predicate InsideAllAlong(buf: seq<uint8>, base: nat, len: uint16) {
    OffsetAt(buf, base, len, 0x1_0000).Some? && OffsetAt(buf, base, len, 0x1_0000).value < len
  }

  lemma {:induction false} InsideBefore(buf: seq<uint8>, base: nat, len: uint16, j: nat, k: nat)
    requires j < k && OffsetAt(buf, base, len, k).Some?
    ensures OffsetAt(buf, base, len, j).Some? && OffsetAt(buf, base, len, j).value < len
  {
    hide SubTlvStep;
    if j < k - 1 {
      InsideBefore(buf, base, len, j, k - 1);
    }
  }

  lemma AtMost(s: set<nat>, n: nat)
    requires forall o :: o in s ==> o < n
    ensures |s| <= n
  {
    assert Below(n) == s + (Below(n) - s);
  }

  lemma NextOffset(buf: seq<uint8>, base: nat, len: uint16, k: nat, info: Info)
    requires OffsetAt(buf, base, len, k).Some? && OffsetAt(buf, base, len, k + 1).Some?
    ensures var s := SubTlvStep(buf, base, OffsetAt(buf, base, len, k).value, info);
            s.SubNext? && OffsetAt(buf, base, len, k + 1) == Some(s.offset)
  {
    hide SubTlvStep;
    StepIgnoresInfo(buf, base, OffsetAt(buf, base, len, k).value, info, CLEARED);
  }

  /** A loop that is inside after `n` turns has been at a 16-bit offset for each of them. */
  lemma {:induction false} NoOffsetLeft(buf: seq<uint8>, base: nat, len: uint16, info: Info, found: bool,
                                        offset: uint16, k: nat, seen: set<nat>, n: nat)
    requires OffsetAt(buf, base, len, k) == Some(offset) && k == |seen| && forall o :: o in seen ==> o < 0x1_0000
    requires n >= 0x1_0000 && OffsetAt(buf, base, len, n).Some? && OffsetAt(buf, base, len, n).value < len
    ensures SslLoop(buf, base, offset, len, info, found, seen).0 == Some(Endless)
    decreases Unseen(seen)
  {
    hide SubTlvStep, OffsetAt;
    AtMost(seen, 0x1_0000);
    if k < n {
      InsideBefore(buf, base, len, k, n);
    }
    if offset !in seen {
      var seen' := seen + {offset as nat};
      AtMost(seen', 0x1_0000);
      if k + 1 < n {
        InsideBefore(buf, base, len, k + 1, n);
      }
      NextOffset(buf, base, len, k, info);
      UnseenShrinks(seen, offset);
      var s := SubTlvStep(buf, base, offset, info);
      NoOffsetLeft(buf, base, len, s.info, found || s.isVersion, s.offset, k + 1, seen', n);
    }
  }

  /** The inner loop never ends exactly when it is still inside after 65536 turns. */
  lemma InnerLoopEndlessWhen(buf: seq<uint8>, base: nat, len: uint16, info: Info)
    ensures SslLoop(buf, base, 0, len, info, false, {}).0 == Some(Endless) <==> InsideAllAlong(buf, base, len)
  {
    hide SslLoop, SubTlvStep, OffsetAt;
    SslEndlessExactly(buf, base, len, info);
    if InsideAllAlong(buf, base, len) {
      assert OffsetAt(buf, base, len, 0) == Some(0) by { StartsAtZero(buf, base, len); }
      NoOffsetLeft(buf, base, len, info, false, 0, 0, {}, 0x1_0000);
    }
  }

  lemma StartsAtZero(buf: seq<uint8>, base: nat, len: uint16)
    ensures OffsetAt(buf, base, len, 0) == Some(0)
  {
  }

  /** A sub-vector that lies within 65535 bytes of the first one moves the loop on. */
  lemma SubStepAscends(buf: seq<uint8>, base: nat, offset: uint16, info: Info)
    requires |buf| < base + 0x1_0000
    ensures var s := SubTlvStep(buf, base, offset, info);
            if s.SubNext? then offset < s.offset && base + s.offset as int <= |buf| else s.outcome != Endless
  {
    hide U16At;
  }

  /** In a buffer that ends less than 65536 bytes behind its start the inner loop always ends, and it
      passes only if its sub-vectors lie inside the buffer. */
  lemma {:induction false} InnerLoopReturns(buf: seq<uint8>, base: nat, offset: uint16, len: uint16, info: Info,
                                            found: bool, seen: set<nat>)
    requires |buf| < base + 0x1_0000
    requires offset > 0 ==> base + offset as int <= |buf|
    requires forall o :: o in seen ==> o < offset
    ensures var outcome := SslLoop(buf, base, offset, len, info, found, seen).0;
            outcome != Some(Endless) && (outcome == None && len > 0 ==> base + len as int <= |buf|)
    decreases Unseen(seen)
  {
    hide SubTlvStep;
    if offset < len {
      SubStepAscends(buf, base, offset, info);
      var s := SubTlvStep(buf, base, offset, info);
      if s.SubNext? {
        UnseenShrinks(seen, offset);
        InnerLoopReturns(buf, base, s.offset, len, s.info, found || s.isVersion, seen + {offset as nat});
      }
    }
  }

  // ---------- one turn ----------

  /** Vectors that are neither refused nor stored: padding, unknown types, unknown subtypes. */
  predicate IsIgnored(kind: uint8, first: uint8) {
    && kind !in {TYPE_ALPN, TYPE_AUTHORITY, TYPE_CRC32C, TYPE_UNIQUE_ID, TYPE_SSL, TYPE_NETNS}
    && (kind == TYPE_AWS || kind == TYPE_AZURE ==> first != 0x01)
  }

  /** Vectors whose value is stored as it is, whatever its length, and those with a NUL behind it. */
  predicate IsCopied(kind: uint8, first: uint8) {
    kind == TYPE_ALPN || kind == TYPE_AUTHORITY || (kind == TYPE_AZURE && first == 0x01)
  }

  predicate IsCopiedAsText(kind: uint8, first: uint8) {
    kind == TYPE_NETNS || (kind == TYPE_AWS && first == 0x01)
  }

  /** Whether the sub-vectors of a value of 65533 bytes at `at` are accepted. */
  predicate SslPasses(buf: seq<uint8>, at: nat) {
    && at + 5 <= |buf|
    && SslLoop(buf, at + 5, 0, 0xFFFD - 5, CLEARED.(ssl := FlagsOf(buf[at], buf[at + 1..at + 5])), false, {}).0.None?
  }

  /** A vector of declared length 65533 that is ignored, or that is stored because the buffer holds its
      65533 bytes, and one more for a NUL. */
  predicate StandsOn(buf: seq<uint8>, pos: nat)
    requires pos + 4 <= |buf|
  {
    var kind, first := buf[pos], buf[pos + 3];
    && U16At(buf, pos + 1) == 0xFFFD
    && (|| IsIgnored(kind, first)
        || (IsCopied(kind, first) && pos + 3 + 0xFFFD <= |buf|)
        || (IsCopiedAsText(kind, first) && pos + 3 + 0xFFFD < |buf|)
        || (kind == TYPE_SSL && SslPasses(buf, pos + 3)))
  }

  /** A turn leaves the position as it is exactly on these bytes. */
  lemma StandsStillExactly(buf: seq<uint8>, pos: nat, rem: uint16, info: Info)
    requires rem > 3 && pos + rem <= |buf|
    ensures var s := TlvStep(buf, pos, rem, info);
            s.Next? && s.offset == 0 <==> StandsOn(buf, pos)
  {
    hide U16At, SslLoop, Crc.Checksum;
    var n, at := U16At(buf, pos + 1), pos + 3;
    if n == 0xFFFD && at + 5 <= |buf| {
      var flags := FlagsOf(buf[at], buf[at + 1..at + 5]);
      SslLoopIgnoresInfo(buf, at + 5, 0, 0xFFFD - 5, info.(ssl := flags), CLEARED.(ssl := flags), false, {});
    }
  }

  /** A turn leaves position, buffer and structure as they are exactly when the vector is ignored. */
  lemma NothingChangesExactly(buf: seq<uint8>, pos: nat, rem: uint16, info: Info)
    requires rem > 3 && pos + rem <= |buf|
    ensures TlvStep(buf, pos, rem, info) == Next(buf, info, 0) <==>
            U16At(buf, pos + 1) == 0xFFFD && IsIgnored(buf[pos], buf[pos + 3])
  {
    hide U16At, SslLoop, Crc.Checksum;
    var n, at := U16At(buf, pos + 1), pos + 3;
    if at + 5 <= |buf| {
      var info1 := info.(ssl := FlagsOf(buf[at], buf[at + 1..at + 5]));
      SslLoopGrows(buf, at + 5, 0, U16(n as int - 5), info1, false, {});
    }
  }

  /** An accepted SSL vector whose inner loop never ends. */
  ghost predicate HangsInside(buf: seq<uint8>, pos: nat, rem: uint16)
    requires rem > 3 && pos + rem <= |buf|
  {
    var n := U16At(buf, pos + 1);
    && buf[pos] == TYPE_SSL && U16(3 + n as int) <= rem && pos + 8 <= |buf|
    && InsideAllAlong(buf, pos + 8, U16(n as int - 5))
  }

  lemma InnerHangExactly(buf: seq<uint8>, pos: nat, rem: uint16, info: Info)
    requires rem > 3 && pos + rem <= |buf|
    ensures var s := TlvStep(buf, pos, rem, info);
            s.Stop? && s.outcome == Endless <==> HangsInside(buf, pos, rem)
  {
    hide U16At, SslLoop, Crc.Checksum, InsideAllAlong;
    var n, at := U16At(buf, pos + 1), pos + 3;
    if at + 5 <= |buf| {
      var info1 := info.(ssl := FlagsOf(buf[at], buf[at + 1..at + 5]));
      InnerLoopEndlessWhen(buf, at + 5, U16(n as int - 5), info1);
    }
  }

  // ---------- the loop ----------

  ghost predicate HangsOn(buf: seq<uint8>, pos: nat, rem: uint16)
    requires rem > 3 && pos + rem <= |buf|
  {
    StandsOn(buf, pos) || HangsInside(buf, pos, rem)
  }

  /** After `k` turns the loop is at a vector it hangs on. */
  ghost predicate MeetsHang(p: Place, k: nat)
    requires p.Inside()
  {
    var q := PlaceAt(p, k);
    q.Some? && q.value.rem > 3 && HangsOn(q.value.buf, q.value.pos, q.value.rem)
  }

  /** The loop never ends exactly when one of its turns is at such a vector, and then one of the first
      turns is, at most one for each byte of the region. */
  lemma {:induction false} WalkEndlessWhen(p: Place)
    requires p.Inside()
    ensures Walk(p.buf, p.pos, p.rem, p.info).outcome == Endless ==> exists k: nat :: k <= p.rem && MeetsHang(p, k)
    ensures (exists k: nat :: MeetsHang(p, k)) ==> Walk(p.buf, p.pos, p.rem, p.info).outcome == Endless
    decreases p.rem
  {
    hide TlvStep, StandsOn, HangsInside;
    if p.rem > 3 {
      StandsStillExactly(p.buf, p.pos, p.rem, p.info);
      InnerHangExactly(p.buf, p.pos, p.rem, p.info);
      if HangsOn(p.buf, p.pos, p.rem) {
        assert MeetsHang(p, 0);
      } else if p.Turn().Next? {
        var q := Behind(p, p.Turn());
        WalkEndlessWhen(q);
        if k: nat :| MeetsHang(p, k) {
          assert MeetsHang(q, k - 1);
        }
        if k: nat :| k <= q.rem && MeetsHang(q, k) {
          assert k + 1 <= p.rem && MeetsHang(p, k + 1);
        }
      }
    }
  }

  // ---------- the whole parser ----------

  /** Where the loop starts, if the parser gets there. */
  function Start(inet: Inet, buf: seq<uint8>, info: Info): (p: Option<Place>)
    requires |buf| >= 16
    ensures p.Some? ==> p.value.Inside() && p.value.buf == buf
  {
    match FixedBytes(buf, info)
    case Rejected(_, _) => None
    case Accepted(info') =>
      var len := U16At(buf, 14);
      if |buf| < 16 + len then None
      else
        match Addresses(inet, buf, len, info')
        case Refused(_, _) => None
        case Vectors(info'', pos, rem) => Some(Place(buf, pos, rem, info''))
  }

  /** The parser never returns exactly when its loop comes to a vector it hangs on. */
  lemma ParseEndlessExactly(inet: Inet, buf: seq<uint8>, info: Info)
    requires |buf| >= 16
    ensures var p := Start(inet, buf, info);
            Parse(inet, buf, info).outcome == Endless <==>
            p.Some? && exists k: nat :: k <= p.value.rem && MeetsHang(p.value, k)
  {
    hide Walk, MeetsHang, FixedBytes, Addresses, U16At;
    var p := Start(inet, buf, info);
    if p.Some? {
      WalkEndlessWhen(p.value);
    }
  }

  // ---------- buffers of at most 65535 bytes ----------

  /** In a short buffer only ignored vectors make the loop hang. */
  lemma ShortHangs(buf: seq<uint8>, pos: nat, rem: uint16)
    requires rem > 3 && pos + rem <= |buf| <= 0xFFFF
    ensures HangsOn(buf, pos, rem) <==> U16At(buf, pos + 1) == 0xFFFD && IsIgnored(buf[pos], buf[pos + 3])
  {
    hide U16At, SslLoop, InsideAllAlong;
    if pos + 8 <= |buf| {
      var info := CLEARED.(ssl := FlagsOf(buf[pos + 3], buf[pos + 4..pos + 8]));
      InnerLoopReturns(buf, pos + 8, 0, 0xFFFD - 5, info, false, {});
      InnerLoopReturns(buf, pos + 8, 0, U16(U16At(buf, pos + 1) as int - 5), info, false, {});
      InnerLoopEndlessWhen(buf, pos + 8, U16(U16At(buf, pos + 1) as int - 5), info);
    }
  }

  /** After `k` turns the loop is at an ignored vector of declared length 65533. */
  ghost predicate MeetsIgnored(p: Place, k: nat)
    requires p.Inside()
  {
    var q := PlaceAt(p, k);
    && q.Some? && q.value.rem > 3 && U16At(q.value.buf, q.value.pos + 1) == 0xFFFD
    && IsIgnored(q.value.buf[q.value.pos], q.value.buf[q.value.pos + 3])
  }

  lemma {:induction false} SameLength(p: Place, k: nat)
    requires p.Inside()
    ensures PlaceAt(p, k).Some? ==> |PlaceAt(p, k).value.buf| == |p.buf|
    decreases k
  {
    hide TlvStep;
    if k > 0 && p.rem > 3 && p.Turn().Next? {
      StepStaysInside(p.buf, p.pos, p.rem, p.info);
      SameLength(Behind(p, p.Turn()), k - 1);
    }
  }

  lemma MeetsIgnoredExactly(p: Place, k: nat)
    requires p.Inside() && |p.buf| <= 0xFFFF
    ensures MeetsHang(p, k) <==> MeetsIgnored(p, k)
  {
    hide HangsOn, PlaceAt;
    SameLength(p, k);
    var q := PlaceAt(p, k);
    if q.Some? && q.value.rem > 3 {
      ShortHangs(q.value.buf, q.value.pos, q.value.rem);
    }
  }

  /** On at most 65535 bytes the parser never returns exactly when its loop comes to an ignored vector of
      declared length 65533. */
  lemma ShortParseEndlessExactly(inet: Inet, buf: seq<uint8>, info: Info)
    requires 16 <= |buf| <= 0xFFFF
    ensures var p := Start(inet, buf, info);
            Parse(inet, buf, info).outcome == Endless <==>
            p.Some? && exists k: nat :: k <= p.value.rem && MeetsIgnored(p.value, k)
  {
    hide Parse, MeetsHang, MeetsIgnored, Start;
    ParseEndlessExactly(inet, buf, info);
    var p := Start(inet, buf, info);
    if p.Some? {
      forall k: nat
        ensures MeetsHang(p.value, k) <==> MeetsIgnored(p.value, k)
      {
        MeetsIgnoredExactly(p.value, k);
      }
    }
  }

  /** One of the vectors that follow each other in the region, going by the lengths they declare, declares
      a length of 65533. */
  predicate Declares65533(buf: seq<uint8>, pos: nat, rem: uint16)
    requires pos + rem <= |buf|
    decreases rem
  {
    && rem > 3
    && (var offset := U16(3 + U16At(buf, pos + 1) as int);
        offset == 0 || (offset <= rem && Declares65533(buf, pos + offset, rem - offset)))
  }

  lemma {:induction false} DeclaresTheSame(buf: seq<uint8>, buf': seq<uint8>, pos: nat, rem: uint16)
    requires pos + rem <= |buf| == |buf'| && buf[pos..] == buf'[pos..]
    ensures Declares65533(buf, pos, rem) <==> Declares65533(buf', pos, rem)
    decreases rem
  {
    if rem > 3 {
      assert buf[pos + 1] == buf[pos..][1] && buf[pos + 2] == buf[pos..][2];
      var offset := U16(3 + U16At(buf, pos + 1) as int);
      if 0 < offset <= rem {
        assert buf[pos + offset..] == buf[pos..][offset..];
        DeclaresTheSame(buf, buf', pos + offset, rem - offset);
      }
    }
  }

  lemma DeclaresHere(buf: seq<uint8>, pos: nat, rem: uint16)
    requires rem > 3 && pos + rem <= |buf| && U16At(buf, pos + 1) == 0xFFFD
    ensures Declares65533(buf, pos, rem)
  {
    hide U16At;
  }

  lemma DeclaresBehind(buf: seq<uint8>, pos: nat, rem: uint16)
    requires rem > 3 && pos + rem <= |buf|
    requires var offset := U16(3 + U16At(buf, pos + 1) as int);
             offset <= rem && Declares65533(buf, pos + offset, rem - offset)
    ensures Declares65533(buf, pos, rem)
  {
    hide U16At;
  }

  /** Only a checksum, which is part of its vector, is cleared. */
  lemma SameRest(buf: seq<uint8>, buf': seq<uint8>, pos: nat, n: nat)
    requires |buf| == |buf'| && pos + n <= |buf| && (buf != buf' ==> n >= 7)
    requires forall k :: 0 <= k < |buf| && buf[k] != buf'[k] ==> pos + 3 <= k < pos + 7
    ensures buf[pos + n..] == buf'[pos + n..]
  {
  }

  /** The loop only comes to vectors of that row. */
  lemma {:induction false} MeetsDeclared(p: Place, k: nat)
    requires p.Inside() && MeetsIgnored(p, k)
    ensures Declares65533(p.buf, p.pos, p.rem)
    decreases k
  {
    hide TlvStep, U16At, IsIgnored, Declares65533;
    if k == 0 {
      DeclaresHere(p.buf, p.pos, p.rem);
    } else {
      StepStaysInside(p.buf, p.pos, p.rem, p.info);
      var q := Behind(p, p.Turn());
      MeetsDeclared(q, k - 1);
      StepClears(p.buf, p.pos, p.rem, p.info);
      SameRest(p.buf, q.buf, p.pos, q.pos - p.pos);
      DeclaresTheSame(p.buf, q.buf, q.pos, q.rem);
      DeclaresBehind(p.buf, p.pos, p.rem);
    }
  }

  /** So the parser returns on every buffer of at most 65535 bytes in which no vector declares a length of
      65533. */
  lemma ShortBufferReturns(inet: Inet, buf: seq<uint8>, info: Info)
    requires 16 <= |buf| <= 0xFFFF
    requires var p := Start(inet, buf, info); p.Some? ==> !Declares65533(buf, p.value.pos, p.value.rem)
    ensures Parse(inet, buf, info).outcome != Endless
  {
    hide Parse, MeetsIgnored, Declares65533;
    ShortParseEndlessExactly(inet, buf, info);
    var p := Start(inet, buf, info);
    if p.Some? {
      if k: nat :| MeetsIgnored(p.value, k) {
        MeetsDeclared(p.value, k);
      }
    }
  }

  // ---------- three headers ----------

  /** A copied vector the loop stands on is stored once more by every turn. */
  lemma {:induction false} StoredForEver(p: Place, k: nat)
    requires p.Inside() && p.rem > 3 && StandsOn(p.buf, p.pos)
    requires IsCopied(p.buf[p.pos], p.buf[p.pos + 3]) || IsCopiedAsText(p.buf[p.pos], p.buf[p.pos + 3])
    ensures var q := PlaceAt(p, k);
            && q.Some? && q.value == p.(info := q.value.info)
            && |q.value.info.tlvs| == |p.info.tlvs| + k
    decreases k
  {
    hide TlvStep, U16At, SslPasses;
    if k > 0 {
      OneMoreStored(p.buf, p.pos, p.rem, p.info);
      StoredForEver(Behind(p, p.Turn()), k - 1);
    }
  }

  lemma OneMoreStored(buf: seq<uint8>, pos: nat, rem: uint16, info: Info)
    requires rem > 3 && pos + rem <= |buf| && StandsOn(buf, pos)
    requires IsCopied(buf[pos], buf[pos + 3]) || IsCopiedAsText(buf[pos], buf[pos + 3])
    ensures var s := TlvStep(buf, pos, rem, info);
            s.Next? && s.buf == buf && s.offset == 0 && |s.info.tlvs| == |info.tlvs| + 1
  {
    hide U16At, SslLoop, SslPasses, CrcStep;
  }

  /** A vector of declared length 65533 for the application protocol. */
  function HangingAlpn(payload: seq<uint8>): seq<uint8> {
    PP2_SIG + [0x20, 0x00, 0x00, 0x04, 0x01, 0xFF, 0xFD] + payload
  }

  /** In a buffer that holds its 65533 bytes the parser stores it for ever. */
  lemma HangingAlpnStored(inet: Inet, payload: seq<uint8>, k: nat)
    requires |payload| >= 65533
    ensures var buf := HangingAlpn(payload);
            && Parse(inet, buf, CLEARED).outcome == Endless
            && var p := Place(buf, 16, 4, CLEARED.(local := true));
               && Start(inet, buf, CLEARED) == Some(p)
               && PlaceAt(p, k).Some? && |PlaceAt(p, k).value.info.tlvs| == k
  {
    hide Walk, PlaceAt, HangsInside;
    var buf := HangingAlpn(payload);
    assert U16At(buf, 14) == 4 && U16At(buf, 17) == 0xFFFD && buf[16] == TYPE_ALPN;
    var p := Place(buf, 16, 4, CLEARED.(local := true));
    StoredForEver(p, k);
    assert MeetsHang(p, 0) by { StoredForEver(p, 0); }
    WalkEndlessWhen(p);
  }

  /** Twenty bytes on which the parser hangs: no addresses, and a padding vector of declared length
      65533. */
  lemma HangingHeader(inet: Inet, payload: seq<uint8>)
    ensures var buf := PP2_SIG + [0x20, 0x00, 0x00, 0x04, 0x04, 0xFF, 0xFD, 0x00] + payload;
            Parse(inet, buf, CLEARED) == Parsed(Endless, buf, CLEARED.(local := true))
  {
    hide Walk;
    var buf := PP2_SIG + [0x20, 0x00, 0x00, 0x04, 0x04, 0xFF, 0xFD, 0x00] + payload;
    assert U16At(buf, 14) == 4 && U16At(buf, 17) == 0xFFFD && buf[16] == TYPE_NOOP;
    NothingChangesExactly(buf, 16, 4, CLEARED.(local := true));
    WalkStands(buf, 16, 4, CLEARED.(local := true));
  }

  lemma WalkStands(buf: seq<uint8>, pos: nat, rem: uint16, info: Info)
    requires rem > 3 && pos + rem <= |buf| && TlvStep(buf, pos, rem, info) == Next(buf, info, 0)
    ensures Walk(buf, pos, rem, info) == Parsed(Endless, buf, info)
  {
    hide TlvStep;
  }

  /** An SSL vector whose only sub-vector declares a length of 65533. */
  function HangingSsl(payload: seq<uint8>): seq<uint8> {
    PP2_SIG + [0x20, 0x00, 0x00, 0x0B, 0x20, 0x00, 0x08, 0, 0, 0, 0, 0, 0x22, 0xFF, 0xFD] + payload
  }

  /** A header on which the inner loop hangs, if the buffer is long enough for it to read on. */
  lemma HangingInnerLoop(inet: Inet, payload: seq<uint8>)
    requires |payload| >= 65533
    ensures Parse(inet, HangingSsl(payload), CLEARED).outcome == Endless
  {
    hide Walk, HangingSsl, U16At;
    HangingBytes(payload);
    SslTurnHangs(HangingSsl(payload), 16, CLEARED.(local := true));
  }

  lemma HangingBytes(payload: seq<uint8>)
    requires |payload| >= 65533
    ensures var buf := HangingSsl(payload);
            && |buf| == 27 + |payload| && buf[12] == 0x20 && buf[13] == 0 && U16At(buf, 14) == 11
            && buf[16] == TYPE_SSL && U16At(buf, 17) == 8 && buf[24] == SUBTYPE_SSL_CN && U16At(buf, 25) == 0xFFFD
  {
  }

  lemma SslTurnHangs(buf: seq<uint8>, pos: nat, info: Info)
    requires pos + 11 + 65533 <= |buf| && buf[pos] == TYPE_SSL && U16At(buf, pos + 1) == 8
    requires buf[pos + 8] == SUBTYPE_SSL_CN && U16At(buf, pos + 9) == 0xFFFD
    ensures Walk(buf, pos, 11, info).outcome == Endless
  {
    hide U16At, SslLoop, CrcStep, StoreStep, AsciiStep, FlagsOf;
    SubStands(buf, pos + 8, 3, info.(ssl := FlagsOf(buf[pos + 3], buf[pos + 4..pos + 8])));
    WalkStops(buf, pos, 11, info);
  }

  lemma SubStands(buf: seq<uint8>, base: nat, len: uint16, info: Info)
    requires len > 0 && base + 3 + 65533 <= |buf| && buf[base] == SUBTYPE_SSL_CN && U16At(buf, base + 1) == 0xFFFD
    ensures SslLoop(buf, base, 0, len, info, false, {}).0 == Some(Endless)
  {
    hide U16At;
    var s := SubTlvStep(buf, base, 0, info);
    assert s.SubNext? && s.offset == 0;
    assert SslLoop(buf, base, 0, len, s.info, false, {0 as nat}).0 == Some(Endless);
    assert {} + {0 as nat} == {0 as nat};
  }

  lemma WalkStops(buf: seq<uint8>, pos: nat, rem: uint16, info: Info)
    requires rem > 3 && pos + rem <= |buf| && TlvStep(buf, pos, rem, info).Stop?
    ensures Walk(buf, pos, rem, info).outcome == TlvStep(buf, pos, rem, info).outcome
  {
    hide TlvStep;
  }
}
