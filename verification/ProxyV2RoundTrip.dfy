/** A version 2 header that was created is parsed back: family, transport, addresses, ports, the
    SSL flags and the vectors in order, with the checksum verified and any payload left alone
    (asio_server/proxy_protocol.cpp:577-725 against 808-1094). */
module ProxyV2RoundTrip {
  import opened MachineTypes
  import opened Wrappers
  import opened Blocks
  import opened ProxyInfo
  import opened ProxyVectors
  import opened ProxyV2Create
  import opened ProxyV2Parse

  // ---------- bytes laid out one after another ----------

  lemma TlvSize(t: TlvVector)
    ensures |TlvBytes(t)| == 3 + |t.value|
  {
  }

  lemma ReadTlv(buf: seq<uint8>, pos: nat, t: TlvVector)
    requires Starts(buf, pos, TlvBytes(t))
    ensures pos + 3 + |t.value| <= |buf|
    ensures buf[pos] == t.kind && U16At(buf, pos + 1) == |t.value|
    ensures buf[pos + 3..pos + 3 + |t.value|] == t.value
  {
    var s := buf[pos..pos + 3 + |t.value|];
    assert s[0] == t.kind && s[1] == |t.value| / 256 && s[2] == |t.value| % 256;
    assert s[3..] == t.value;
  }

  // ---------- the nested SSL vector ----------

  predicate IsSslSubtype(kind: uint8) {
    IsAsciiSubtype(kind) || kind == SUBTYPE_SSL_CN
  }

  ghost function SubsReceived(ts: seq<TlvVector>): seq<TlvVector>
    requires forall t :: t in ts ==> |t.value| < 0xFFFF
  {
    if ts == [] then [] else SubReceived(ts[0].kind, ts[0].value) + SubsReceived(ts[1..])
  }

  /** A sub-vector with a value; an ASCII one is followed by at least one more byte of the buffer. */
  ghost predicate Readable(buf: seq<uint8>, at: nat, t: TlvVector) {
    && IsSslSubtype(t.kind) && t.value != [] && |t.value| < 0xFFFF
    && (t.kind != SUBTYPE_SSL_CN ==> at + 3 + |t.value| < |buf|)
  }

  lemma SubStepOf(buf: seq<uint8>, base: nat, offset: uint16, info: Info, t: TlvVector)
    requires Starts(buf, base + offset, TlvBytes(t)) && offset + 3 + |t.value| <= 0xFFFF
          && Readable(buf, base + offset, t)
    ensures SubTlvStep(buf, base, offset, info) ==
            SubNext(info.(tlvs := info.tlvs + SubReceived(t.kind, t.value)), offset + 3 + |t.value|,
                    t.kind == SUBTYPE_SSL_VERSION)
  {
    hide TlvBytes, U16At;
    ReadTlv(buf, base + offset, t);
  }

  predicate HasVersion(ts: seq<TlvVector>) {
    ts != [] && (ts[0].kind == SUBTYPE_SSL_VERSION || HasVersion(ts[1..]))
  }

  lemma AppendReceived(info: Info, us: seq<TlvVector>, ts: seq<TlvVector>)
    ensures info.(tlvs := info.tlvs + us).(tlvs := info.tlvs + us + ts) == info.(tlvs := info.tlvs + (us + ts))
  {
    assert info.tlvs + us + ts == info.tlvs + (us + ts);
  }

  ghost predicate AllSubs(ts: seq<TlvVector>) {
    forall t :: t in ts ==> IsSslSubtype(t.kind) && t.value != [] && |t.value| < 0xFFFF
  }

  /** Sub-vectors with values are read one after another, if a byte of the buffer follows the last
      one or it is no ASCII one. */
  lemma {:induction false} SslLoopReads(buf: seq<uint8>, base: nat, offset: uint16, len: uint16, info: Info,
        found: bool,
                                        seen: set<nat>, ts: seq<TlvVector>) returns (seen': set<nat>)
    requires offset + |TlvsBytes(ts)| <= len && Starts(buf, base + offset, TlvsBytes(ts)) && AllSubs(ts)
    requires ts != [] && ts[|ts| - 1].kind != SUBTYPE_SSL_CN ==> base + offset + |TlvsBytes(ts)| < |buf|
    requires forall o :: o in seen ==> o < offset as nat
    ensures forall o :: o in seen' ==> o < offset + |TlvsBytes(ts)|
    ensures SslLoop(buf, base, offset, len, info, found, seen) ==
            SslLoop(buf, base, offset + |TlvsBytes(ts)|, len, info.(tlvs := info.tlvs + SubsReceived(ts)),
                    found || HasVersion(ts), seen')
    decreases |ts|
  {
    hide SubTlvStep, TlvBytes, TlvsBytes, SubReceived, SslLoop, Starts;
    if ts == [] {
      NoTlvs();
      assert info.tlvs + [] == info.tlvs;
      seen' := seen;
    } else {
      var t, rest := ts[0], ts[1..];
      TlvsCons(ts);
      StartsSplit(buf, base + offset, TlvBytes(t), TlvsBytes(rest));
      SubStepOf(buf, base, offset, info, t);
      NextSub(buf, base, offset, len, info, found, seen);
      var info' := info.(tlvs := info.tlvs + SubReceived(t.kind, t.value));
      seen' := SslLoopReads(buf, base, offset + 3 + |t.value|, len, info', found || t.kind == SUBTYPE_SSL_VERSION,
                            seen + {offset as nat}, rest);
      AppendReceived(info, SubReceived(t.kind, t.value), SubsReceived(rest));
    }
  }

  lemma TlvsCons(ts: seq<TlvVector>)
    requires ts != []
    ensures TlvsBytes(ts) == TlvBytes(ts[0]) + TlvsBytes(ts[1..])
    ensures |TlvBytes(ts[0])| == 3 + |ts[0].value|
    ensures |ts| > 1 ==> |TlvsBytes(ts[1..])| >= 3
  {
  }

  lemma NoTlvs()
    ensures TlvsBytes([]) == []
  {
  }

  /** One more turn of the inner loop. */
  lemma NextSub(buf: seq<uint8>, base: nat, offset: uint16, len: uint16, info: Info, found: bool, seen: set<nat>)
    requires offset < len && offset !in seen && SubTlvStep(buf, base, offset, info).SubNext?
    ensures var s := SubTlvStep(buf, base, offset, info);
            SslLoop(buf, base, offset, len, info, found, seen) ==
            SslLoop(buf, base, s.offset, len, s.info, found || s.isVersion, seen + {offset as nat})
  {
    hide SubTlvStep;
  }

  /** The inner loop only appends, and a loop that passes has appended something if it had anything
      to read. */
  lemma {:induction false} SslLoopGrows(buf: seq<uint8>, base: nat, offset: uint16, len: uint16, info: Info,
        found: bool,
                                        seen: set<nat>)
    ensures var (outcome, info') := SslLoop(buf, base, offset, len, info, found, seen);
            && |info.tlvs| <= |info'.tlvs|
            && (outcome == None && offset < len ==> |info.tlvs| < |info'.tlvs|)
            && (outcome.Some? ==> !outcome.value.Length?)
    decreases Unseen(seen)
  {
    if offset < len && offset !in seen {
      match SubTlvStep(buf, base, offset, info) {
        case SubStop(_) =>
        case SubNext(info', offset', isVersion) =>
          UnseenShrinks(seen, offset);
          SslLoopGrows(buf, base, offset', len, info', found || isVersion, seen + {offset as nat});
      }
    }
  }

  /** The flags come back as they were written: all but the session flag, which comes back right
      exactly when it equals the connection flag. */
  lemma ClientFlags(flags: SslInfo)
    ensures FlagsOf(ClientByte(flags), [if flags.certVerified then 0 else 1, 0, 0, 0]) == SeenFlags(flags)
    ensures SeenFlags(flags) == flags <==> flags.certInSession == flags.certInConnection
  {
    assert [if flags.certVerified then 0 else 1, 0, 0, 0][0] == if flags.certVerified then 0 else 1;
  }

  function Present(t: TlvVector): (ts: seq<TlvVector>)
    ensures forall u :: u in ts ==> u == t && u.value != []
  {
    if t.value == [] then [] else [t]
  }

  lemma PresentBytes(t: TlvVector)
    requires |t.value| < 0xFFFF
    ensures TlvsBytes(Present(t)) == SubVector(t.kind, t.value)
    ensures SubsReceived(Present(t)) == SubReceived(t.kind, t.value)
  {
    assert TlvsBytes([t]) == TlvBytes(t) + TlvsBytes([]);
    assert SubsReceived([t]) == SubReceived(t.kind, t.value) + SubsReceived([]);
  }

  /** The sub-vectors that are written for an SSL vector. */
  ghost function SubsOf(v: Vector): (ts: seq<TlvVector>)
    requires Addable(v) && v.Ssl?
    ensures AllSubs(ts)
    ensures v.cn != [] ==> ts != [] && ts[|ts| - 1].kind == SUBTYPE_SSL_CN
  {
    Present(Tlv(SUBTYPE_SSL_VERSION, v.version)) + Present(Tlv(SUBTYPE_SSL_CIPHER, v.cipher)) +
    Present(Tlv(SUBTYPE_SSL_SIG_ALG, v.sigAlg)) + Present(Tlv(SUBTYPE_SSL_KEY_ALG, v.keyAlg)) +
    Present(Tlv(SUBTYPE_SSL_CN, v.cn))
  }

  lemma FrontFirst(front: seq<uint8>, a: seq<uint8>, b: seq<uint8>, c: seq<uint8>, d: seq<uint8>, e: seq<uint8>)
    ensures front + a + b + c + d + e == front + (a + b + c + d + e)
  {
  }

  lemma {:induction false} SubsReceivedAppend(ts: seq<TlvVector>, us: seq<TlvVector>)
    requires AllSubs(ts) && AllSubs(us)
    ensures AllSubs(ts + us) && SubsReceived(ts + us) == SubsReceived(ts) + SubsReceived(us)
    decreases |ts|
  {
    hide SubReceived;
    if ts == [] {
      assert ts + us == us;
    } else {
      var first := SubReceived(ts[0].kind, ts[0].value);
      assert (ts + us)[1..] == ts[1..] + us;
      SubsReceivedAppend(ts[1..], us);
      assert first + SubsReceived(ts[1..]) + SubsReceived(us) == first + (SubsReceived(ts[1..]) + SubsReceived(us));
    }
  }

  /** The first five bytes of an SSL value: client and verify. */
  function Front(flags: SslInfo): seq<uint8> {
    [ClientByte(flags), if flags.certVerified then 0 else 1, 0, 0, 0]
  }

  ghost function WrittenOf(v: Vector): (s: seq<uint8>)
    requires Addable(v) && v.Ssl?
    ensures |s| <= |v.heap|
    ensures if IsComplete(v) then |s| == |v.heap| else |s| + 3 <= |v.heap|
    ensures Added(v).kind == TYPE_SSL && Added(v).value == s + v.heap[|s|..]
  {
    SslWrittenLength(v.flags, v.version, v.cipher, v.sigAlg, v.keyAlg, v.cn);
    SslWritten(v.flags, v.version, v.cipher, v.sigAlg, v.keyAlg, v.cn)
  }

  lemma WrittenParts(v: Vector)
    requires Addable(v) && v.Ssl?
    ensures WrittenOf(v) == Front(v.flags) + TlvsBytes(SubsOf(v))
  {
    hide SubVector, TlvBytes, TlvsBytes, Present, ClientByte, AllSubs;
    var t1, t2, t3 := Tlv(SUBTYPE_SSL_VERSION, v.version), Tlv(SUBTYPE_SSL_CIPHER, v.cipher),
          Tlv(SUBTYPE_SSL_SIG_ALG, v.sigAlg);
    var t4, t5 := Tlv(SUBTYPE_SSL_KEY_ALG, v.keyAlg), Tlv(SUBTYPE_SSL_CN, v.cn);
    PresentBytes(t1);
    PresentBytes(t2);
    PresentBytes(t3);
    PresentBytes(t4);
    PresentBytes(t5);
    TlvsBytesAppend(Present(t1), Present(t2));
    TlvsBytesAppend(Present(t1) + Present(t2), Present(t3));
    TlvsBytesAppend(Present(t1) + Present(t2) + Present(t3), Present(t4));
    TlvsBytesAppend(Present(t1) + Present(t2) + Present(t3) + Present(t4), Present(t5));
    FrontFirst(Front(v.flags), SubVector(t1.kind, v.version), SubVector(t2.kind, v.cipher),
          SubVector(t3.kind, v.sigAlg),
               SubVector(t4.kind, v.keyAlg), SubVector(t5.kind, v.cn));
  }

  /** The value: client and verify, the sub-vectors, and what the heap held in the place reserved for
      missing ones. */
  lemma SslValueParts(v: Vector) returns (tail: seq<uint8>)
    requires Addable(v) && v.Ssl?
    ensures Added(v).kind == TYPE_SSL && Added(v).value == Front(v.flags) + (TlvsBytes(SubsOf(v)) + tail)
    ensures IsComplete(v) ==> tail == []
    ensures !IsComplete(v) ==> 3 <= |tail| <= |v.heap| && tail == v.heap[|v.heap| - |tail|..]
  {
    hide TlvsBytes, SubsOf, Front, Added, WrittenOf, Addable, IsComplete;
    WrittenParts(v);
    tail := v.heap[|WrittenOf(v)|..];
    assert Front(v.flags) + TlvsBytes(SubsOf(v)) + tail == Front(v.flags) + (TlvsBytes(SubsOf(v)) + tail);
  }

  lemma SslReceived(v: Vector)
    requires Addable(v) && v.Ssl? && |Added(v).value| < 0xFFFD
    ensures SubsReceived(SubsOf(v)) == Received(v)
  {
    hide SubsReceived, SubReceived, Added, Present;
    var t1, t2, t3 := Tlv(SUBTYPE_SSL_VERSION, v.version), Tlv(SUBTYPE_SSL_CIPHER, v.cipher),
          Tlv(SUBTYPE_SSL_SIG_ALG, v.sigAlg);
    var t4, t5 := Tlv(SUBTYPE_SSL_KEY_ALG, v.keyAlg), Tlv(SUBTYPE_SSL_CN, v.cn);
    PresentBytes(t1);
    PresentBytes(t2);
    PresentBytes(t3);
    PresentBytes(t4);
    PresentBytes(t5);
    SubsReceivedAppend(Present(t1), Present(t2));
    SubsReceivedAppend(Present(t1) + Present(t2), Present(t3));
    SubsReceivedAppend(Present(t1) + Present(t2) + Present(t3), Present(t4));
    SubsReceivedAppend(Present(t1) + Present(t2) + Present(t3) + Present(t4), Present(t5));
  }

  /** The client byte and the verify word are read, then the inner loop runs over `subs`. */
  lemma SslStart(buf: seq<uint8>, pos: nat, rem: uint16, info: Info, flags: SslInfo, t: TlvVector, subs: seq<uint8>)
    requires t.kind == TYPE_SSL && |t.value| <= 0xFFFC && t.value == Front(flags) + subs
    requires rem > 3 && pos + rem <= |buf| && 3 + |t.value| <= rem && Starts(buf, pos, TlvBytes(t))
    ensures Starts(buf, pos + 8, subs)
    ensures var (outcome, info') := SslLoop(buf, pos + 8, 0, |subs|, info.(ssl := SeenFlags(flags)), false, {});
            TlvStep(buf, pos, rem, info) ==
            if outcome == None then Next(buf, info', 3 + |t.value|) else Stop(outcome.value, buf, info')
  {
    hide SslLoop, TlvBytes, TlvStep, FlagsOf, ClientByte, SeenFlags, Front, U16;
    var n, at := |t.value|, pos + 3;
    SslTurn(buf, pos, rem, info, t);
    FrontSize(flags);
    SslFront(buf, at, flags, subs, t.value);
    ClientFlags(flags);
    U16Is(n - 5, n - 5, 0);
    U16Is(3 + n, 3 + n, 0);
  }

  lemma SslTurn(buf: seq<uint8>, pos: nat, rem: uint16, info: Info, t: TlvVector)
    requires t.kind == TYPE_SSL && |t.value| <= 0xFFFC
    requires rem > 3 && pos + rem <= |buf| && 3 + |t.value| <= rem && Starts(buf, pos, TlvBytes(t))
    ensures TlvStep(buf, pos, rem, info) == SslStep(buf, pos + 3, |t.value|, info)
    ensures Starts(buf, pos + 3, t.value)
  {
    hide TlvBytes, SslStep, U16;
    ReadTlv(buf, pos, t);
    U16Is(3 + |t.value|, 3 + |t.value|, 0);
  }

  lemma SslFront(buf: seq<uint8>, at: nat, flags: SslInfo, subs: seq<uint8>, value: seq<uint8>)
    requires value == Front(flags) + subs
    requires at + |value| <= |buf| && Starts(buf, at, value)
    ensures Starts(buf, at + 5, subs)
    ensures buf[at] == ClientByte(flags) && buf[at + 1..at + 5] == [if flags.certVerified then 0 else 1, 0, 0, 0]
  {
    hide ClientByte;
    var front := Front(flags);
    StartsSplit(buf, at, front, subs);
    assert buf[at] == buf[at..at + 5][0] && buf[at + 1..at + 5] == buf[at..at + 5][1..5];
    assert front[1..5] == [if flags.certVerified then 0 else 1, 0, 0, 0];
  }

  /** The inner loop over an SSL value gets behind its sub-vectors. */
  lemma SslSubsRead(buf: seq<uint8>, pos: nat, rem: uint16, info: Info, v: Vector)
        returns (tail: seq<uint8>, seen: set<nat>)
    requires Addable(v) && v.Ssl? && |Added(v).value| <= 0xFFFC
    requires rem > 3 && pos + rem <= |buf| && 3 + |Added(v).value| <= rem && Starts(buf, pos, TlvBytes(Added(v)))
    ensures var n := |TlvsBytes(SubsOf(v))|;
            && 5 + n + |tail| == |Added(v).value| && Starts(buf, pos + 8 + n, tail)
            && (forall o :: o in seen ==> o < n)
            && var info1 := info.(ssl := SeenFlags(v.flags), tlvs := info.tlvs + Received(v));
               var (outcome, info') := SslLoop(buf, pos + 8, n, n + |tail|, info1, HasVersion(SubsOf(v)), seen);
               TlvStep(buf, pos, rem, info) ==
               if outcome == None then Next(buf, info', 3 + |Added(v).value|) else Stop(outcome.value, buf, info')
    ensures IsComplete(v) ==> tail == []
    ensures !IsComplete(v) ==> 3 <= |tail| <= |v.heap| && tail == v.heap[|v.heap| - |tail|..]
  {
    hide SslLoop, TlvBytes, TlvsBytes, SslWritten, TlvStep, Added, Received, SubsReceived, SeenFlags, SubsOf, Front,
          HasVersion;
    tail := SslValueParts(v);
    var ts := SubsOf(v);
    FrontSize(v.flags);
    SslStart(buf, pos, rem, info, v.flags, Added(v), TlvsBytes(ts) + tail);
    StartsSplit(buf, pos + 8, TlvsBytes(ts), tail);
    LastIsRead(v, tail);
    seen := SslLoopReads(buf, pos + 8, 0, |TlvsBytes(ts) + tail|, info.(ssl := SeenFlags(v.flags)), false, {}, ts);
    SslReceived(v);
  }

  lemma FrontSize(flags: SslInfo)
    ensures |Front(flags)| == 5
  {
  }

  lemma LastIsRead(v: Vector, tail: seq<uint8>)
    requires Addable(v) && v.Ssl? && (!IsComplete(v) ==> |tail| >= 3)
    ensures SubsOf(v) != [] && SubsOf(v)[|SubsOf(v)| - 1].kind != SUBTYPE_SSL_CN ==> tail != []
  {
  }

  lemma CompleteHasVersion(v: Vector)
    requires Addable(v) && v.Ssl? && IsComplete(v)
    ensures HasVersion(SubsOf(v))
  {
    var ts := SubsOf(v);
    assert ts[0] == Tlv(SUBTYPE_SSL_VERSION, v.version);
  }

  /** A complete SSL vector is consumed exactly by the inner loop. */
  lemma SslStepOf(buf: seq<uint8>, pos: nat, rem: uint16, info: Info, v: Vector)
    requires Addable(v) && v.Ssl? && IsComplete(v) && |Added(v).value| <= 0xFFFC
    requires rem > 3 && pos + rem <= |buf| && 3 + |Added(v).value| <= rem && Starts(buf, pos, TlvBytes(Added(v)))
    ensures TlvStep(buf, pos, rem, info) ==
            Next(buf, info.(tlvs := info.tlvs + Received(v), ssl := SeenFlags(v.flags)), 3 + |Added(v).value|)
  {
    hide TlvBytes, TlvsBytes, TlvStep, Added, Received, SubsOf, HasVersion;
    var tail, seen := SslSubsRead(buf, pos, rem, info, v);
    CompleteHasVersion(v);
  }

  /** With a field missing, whatever the heap held, the vector is not received as sent: the loop goes
      on into heap contents, and either stops there or appends what it finds. */
  lemma SslStepIncomplete(buf: seq<uint8>, pos: nat, rem: uint16, info: Info, v: Vector)
    requires Addable(v) && v.Ssl? && !IsComplete(v) && |Added(v).value| <= 0xFFFC
    requires rem > 3 && pos + rem <= |buf| && 3 + |Added(v).value| <= rem && Starts(buf, pos, TlvBytes(Added(v)))
    ensures match TlvStep(buf, pos, rem, info)
            case Stop(outcome, _, _) => !outcome.Length?
            case Next(buf', info', offset) =>
              buf' == buf && offset == 3 + |Added(v).value| && |info'.tlvs| > |info.tlvs| + |Received(v)|
  {
    hide SslLoop, TlvBytes, TlvsBytes, TlvStep, Added, Received, SubsOf, HasVersion;
    var tail, seen := SslSubsRead(buf, pos, rem, info, v);
    var n := |TlvsBytes(SubsOf(v))|;
    var info1 := info.(ssl := SeenFlags(v.flags), tlvs := info.tlvs + Received(v));
    SslLoopGrows(buf, pos + 8, n, n + |tail|, info1, HasVersion(SubsOf(v)), seen);
  }

  /** An SSL vector is received as sent exactly when all five fields are there, whatever the heap held. */
  lemma SslReceivedExactly(buf: seq<uint8>, pos: nat, rem: uint16, info: Info, v: Vector)
    requires Addable(v) && v.Ssl? && |Added(v).value| <= 0xFFFC
    requires rem > 3 && pos + rem <= |buf| && 3 + |Added(v).value| <= rem && Starts(buf, pos, TlvBytes(Added(v)))
    ensures TlvStep(buf, pos, rem, info) ==
            Next(buf, info.(tlvs := info.tlvs + Received(v), ssl := SeenFlags(v.flags)), 3 + |Added(v).value|) <==>
            IsComplete(v)
  {
    hide TlvBytes, TlvStep, Added, Received;
    if IsComplete(v) {
      SslStepOf(buf, pos, rem, info, v);
    } else {
      SslStepIncomplete(buf, pos, rem, info, v);
    }
  }

  /** If the heap block held zeros, an SSL vector with a field missing is refused. */
  lemma MissingFieldIsRefused(buf: seq<uint8>, pos: nat, rem: uint16, info: Info, v: Vector)
    requires Addable(v) && v.Ssl? && !IsComplete(v) && |Added(v).value| <= 0xFFFC && v.heap == Zeros(|v.heap|)
    requires rem > 3 && pos + rem <= |buf| && 3 + |Added(v).value| <= rem && Starts(buf, pos, TlvBytes(Added(v)))
    ensures TlvStep(buf, pos, rem, info).Stop? && TlvStep(buf, pos, rem, info).outcome == Error(-ERR_PP2_TYPE_SSL)
  {
    hide SslLoop, TlvBytes, TlvsBytes, TlvStep, Added, Received, SubsOf, HasVersion;
    var tail, seen := SslSubsRead(buf, pos, rem, info, v);
    var n := |TlvsBytes(SubsOf(v))|;
    var info1 := info.(ssl := SeenFlags(v.flags), tlvs := info.tlvs + Received(v));
    assert tail[0] == v.heap[|v.heap| - |tail|] == 0;
    assert buf[pos + 8 + n..pos + 8 + n + |tail|][0] == tail[0];
    ZeroSubtypeIsRefused(buf, pos + 8, n, n + |tail|, info1, HasVersion(SubsOf(v)), seen);
  }

  lemma ZeroSubtypeIsRefused(buf: seq<uint8>, base: nat, offset: uint16, len: uint16, info: Info, found: bool,
                             seen: set<nat>)
    requires offset < len && base + offset + 3 <= |buf| && buf[base + offset] == 0 && offset as nat !in seen
    ensures SslLoop(buf, base, offset, len, info, found, seen) == (Some(Error(-ERR_PP2_TYPE_SSL)), info)
  {
  }

  // ---------- one vector ----------

  /** The value is copied with a NUL behind it. */
  predicate IsAscii(v: Vector) {
    v.Netns? || v.AwsVpce?
  }

  /** A flat vector is received as sent if it can be copied: an ASCII value must not end the buffer. */
  lemma FlatStep(buf: seq<uint8>, pos: nat, rem: uint16, info: Info, v: Vector)
    requires Addable(v) && !v.Ssl? && (v.AwsVpce? ==> v.vpceId != []) && |Added(v).value| <= 0xFFFC
    requires rem > 3 && pos + rem <= |buf| && 3 + |Added(v).value| <= rem && Starts(buf, pos, TlvBytes(Added(v)))
    ensures TlvStep(buf, pos, rem, info) ==
            if IsAscii(v) && pos + 3 + |Added(v).value| == |buf| then Stop(Overread, buf, info)
            else Next(buf, info.(tlvs := info.tlvs + Received(v)), 3 + |Added(v).value|)
  {
    hide SslStep, CrcStep, TlvBytes, U16At, U16;
    ReadTlv(buf, pos, Added(v));
    U16Is(3 + |Added(v).value|, 3 + |Added(v).value|, 0);
  }

  /** The parser refuses an AWS vector with an empty identifier, which `pp_info_add_aws_vpce_id` makes. */
  lemma EmptyAwsStep(buf: seq<uint8>, pos: nat, rem: uint16, info: Info, v: Vector)
    requires v.AwsVpce? && v.vpceId == []
    requires rem > 3 && pos + rem <= |buf| && Starts(buf, pos, TlvBytes(Added(v)))
    ensures TlvStep(buf, pos, rem, info) == Stop(Error(-ERR_PP2_TYPE_AWS), buf, info)
  {
    hide SslStep, CrcStep, TlvBytes, U16At;
    ReadTlv(buf, pos, Added(v));
  }
}
