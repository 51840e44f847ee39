/** Looking a value up in a `pp_info_t` (asio_server/proxy_protocol.cpp:384-472), and what the
    getters hand out for a header that was created and parsed. */
module ProxyLookup {
  import opened MachineTypes
  import opened Wrappers
  import opened ProxyInfo
  import opened ProxyVectors
  import opened ProxyV2Create
  import opened ProxyV2Parse
  import opened ProxyV2Theorems

  /** `Missing` carries the length that is left behind a null pointer; `LooksBehind`: the first byte of
      an empty value is looked at. */
  datatype Answer = Found(value: seq<uint8>) | Missing(length: nat) | LooksBehind

  function Find(tlvs: seq<TlvVector>, kind: uint8, subtype: uint8): Answer {
    if tlvs == [] then Missing(0)
    else if tlvs[0].kind != kind then Find(tlvs[1..], kind, subtype)
    else if subtype == 0 then Found(tlvs[0].value)
    else if tlvs[0].value == [] then LooksBehind
    else if tlvs[0].value[0] == subtype then Found(tlvs[0].value[1..])
    else Missing(|tlvs[0].value|)
  }

  /** The first vector of the type decides: its value, or with a subtype what stands behind it; or nothing. */
  lemma {:induction false} FindIsFirst(tlvs: seq<TlvVector>, kind: uint8, subtype: uint8, i: nat)
    requires i <= |tlvs| && (i < |tlvs| ==> tlvs[i].kind == kind)
    requires forall j :: 0 <= j < i ==> tlvs[j].kind != kind
    ensures Find(tlvs, kind, subtype) ==
            if i == |tlvs| then Missing(0)
            else if subtype == 0 then Found(tlvs[i].value)
            else if tlvs[i].value == [] then LooksBehind
            else if tlvs[i].value[0] == subtype then Found(tlvs[i].value[1..])
            else Missing(|tlvs[i].value|)
  {
    if i > 0 {
      FindIsFirst(tlvs[1..], kind, subtype, i - 1);
    }
  }

  /** `pp_info_get_tlv_value`. */
  method GetTlvValue(list: TlvArray, kind: uint8, subtype: uint8) returns (r: Answer)
    requires list.Valid()
    ensures r == Find(list.Contents(), kind, subtype)
  {
    if list.tlvs == null || list.len == 0 {
      return Missing(0);
    }
    var i := 0;
    while i < list.len
      invariant 0 <= i <= list.len
      invariant Find(list.Contents(), kind, subtype) == Find(list.Contents()[i..], kind, subtype)
    {
      var t := list.tlvs[i];
      assert list.Contents()[i..][1..] == list.Contents()[i + 1..];
      if t.kind == kind {
        if subtype > 0 {
          if t.value == [] {
            return LooksBehind;
          }
          if t.value[0] == subtype {
            return Found(t.value[1..]);
          }
          return Missing(|t.value|);
        }
        return Found(t.value);
      }
      i := i + 1;
    }
    r := Missing(0);
  }

  /** The getters by type and subtype. */
  predicate IsGetter(kind: uint8, subtype: uint8) {
    if kind == TYPE_AWS || kind == TYPE_AZURE then subtype == 0x01
    else
      subtype == 0 &&
      kind in {TYPE_ALPN, TYPE_AUTHORITY, TYPE_CRC32C, TYPE_UNIQUE_ID, TYPE_NETNS, SUBTYPE_SSL_VERSION,
               SUBTYPE_SSL_CN, SUBTYPE_SSL_CIPHER, SUBTYPE_SSL_SIG_ALG, SUBTYPE_SSL_KEY_ALG}
  }

  /** What the sender put into a vector for a getter; ASCII values come with a NUL. */
  function Sent(v: Vector, kind: uint8): Option<seq<uint8>> {
    match v
    case Alpn(b) => if kind == TYPE_ALPN then Some(b) else None
    case Authority(b) => if kind == TYPE_AUTHORITY then Some(b) else None
    case UniqueId(b) => if kind == TYPE_UNIQUE_ID then Some(b) else None
    case Netns(b) => if kind == TYPE_NETNS then Some(b + [0]) else None
    case AwsVpce(b) => if kind == TYPE_AWS then Some(b + [0]) else None
    case AzureLink(b) => if kind == TYPE_AZURE then Some(b) else None
    case Ssl(_, version, cipher, sigAlg, keyAlg, cn, _) =>
      if kind == SUBTYPE_SSL_VERSION then Some(version + [0])
      else if kind == SUBTYPE_SSL_CIPHER then Some(cipher + [0])
      else if kind == SUBTYPE_SSL_SIG_ALG then Some(sigAlg + [0])
      else if kind == SUBTYPE_SSL_KEY_ALG then Some(keyAlg + [0])
      else if kind == SUBTYPE_SSL_CN then Some(cn)
      else None
  }

  /** The first vector that has something for the getter. */
  function FirstSent(vs: seq<Vector>, kind: uint8): Option<seq<uint8>> {
    if vs == [] then None
    else if Sent(vs[0], kind).Some? then Sent(vs[0], kind)
    else FirstSent(vs[1..], kind)
  }

  lemma FindCons(t: TlvVector, rest: seq<TlvVector>, kind: uint8, subtype: uint8)
    ensures t.kind != kind ==> Find([t] + rest, kind, subtype) == Find(rest, kind, subtype)
    ensures t.kind == kind && subtype == 0 ==> Find([t] + rest, kind, subtype) == Found(t.value)
    ensures t.kind == kind && subtype != 0 && t.value != [] && t.value[0] == subtype ==>
              Find([t] + rest, kind, subtype) == Found(t.value[1..])
  {
    assert ([t] + rest)[1..] == rest;
  }

  lemma FindInOne(v: Vector, rest: seq<TlvVector>, kind: uint8, subtype: uint8)
    requires Addable(v) && IsComplete(v) && |Added(v).value| < 0xFFFD && IsGetter(kind, subtype)
    ensures Find(Received(v) + rest, kind, subtype) ==
            if Sent(v, kind).Some? then Found(Sent(v, kind).value) else Find(rest, kind, subtype)
  {
    if v.Ssl? {
      FindInSsl(v, rest, kind, subtype);
    } else {
      hide Find;
      FindCons(Received(v)[0], rest, kind, subtype);
      if v.AwsVpce? {
        assert Received(v)[0].value[1..] == v.vpceId + [0];
      }
    }
  }

  /** The five sub-vectors of a complete SSL vector. */
  lemma FiveReceived(v: Vector)
    requires v.Ssl? && IsComplete(v) && Addable(v) && |Added(v).value| < 0xFFFD
    ensures Received(v) ==
            [Tlv(SUBTYPE_SSL_VERSION, v.version + [0]), Tlv(SUBTYPE_SSL_CIPHER, v.cipher + [0]),
             Tlv(SUBTYPE_SSL_SIG_ALG, v.sigAlg + [0]), Tlv(SUBTYPE_SSL_KEY_ALG, v.keyAlg + [0]),
             Tlv(SUBTYPE_SSL_CN, v.cn)]
  {
    hide Added;
  }

  lemma OneByOne(a: TlvVector, b: TlvVector, c: TlvVector, d: TlvVector, e: TlvVector, rest: seq<TlvVector>)
    ensures [a, b, c, d, e] + rest == [a] + ([b] + ([c] + ([d] + ([e] + rest))))
  {
  }

  lemma FindInSsl(v: Vector, rest: seq<TlvVector>, kind: uint8, subtype: uint8)
    requires v.Ssl? && IsComplete(v) && Addable(v) && |Added(v).value| < 0xFFFD && IsGetter(kind, subtype)
    ensures Find(Received(v) + rest, kind, subtype) ==
            if Sent(v, kind).Some? then Found(Sent(v, kind).value) else Find(rest, kind, subtype)
  {
    hide Find, Added, Received, IsComplete, Addable;
    FiveReceived(v);
    var r := Received(v);
    OneByOne(r[0], r[1], r[2], r[3], r[4], rest);
    FindCons(r[0], [r[1]] + ([r[2]] + ([r[3]] + ([r[4]] + rest))), kind, subtype);
    FindCons(r[1], [r[2]] + ([r[3]] + ([r[4]] + rest)), kind, subtype);
    FindCons(r[2], [r[3]] + ([r[4]] + rest), kind, subtype);
    FindCons(r[3], [r[4]] + rest, kind, subtype);
    FindCons(r[4], rest, kind, subtype);
  }

  lemma {:induction false} FindInAll(vs: seq<Vector>, rest: seq<TlvVector>, kind: uint8, subtype: uint8)
    requires Short(vs) && AllComplete(vs) && IsGetter(kind, subtype)
    ensures Find(ReceivedAll(vs) + rest, kind, subtype) ==
            if FirstSent(vs, kind).Some? then Found(FirstSent(vs, kind).value) else Find(rest, kind, subtype)
  {
    hide Find, Received, Sent, IsGetter;
    if vs == [] {
      assert ReceivedAll(vs) + rest == rest;
    } else {
      assert ReceivedAll(vs) + rest == Received(vs[0]) + (ReceivedAll(vs[1..]) + rest);
      FindInOne(vs[0], ReceivedAll(vs[1..]) + rest, kind, subtype);
      FindInAll(vs[1..], rest, kind, subtype);
    }
  }

  /** A getter on a created and parsed header finds what the sender put into the first vector of its
      kind that arrived, and nothing if there is none; the one for the checksum finds the last four bytes
      of a header that has one. */
  lemma GettersFindWhatWasSent(inet: Inet, sent: Info, vs: seq<Vector>, payload: seq<uint8>, kind: uint8,
        subtype: uint8)
    requires Sendable(inet, sent, vs) && sent.family != ADDR_FAMILY_UNIX && IsGetter(kind, subtype)
    requires NoEmptyAws(vs) && AllComplete(vs) && !CopiesBehind(sent, vs, payload)
    ensures var h := Created(inet, sent, vs);
            var parsed := Parse(inet, h + payload, CLEARED);
            && parsed.outcome == Length(|h|) && |h| >= 4
            && Find(parsed.info.tlvs, kind, subtype) ==
               if kind == TYPE_CRC32C then if sent.crc32c then Found(h[|h| - 4..]) else Missing(0)
               else
                 match FirstSent(Arriving(sent, vs), kind)
                 case Some(b) => Found(b)
                 case None => Missing(0)
  {
    hide Find, GotFrom, Arriving, IsGetter, FirstSent, ReceivedAll, Fits, Short, Parse, CopiesBehind, Created;
    RoundTrip(inet, sent, vs, payload);
    var rest := GotParts(inet, sent, vs);
    ArrivingIsComplete(sent, vs);
    FindInAll(Arriving(sent, vs), rest, kind, subtype);
    ChecksumIsNotSent(Arriving(sent, vs));
    InChecksum(rest, kind, subtype);
  }

  lemma {:induction false} ChecksumIsNotSent(vs: seq<Vector>)
    ensures FirstSent(vs, TYPE_CRC32C) == None
  {
    if vs != [] {
      ChecksumIsNotSent(vs[1..]);
    }
  }

  lemma ArrivingIsComplete(sent: Info, vs: seq<Vector>)
    requires Short(vs) && AllComplete(vs)
    ensures Short(Arriving(sent, vs)) && AllComplete(Arriving(sent, vs))
  {
  }

  /** For AF_UNIX the getters find nothing, whatever was sent. */
  lemma GettersFindNothingForUnix(inet: Inet, sent: Info, vs: seq<Vector>, payload: seq<uint8>, kind: uint8,
        subtype: uint8)
    requires Sendable(inet, sent, vs) && sent.family == ADDR_FAMILY_UNIX
    ensures var parsed := Parse(inet, Created(inet, sent, vs) + payload, CLEARED);
            parsed.outcome == Length(|Created(inet, sent, vs)|) && Find(parsed.info.tlvs, kind, subtype) == Missing(0)
  {
    hide Parse, Created;
    UnixRoundTrip(inet, sent, vs, payload);
  }

  /** With an empty AWS identifier at `i` the parse fails there, and the getters find what came before. */
  lemma GettersBeforeRefusal(inet: Inet, sent: Info, vs: seq<Vector>, i: nat, payload: seq<uint8>, kind: uint8,
        subtype: uint8)
    requires Sendable(inet, sent, vs) && sent.family != ADDR_FAMILY_UNIX && IsGetter(kind, subtype) && AllComplete(vs)
    requires i < |vs| && IsEmptyAws(vs[i]) && NoEmptyAws(vs[..i])
    ensures var parsed := Parse(inet, Created(inet, sent, vs) + payload, CLEARED);
            && parsed.outcome == Error(-ERR_PP2_TYPE_AWS)
            && Find(parsed.info.tlvs, kind, subtype) ==
               match FirstSent(vs[..i], kind)
               case Some(b) => Found(b)
               case None => Missing(0)
  {
    hide Find, IsGetter, FirstSent, Parse, Created;
    StopsAtEmptyAws(inet, sent, vs, i, payload);
    FindInAll(vs[..i], [], kind, subtype);
    InChecksum([], kind, subtype);
    assert [] + ReceivedAll(vs[..i]) == ReceivedAll(vs[..i]) + [];
  }

  lemma AfterTlvs(inet: Inet, sent: Info, vs: seq<Vector>)
    requires Short(vs)
    ensures After(Seen(inet, sent), vs).tlvs == ReceivedAll(vs)
  {
    hide ReceivedAll, FlagsAfterAll, SeenText;
  }

  /** What was received, and then at most the checksum. */
  lemma GotParts(inet: Inet, sent: Info, vs: seq<Vector>) returns (rest: seq<TlvVector>)
    requires Sendable(inet, sent, vs)
    ensures Short(Arriving(sent, vs)) && Got(inet, sent, vs).tlvs == ReceivedAll(Arriving(sent, vs)) + rest
    ensures var h := Created(inet, sent, vs);
            |h| >= 4 && rest == if sent.crc32c then [Tlv(TYPE_CRC32C, h[|h| - 4..])] else []
  {
    ArrivingIsShort(sent, vs);
    HeaderSize(inet, sent, vs);
    hide Created, Fits, Short, ReceivedAll, Arriving, After, Seen, AddressBlock;
    AfterTlvs(inet, sent, Arriving(sent, vs));
    var h := Created(inet, sent, vs);
    rest := if sent.crc32c then [Tlv(TYPE_CRC32C, h[|h| - 4..])] else [];
  }

  lemma ArrivingIsShort(sent: Info, vs: seq<Vector>)
    requires Short(vs)
    ensures Short(Arriving(sent, vs))
  {
  }

  lemma InChecksum(rest: seq<TlvVector>, kind: uint8, subtype: uint8)
    requires IsGetter(kind, subtype) && (rest == [] || (|rest| == 1 && rest[0].kind == TYPE_CRC32C))
    ensures Find(rest, kind, subtype) ==
            if kind == TYPE_CRC32C && rest != [] then Found(rest[0].value) else Missing(0)
  {
  }
}
