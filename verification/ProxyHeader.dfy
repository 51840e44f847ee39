/** The entry points `pp_create_hdr` and `pp_parse_hdr` (asio_server/proxy_protocol.cpp:790-806, 1262-1277):
    which parser sees a buffer, and that created headers reach their own parser. */
module ProxyHeader {
  import opened MachineTypes
  import opened ProxyInfo
  import opened ProxyVectors
  import V1 = ProxyV1
  import V2Create = ProxyV2Create
  import V2 = ProxyV2Parse

  datatype Parsed =
    | Version1(v1: V1.Parsed)
    | Version2(v2: V2.Parsed)
    | NoHeader

  /** Which parser sees a buffer. */
  function Parse(inet: Inet, buf: seq<uint8>): Parsed {
    if |buf| >= 16 && buf[..12] == V2Create.PP2_SIG then Version2(V2.Parse(inet, buf, CLEARED))
    else if |buf| >= 8 && buf[..5] == V1.PROXY then Version1(V1.Parse(inet, buf, CLEARED))
    else NoHeader
  }

  /** The signature of version 2, with room for the fixed part. */
  predicate IsVersion2(buf: seq<uint8>) {
    |buf| >= 16 && buf[..12] == [0x0D, 0x0A, 0x0D, 0x0A, 0x00, 0x0D, 0x0A, 0x51, 0x55, 0x49, 0x54, 0x0A]
  }

  /** "PROXY", with three bytes behind it. */
  predicate IsVersion1(buf: seq<uint8>) {
    |buf| >= 8 && buf[..5] == [0x50, 0x52, 0x4F, 0x58, 0x59]
  }

  /** A buffer is read by the parser of its signature, and by none exactly when it has neither. */
  lemma ParserChosenExactly(inet: Inet, buf: seq<uint8>)
    ensures Parse(inet, buf).Version2? <==> IsVersion2(buf)
    ensures Parse(inet, buf).Version1? <==> IsVersion1(buf)
    ensures Parse(inet, buf) == NoHeader <==> !IsVersion2(buf) && !IsVersion1(buf)
  {
    hide V1.Parse, V2.Parse;
    assert |buf| >= 16 ==> buf[..12][0] == buf[..5][0];
  }

  /** The result of the method below. */
  datatype Outcome = Outcome1(o1: V1.Outcome) | Outcome2(o2: V2.Outcome) | Zero

  /** `pp_parse_hdr`. */
  method ParseHdr(inet: Inet, buffer: array<uint8>, info: PpInfo) returns (outcome: Outcome)
    modifies buffer, info, info.tlvArray
    ensures info.Valid()
    ensures match Parse(inet, old(buffer[..]))
            case Version1(p) => outcome == Outcome1(p.outcome) && info.Value() == p.info
                  && buffer[..] == old(buffer[..])
            case Version2(p) => outcome == Outcome2(p.outcome) && info.Value() == p.info && buffer[..] == p.buf
            case NoHeader => outcome == Zero && info.Value() == CLEARED && buffer[..] == old(buffer[..])
    ensures outcome == Zero <==> !IsVersion2(old(buffer[..])) && !IsVersion1(old(buffer[..]))
    ensures outcome == Zero ==> info.Value() == CLEARED && buffer[..] == old(buffer[..])
  {
    ParserChosenExactly(inet, buffer[..]);
    hide V1.Parse, V2.Parse;
    info.Clear();
    if buffer.Length >= 16 && buffer[..12] == V2Create.PP2_SIG {
      assert buffer[..][..12] == buffer[..12];
      var o := V2.ParseHdr(inet, buffer, info);
      outcome := Outcome2(o);
    } else if buffer.Length >= 8 && buffer[..5] == V1.PROXY {
      assert buffer[..][..5] == buffer[..5];
      assert buffer.Length >= 16 ==> buffer[..][..12] == buffer[..12];
      var o := V1.ParseHdr(inet, buffer, info);
      outcome := Outcome1(o);
    } else {
      assert buffer.Length >= 16 ==> buffer[..][..12] == buffer[..12];
      assert buffer.Length >= 8 ==> buffer[..][..5] == buffer[..5];
      outcome := Zero;
    }
  }

  // ---------- creating ----------

  ghost function Create(version: uint8, inet: Inet, info: Info): V2Create.Creation
    requires inet.Valid()
  {
    if version == 2 then
      V2Create.Create(inet, info)
    else if version == 1 then
      match V1.Created(info)
      case Success(line) => V2Create.Made(line)
      case Failure(error) => V2Create.Rejected(error)
    else
      V2Create.Rejected(ERR_PP_VERSION)
  }

  /** `pp_create_hdr`. */
  method CreateHdr(version: uint8, inet: Inet, info: PpInfo) returns (r: V2Create.Creation)
    requires inet.Valid() && info.Valid()
    ensures r == Create(version, inet, info.Value())
  {
    hide V1.Created, V2Create.Create;
    if version == 2 {
      r := V2Create.CreateHdr(inet, info);
    } else if version == 1 {
      var line := V1.CreateHdr(info);
      r := if line.Success? then V2Create.Made(line.value) else V2Create.Rejected(line.error);
    } else {
      r := V2Create.Rejected(ERR_PP_VERSION);
    }
  }

  /** Whatever is created is recognised as a header of its version, by any reader and with anything behind
      it, and read by the parser of that version. */
  lemma CreatedIsRecognised(version: uint8, inet: Inet, info: Info, reader: Inet, payload: seq<uint8>)
    requires inet.Valid() && Create(version, inet, info).Made?
    ensures var buf := Create(version, inet, info).hdr + payload;
            if version == 2 then |buf| >= 16 && Parse(reader, buf) == Version2(V2.Parse(reader, buf, CLEARED))
            else version == 1 && Parse(reader, buf) == Version1(V1.Parse(reader, buf, CLEARED))
  {
    hide V1.Created, V2Create.Create, V1.Parse, V2.Parse;
    if version == 2 {
      Version2IsRecognised(inet, info, reader, payload);
    } else {
      Version1IsRecognised(info, reader, payload);
    }
  }

  lemma Version2IsRecognised(inet: Inet, info: Info, reader: Inet, payload: seq<uint8>)
    requires inet.Valid() && V2Create.Create(inet, info).Made?
    ensures var buf := V2Create.Create(inet, info).hdr + payload;
            |buf| >= 16 && Parse(reader, buf) == Version2(V2.Parse(reader, buf, CLEARED))
  {
    hide V1.Parse, V2.Parse;
    var addr := V2Create.AddressBlock(inet, info).value;
    V2Create.AddressBlockKnown(inet, info);
    V2Create.WrittenStart(addr, info);
    var h := V2Create.Written(addr, info);
    assert (h + payload)[..12] == h[..12];
  }

  lemma Version1IsRecognised(info: Info, reader: Inet, payload: seq<uint8>)
    requires V1.Created(info).Success?
    ensures var buf := V1.Created(info).value + payload;
            Parse(reader, buf) == Version1(V1.Parse(reader, buf, CLEARED))
  {
    hide V1.Parse, V2.Parse, V1.Decimal;
    var line := V1.Created(info).value;
    assert line[..5] == V1.PROXY && |line| >= 8;
    var buf := line + payload;
    assert buf[..5] == line[..5];
    assert |buf| >= 16 ==> buf[..12][0] == 0x50;
  }
}
