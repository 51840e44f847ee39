/** The vectors a caller adds to a `pp_info_t` before creating a version 2 header, what each of
    them becomes in the TLV array, and what the parser will hand out for it
    (asio_server/proxy_protocol.cpp:275-368). */
module ProxyVectors {
  import opened MachineTypes
  import opened ProxyInfo
  import opened Memory

  /** One call of a `pp_info_add_*` function. A C string is the bytes before its NUL. */
  datatype Vector =
    | Alpn(alpn: seq<uint8>)
    | Authority(hostName: seq<uint8>)
    | UniqueId(id: seq<uint8>)
    | Netns(netns: seq<uint8>)
    | AwsVpce(vpceId: seq<uint8>)
    | AzureLink(linkid: seq<uint8>)
    | Ssl(flags: SslInfo, version: seq<uint8>, cipher: seq<uint8>, sigAlg: seq<uint8>, keyAlg: seq<uint8>,
          cn: seq<uint8>, heap: seq<uint8>)

  /** The `<client>` bit field of line 310: the session bit repeats the connection bit. */
  function ClientByte(flags: SslInfo): uint8 {
    (if flags.ssl then 1 else 0) + (if flags.certInConnection then 2 + 4 else 0)
  }

  /** `pp_info_add_subtype_ssl` (lines 294-305): an empty sub-vector is not written. */
  function SubVector(kind: uint8, value: seq<uint8>): seq<uint8>
    requires |value| < 0x1_0000
  {
    if value == [] then [] else TlvBytes(Tlv(kind, value))
  }

  function SslLength(version: seq<uint8>, cipher: seq<uint8>, sigAlg: seq<uint8>, keyAlg: seq<uint8>,
          cn: seq<uint8>): nat {
    1 + 4 + 3 + |version| + 3 + |cipher| + 3 + |sigAlg| + 3 + |keyAlg| + 3 + |cn|
  }

  /** The bytes `pp_info_add_ssl` writes into its buffer (lines 328-337). */
  function SslWritten(flags: SslInfo, version: seq<uint8>, cipher: seq<uint8>, sigAlg: seq<uint8>,
          keyAlg: seq<uint8>, cn: seq<uint8>): seq<uint8>
    requires SslLength(version, cipher, sigAlg, keyAlg, cn) < 0x1_0000
  {
    [ClientByte(flags), if flags.certVerified then 0 else 1, 0, 0, 0] +
    SubVector(SUBTYPE_SSL_VERSION, version) +
    SubVector(SUBTYPE_SSL_CIPHER, cipher) +
    SubVector(SUBTYPE_SSL_SIG_ALG, sigAlg) +
    SubVector(SUBTYPE_SSL_KEY_ALG, keyAlg) +
    SubVector(SUBTYPE_SSL_CN, cn)
  }

  /** The value is `SslLength` bytes long although empty sub-vectors were skipped: its tail is
      whatever the heap block held (`junk`). */
  function SslValue(written: seq<uint8>, length: nat, junk: seq<uint8>): seq<uint8>
    requires |written| <= length <= |junk|
  {
    written + junk[|written|..length]
  }

  lemma SslWrittenLength(flags: SslInfo, version: seq<uint8>, cipher: seq<uint8>, sigAlg: seq<uint8>,
          keyAlg: seq<uint8>, cn: seq<uint8>)
    requires SslLength(version, cipher, sigAlg, keyAlg, cn) < 0x1_0000
    ensures var written, reserved := |SslWritten(flags, version, cipher, sigAlg, keyAlg, cn)|,
          SslLength(version, cipher, sigAlg, keyAlg, cn);
            written == reserved || 5 <= written <= reserved - 3
    ensures |SslWritten(flags, version, cipher, sigAlg, keyAlg, cn)| == SslLength(version, cipher, sigAlg, keyAlg,
          cn) <==>
            version != [] && cipher != [] && sigAlg != [] && keyAlg != [] && cn != []
  {
  }

  /** The vectors that the `pp_info_add_*` functions accept. `heap` is what the block that
      `pp_info_add_ssl` allocates holds at first. */
  ghost predicate Addable(v: Vector) {
    match v
    case Alpn(b) => |b| < 0x1_0000
    case Authority(b) => |b| < 0x1_0000
    case UniqueId(b) => |b| <= 128
    case Netns(b) => |b| < 0x1_0000
    case AwsVpce(b) => |b| < 0xFFFF
    case AzureLink(b) => |b| == 4
    case Ssl(_, version, cipher, sigAlg, keyAlg, cn, heap) =>
      |heap| == SslLength(version, cipher, sigAlg, keyAlg, cn) < 0x1_0000
  }

  /** All five fields of an SSL vector are there. */
  predicate IsComplete(v: Vector) {
    v.Ssl? ==> v.version != [] && v.cipher != [] && v.sigAlg != [] && v.keyAlg != [] && v.cn != []
  }

  /** What is appended to the TLV array. */
  ghost function Added(v: Vector): (t: TlvVector)
    requires Addable(v)
  {
    match v
    case Alpn(b) => Tlv(TYPE_ALPN, b)
    case Authority(b) => Tlv(TYPE_AUTHORITY, b)
    case UniqueId(b) => Tlv(TYPE_UNIQUE_ID, b)
    case Netns(b) => Tlv(TYPE_NETNS, b)
    case AwsVpce(b) => Tlv(TYPE_AWS, [0x01] + b)
    case AzureLink(b) => Tlv(TYPE_AZURE, [0x01] + b)
    case Ssl(flags, version, cipher, sigAlg, keyAlg, cn, heap) =>
      SslWrittenLength(flags, version, cipher, sigAlg, keyAlg, cn);
      Tlv(TYPE_SSL, SslValue(SslWritten(flags, version, cipher, sigAlg, keyAlg, cn), |heap|, heap))
  }

  ghost function AddedAll(vs: seq<Vector>): (ts: seq<TlvVector>)
    requires forall v :: v in vs ==> Addable(v)
    ensures |ts| == |vs|
  {
    if vs == [] then [] else [Added(vs[0])] + AddedAll(vs[1..])
  }

  /** One sub-vector as a reader should find it: ASCII values gain a NUL. */
  function SubReceived(kind: uint8, value: seq<uint8>): seq<TlvVector>
    requires |value| < 0xFFFF
  {
    if value == [] then [] else [Tlv(kind, if kind == SUBTYPE_SSL_CN then value else value + [0])]
  }

  /** What a reader should find in the TLV array after parsing: ASCII values gain a NUL, and an SSL
      vector is replaced by its sub-vectors. */
  ghost function Received(v: Vector): seq<TlvVector>
    requires Addable(v) && |Added(v).value| < 0xFFFD
  {
    match v
    case Netns(b) => [Tlv(TYPE_NETNS, b + [0])]
    case AwsVpce(b) => [Tlv(TYPE_AWS, [0x01] + b + [0])]
    case Ssl(_, version, cipher, sigAlg, keyAlg, cn, _) =>
      SubReceived(SUBTYPE_SSL_VERSION, version) + SubReceived(SUBTYPE_SSL_CIPHER, cipher) +
      SubReceived(SUBTYPE_SSL_SIG_ALG, sigAlg) + SubReceived(SUBTYPE_SSL_KEY_ALG, keyAlg) +
      SubReceived(SUBTYPE_SSL_CN, cn)
    case _ => [Added(v)]
  }

  ghost function ReceivedAll(vs: seq<Vector>): seq<TlvVector>
    requires forall v :: v in vs ==> Addable(v) && |Added(v).value| < 0xFFFD
  {
    if vs == [] then [] else Received(vs[0]) + ReceivedAll(vs[1..])
  }

  /** The SSL flags a reader finds: the session flag is the connection flag. */
  function SeenFlags(flags: SslInfo): SslInfo {
    SslInfo(flags.ssl, flags.certInConnection, flags.certInConnection, flags.certVerified)
  }

  function FlagsAfter(v: Vector, flags: SslInfo): SslInfo {
    if v.Ssl? then SeenFlags(v.flags) else flags
  }

  function FlagsAfterAll(vs: seq<Vector>, flags: SslInfo): SslInfo {
    if vs == [] then flags else FlagsAfterAll(vs[1..], FlagsAfter(vs[0], flags))
  }

  /** `pp_info_t`, as the `pp_info_add_*` functions and the parser change it. */
  class PpInfo {
    var family: uint8
    var transport: uint8
    var src: seq<uint8>
    var dst: seq<uint8>
    var srcPort: uint16
    var dstPort: uint16
    var local: bool
    var alignmentPower: uint8
    var ssl: SslInfo
    var crc32c: bool
    const tlvArray: TlvArray

    ghost predicate Valid()
      reads this, tlvArray
    {
      tlvArray.Valid()
    }

    ghost function Value(): Info
      requires Valid()
      reads this, tlvArray, tlvArray.tlvs
    {
      Info(family, transport, src, dst, srcPort, dstPort, local, alignmentPower, ssl, tlvArray.Contents(), crc32c)
    }

    /** A cleared structure. */
    constructor ()
      ensures Valid() && Value() == CLEARED
      ensures fresh(tlvArray) && tlvArray.tlvs == null
    {
      family, transport, src, dst, srcPort, dstPort := 0, 0, [], [], 0, 0;
      local, alignmentPower, ssl, crc32c := false, 0, NO_SSL, false;
      tlvArray := new TlvArray();
    }

    /** `memset(pp_info, 0, sizeof(*pp_info))`: an array it pointed to is forgotten, not freed. */
    method Clear()
      modifies this, tlvArray
      ensures Valid() && Value() == CLEARED && tlvArray.tlvs == null
    {
      family, transport, src, dst, srcPort, dstPort := 0, 0, [], [], 0, 0;
      local, alignmentPower, ssl, crc32c := false, 0, NO_SSL, false;
      tlvArray.Forget();
    }

    method AppendNew(kind: uint8, value: seq<uint8>)
      requires Valid() && |value| < 0x1_0000
      modifies tlvArray, tlvArray.tlvs
      ensures Valid() && Value() == old(Value()).(tlvs := old(Value()).tlvs + [Tlv(kind, value)])
      ensures tlvArray.tlvs == old(tlvArray.tlvs) || fresh(tlvArray.tlvs)
    {
      tlvArray.Append(Tlv(kind, value));
    }

    method AddAlpn(alpn: seq<uint8>)
      requires Valid() && Addable(Alpn(alpn))
      modifies tlvArray, tlvArray.tlvs
      ensures Valid() && Value() == old(Value()).(tlvs := old(Value()).tlvs + [Added(Alpn(alpn))])
    {
      AppendNew(TYPE_ALPN, alpn);
    }

    method AddAuthority(hostName: seq<uint8>)
      requires Valid() && Addable(Authority(hostName))
      modifies tlvArray, tlvArray.tlvs
      ensures Valid() && Value() == old(Value()).(tlvs := old(Value()).tlvs + [Added(Authority(hostName))])
    {
      AppendNew(TYPE_AUTHORITY, hostName);
    }

    /** Longer identifiers are refused and nothing changes. */
    method AddUniqueId(id: seq<uint8>) returns (ok: bool)
      requires Valid()
      modifies tlvArray, tlvArray.tlvs
      ensures Valid() && ok == Addable(UniqueId(id)) == (|id| <= 128)
      ensures Value() == if ok then old(Value()).(tlvs := old(Value()).tlvs + [Added(UniqueId(id))]) else old(Value())
    {
      if |id| > 128 {
        return false;
      }
      AppendNew(TYPE_UNIQUE_ID, id);
      ok := true;
    }

    /** The length is cut to 16 bits (line 345), so a longer name keeps only that many bytes of its front. */
    method AddNetns(netns: seq<uint8>)
      requires Valid()
      modifies tlvArray, tlvArray.tlvs
      ensures Valid()
      ensures Value() == old(Value()).(tlvs := old(Value()).tlvs + [Added(Netns(netns[..U16(|netns|)]))])
      ensures |netns| < 0x1_0000 ==> netns[..U16(|netns|)] == netns
    {
      AppendNew(TYPE_NETNS, netns[..U16(|netns|)]);
    }

    method AddAwsVpceId(vpceId: seq<uint8>)
      requires Valid() && Addable(AwsVpce(vpceId))
      modifies tlvArray, tlvArray.tlvs
      ensures Valid() && Value() == old(Value()).(tlvs := old(Value()).tlvs + [Added(AwsVpce(vpceId))])
    {
      AppendNew(TYPE_AWS, [0x01] + vpceId);
    }

    method AddAzureLinkid(linkid: seq<uint8>)
      requires Valid() && Addable(AzureLink(linkid))
      modifies tlvArray, tlvArray.tlvs
      ensures Valid() && Value() == old(Value()).(tlvs := old(Value()).tlvs + [Added(AzureLink(linkid))])
    {
      AppendNew(TYPE_AZURE, [0x01] + linkid);
    }

    /** The block up to `index` holds `written`, the rest is still as allocated. */
    static ghost predicate Filled(value: array<uint8>, index: nat, written: seq<uint8>, junk: seq<uint8>)
      reads value
    {
      value.Length == |junk| && index <= |junk| && value[..index] == written && value[index..] == junk[index..]
    }

    /** `pp_info_add_subtype_ssl`: writes at `index` and moves it on. */
    static method AddSubtypeSsl(value: array<uint8>, index: nat, kind: uint8, sub: seq<uint8>,
            ghost written: seq<uint8>, ghost junk: seq<uint8>)
        returns (index': nat)
      requires |sub| < 0x1_0000 && index + 3 + |sub| <= value.Length && Filled(value, index, written, junk)
      modifies value
      ensures index' == index + |SubVector(kind, sub)| <= index + 3 + |sub|
      ensures Filled(value, index', written + SubVector(kind, sub), junk)
    {
      index' := index;
      if |sub| == 0 {
        return;
      }
      ghost var head := [kind, |sub| / 256, |sub| % 256];
      Memcpy(value, index, [kind, |sub| / 256, |sub| % 256]);
      assert value[index + 3..] == junk[index + 3..] by { assert junk[index + 3..] == junk[index..][3..]; }
      Memcpy(value, index + 3, sub);
      index' := index + 3 + |sub|;
      assert value[index'..] == junk[index'..] by { assert junk[index'..] == junk[index + 3..][|sub|..]; }
      assert SubVector(kind, sub) == head + sub;
      assert written + head + sub == written + (head + sub);
    }

    /** `pp_info_add_ssl` (lines 307-341); `heap` is what the allocated block holds at first. */
    method AddSsl(version: seq<uint8>, cipher: seq<uint8>, sigAlg: seq<uint8>, keyAlg: seq<uint8>, cn: seq<uint8>,
                  heap: seq<uint8>)
        returns (ok: bool)
      requires Valid() && |heap| == SslLength(version, cipher, sigAlg, keyAlg, cn)
      modifies tlvArray, tlvArray.tlvs
      ensures Valid() && ok == (|heap| < 0x1_0000)
      ensures ok == Addable(Ssl(ssl, version, cipher, sigAlg, keyAlg, cn, heap))
      ensures Value() ==
              if !ok then old(Value())
              else old(Value()).(tlvs := old(Value()).tlvs
                    + [Added(Ssl(ssl, version, cipher, sigAlg, keyAlg, cn, heap))])
    {
      if SslLength(version, cipher, sigAlg, keyAlg, cn) > 0xFFFF {
        return false;
      }
      var value := FillSsl(ssl, version, cipher, sigAlg, keyAlg, cn, heap);
      SslWrittenLength(ssl, version, cipher, sigAlg, keyAlg, cn);
      AppendNew(TYPE_SSL, value[..]);
      ok := true;
    }

    static lemma FilledIsValue(value: array<uint8>, index: nat, written: seq<uint8>, junk: seq<uint8>)
      requires Filled(value, index, written, junk)
      ensures |written| <= |junk| && value[..] == SslValue(written, |junk|, junk)
    {
      assert value[..] == value[..index] + value[index..];
    }

    static lemma WrittenInParts(flags: SslInfo, version: seq<uint8>, cipher: seq<uint8>, sigAlg: seq<uint8>,
            keyAlg: seq<uint8>, cn: seq<uint8>)
      requires SslLength(version, cipher, sigAlg, keyAlg, cn) < 0x1_0000
      ensures SslWritten(flags, version, cipher, sigAlg, keyAlg, cn) ==
              [ClientByte(flags), if flags.certVerified then 0 else 1, 0, 0, 0] +
              SubVector(SUBTYPE_SSL_VERSION, version) + SubVector(SUBTYPE_SSL_CIPHER, cipher) +
              SubVector(SUBTYPE_SSL_SIG_ALG, sigAlg) + SubVector(SUBTYPE_SSL_KEY_ALG, keyAlg) +
              SubVector(SUBTYPE_SSL_CN, cn)
    {
      hide SubVector;
    }

    static method FillSsl(flags: SslInfo, version: seq<uint8>, cipher: seq<uint8>, sigAlg: seq<uint8>,
            keyAlg: seq<uint8>, cn: seq<uint8>, junk: seq<uint8>)
        returns (value: array<uint8>)
      requires |junk| == SslLength(version, cipher, sigAlg, keyAlg, cn) < 0x1_0000
      ensures var written := SslWritten(flags, version, cipher, sigAlg, keyAlg, cn);
              |written| <= |junk| && value[..] == SslValue(written, |junk|, junk)
      ensures fresh(value)
    {
      hide SubVector, ClientByte, SslValue, SslWritten;
      value := new uint8[|junk|](i requires 0 <= i < |junk| => junk[i]);
      assert value[..] == junk;
      ghost var w0 := [ClientByte(flags), if flags.certVerified then 0 else 1, 0, 0, 0];
      Memcpy(value, 0, [ClientByte(flags), if flags.certVerified then 0 else 1, 0, 0, 0]);
      assert Filled(value, 5, w0, junk);
      hide Filled;
      var index := AddSubtypeSsl(value, 5, SUBTYPE_SSL_VERSION, version, w0, junk);
      ghost var w1 := w0 + SubVector(SUBTYPE_SSL_VERSION, version);
      index := AddSubtypeSsl(value, index, SUBTYPE_SSL_CIPHER, cipher, w1, junk);
      ghost var w2 := w1 + SubVector(SUBTYPE_SSL_CIPHER, cipher);
      index := AddSubtypeSsl(value, index, SUBTYPE_SSL_SIG_ALG, sigAlg, w2, junk);
      ghost var w3 := w2 + SubVector(SUBTYPE_SSL_SIG_ALG, sigAlg);
      index := AddSubtypeSsl(value, index, SUBTYPE_SSL_KEY_ALG, keyAlg, w3, junk);
      ghost var w4 := w3 + SubVector(SUBTYPE_SSL_KEY_ALG, keyAlg);
      index := AddSubtypeSsl(value, index, SUBTYPE_SSL_CN, cn, w4, junk);
      WrittenInParts(flags, version, cipher, sigAlg, keyAlg, cn);
      FilledIsValue(value, index, SslWritten(flags, version, cipher, sigAlg, keyAlg, cn), junk);
    }
  }
}
