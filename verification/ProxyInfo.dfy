/** The data of a PROXY protocol header: `pp_info_t`, its TLV vectors and the error codes
    (asio_server/proxy_protocol.h, asio_server/proxy_protocol.cpp). */
module ProxyInfo {
  import opened MachineTypes
  import opened Wrappers

  // Error codes, in the order of the enumeration.
  const ERR_PP_VERSION := 1
  const ERR_PP2_VERSION := 3
  const ERR_PP2_CMD := 4
  const ERR_PP2_ADDR_FAMILY := 5
  const ERR_PP2_TRANSPORT_PROTOCOL := 6
  const ERR_PP2_LENGTH := 7
  const ERR_PP2_IPV4_SRC_IP := 8
  const ERR_PP2_IPV4_DST_IP := 9
  const ERR_PP2_IPV6_SRC_IP := 10
  const ERR_PP2_IPV6_DST_IP := 11
  const ERR_PP2_TLV_LENGTH := 12
  const ERR_PP2_TYPE_CRC32C := 13
  const ERR_PP2_TYPE_SSL := 14
  const ERR_PP2_TYPE_UNIQUE_ID := 15
  const ERR_PP2_TYPE_AWS := 16
  const ERR_PP2_TYPE_AZURE := 17
  const ERR_PP1_CRLF := 18
  const ERR_PP1_PROXY := 19
  const ERR_PP1_SPACE := 20
  const ERR_PP1_TRANSPORT_FAMILY := 21
  const ERR_PP1_IPV4_SRC_IP := 22
  const ERR_PP1_IPV4_DST_IP := 23
  const ERR_PP1_IPV6_SRC_IP := 24
  const ERR_PP1_IPV6_DST_IP := 25
  const ERR_PP1_SRC_PORT := 26
  const ERR_PP1_DST_PORT := 27

  const ADDR_FAMILY_UNSPEC: uint8 := 0
  const ADDR_FAMILY_INET: uint8 := 1
  const ADDR_FAMILY_INET6: uint8 := 2
  const ADDR_FAMILY_UNIX: uint8 := 3

  const TRANSPORT_PROTOCOL_UNSPEC: uint8 := 0
  const TRANSPORT_PROTOCOL_STREAM: uint8 := 1
  const TRANSPORT_PROTOCOL_DGRAM: uint8 := 2

  const TYPE_ALPN: uint8 := 0x01
  const TYPE_AUTHORITY: uint8 := 0x02
  const TYPE_CRC32C: uint8 := 0x03
  const TYPE_NOOP: uint8 := 0x04
  const TYPE_UNIQUE_ID: uint8 := 0x05
  const TYPE_SSL: uint8 := 0x20
  const SUBTYPE_SSL_VERSION: uint8 := 0x21
  const SUBTYPE_SSL_CN: uint8 := 0x22
  const SUBTYPE_SSL_CIPHER: uint8 := 0x23
  const SUBTYPE_SSL_SIG_ALG: uint8 := 0x24
  const SUBTYPE_SSL_KEY_ALG: uint8 := 0x25
  const TYPE_NETNS: uint8 := 0x30
  const TYPE_AWS: uint8 := 0xEA
  const TYPE_AZURE: uint8 := 0xEE

  /** A type-length-value vector; the two length bytes are `|value|`. */
  datatype TlvRecord = Tlv(kind: uint8, value: seq<uint8>)
  type TlvVector = t: TlvRecord | |t.value| < 0x1_0000 witness Tlv(0, [])

  function TlvBytes(t: TlvVector): seq<uint8> {
    [t.kind, |t.value| / 256, |t.value| % 256] + t.value
  }

  datatype SslInfo = SslInfo(ssl: bool, certInConnection: bool, certInSession: bool, certVerified: bool)

  /** The value of a `pp_info_t`. Address fields hold their text, or the 108 raw bytes for AF_UNIX. */
  datatype Info = Info(
    family: uint8,
    transport: uint8,
    src: seq<uint8>,
    dst: seq<uint8>,
    srcPort: uint16,
    dstPort: uint16,
    local: bool,
    alignmentPower: uint8,
    ssl: SslInfo,
    tlvs: seq<TlvVector>,
    crc32c: bool
  )

  const NO_SSL := SslInfo(false, false, false, false)

  /** What `memset(pp_info, 0, ...)` leaves. */
  const CLEARED := Info(0, 0, [], [], 0, 0, false, 0, NO_SSL, [], false)

  /** `inet_pton` and `inet_ntop`, which the repository takes from the system. */
  datatype Inet = Inet(
    pton4: seq<uint8> -> Option<seq<uint8>>,
    ntop4: seq<uint8> -> Option<seq<uint8>>,
    pton6: seq<uint8> -> Option<seq<uint8>>,
    ntop6: seq<uint8> -> Option<seq<uint8>>
  ) {
    /** Texts stand for 4 or 16 octets, and every group of octets has a text that stands for it. */
    ghost predicate Valid() {
      && (forall t :: pton4(t).Some? ==> |pton4(t).value| == 4)
      && (forall t :: pton6(t).Some? ==> |pton6(t).value| == 16)
      && (forall b :: |b| == 4 ==> ntop4(b).Some? && pton4(ntop4(b).value) == Some(b))
      && (forall b :: |b| == 16 ==> ntop6(b).Some? && pton6(ntop6(b).value) == Some(b))
    }
  }

  /** `tlv_array_t`: a growing array of pointers to vectors. */
  class TlvArray {
    var len: nat
    var size: nat
    var tlvs: array?<TlvVector>

    ghost predicate Valid()
      reads this
    {
      if tlvs == null then len == 0 else tlvs.Length == size && len <= size
    }

    ghost function Contents(): seq<TlvVector>
      requires Valid()
      reads this, tlvs
    {
      if tlvs == null then [] else tlvs[..len]
    }

    constructor ()
      ensures Valid() && Contents() == [] && tlvs == null
    {
      len, size, tlvs := 0, 0, null;
    }

    /** Cleared in place: the vectors are forgotten, not freed. */
    method Forget()
      modifies this
      ensures Valid() && Contents() == [] && tlvs == null
    {
      len, size, tlvs := 0, 0, null;
    }

    /** `tlv_array_append_tlv` (lines 225-252): 10 slots at first, 5 more whenever it is full. */
    method Append(t: TlvVector)
      requires Valid()
      modifies this, tlvs
      ensures Valid() && Contents() == old(Contents()) + [t]
      ensures tlvs == old(tlvs) || fresh(tlvs)
    {
      if tlvs == null {
        len, size := 0, 10;
        tlvs := new TlvVector[10](_ => Tlv(0, []));
      }
      if size == len {
        size := size + 5;
        var bigger := new TlvVector[size](_ => Tlv(0, []));
        forall i | 0 <= i < len {
          bigger[i] := tlvs[i];
        }
        tlvs := bigger;
      }
      len := len + 1;
      tlvs[len - 1] := t;
      assert tlvs[..len] == tlvs[..len - 1] + [t];
    }
  }
}
