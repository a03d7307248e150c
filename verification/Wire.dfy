// Where the fields of a frame are, in plain numbers: Ethernet II, section 3.1 of RFC 791 and
// section 3 of RFC 8200. The code's own offsets and readings are proved to be these.
module Wire {
  import opened Words

  // Numbers in network order.
  function Net16(f: seq<uint8>, at: nat): uint16
    requires at + 2 <= |f|
  {
    var hi: nat, lo: nat := f[at], f[at + 1];
    256 * hi + lo
  }

  // The same two bytes as a little-endian host reads them.
  function Host16(f: seq<uint8>, at: nat): uint16
    requires at + 2 <= |f|
  {
    var lo: nat, hi: nat := f[at], f[at + 1];
    256 * hi + lo
  }

  function Net32(f: seq<uint8>, at: nat): uint32
    requires at + 4 <= |f|
  {
    var hi: nat, lo: nat := Net16(f, at), Net16(f, at + 2);
    65536 * hi + lo
  }

  function EtherType(f: seq<uint8>): uint16
    requires 14 <= |f|
  {
    Net16(f, 12)
  }

  // ---------------------------------------------------------------- IPv4

  function V4Version(f: seq<uint8>): nat
    requires 34 <= |f|
  {
    f[14] / 16
  }

  // The header length in 32-bit words.
  function V4Words(f: seq<uint8>): nat
    requires 34 <= |f|
  {
    f[14] % 16
  }

  // The header length in bytes, from its first byte.
  function HeaderBytes(first: uint8): (n: nat)
    ensures n % 2 == 0 && n <= 60
  {
    4 * (first % 16)
  }

  function V4TotalLength(f: seq<uint8>): uint16
    requires 34 <= |f|
  {
    Net16(f, 16)
  }

  function V4Ttl(f: seq<uint8>): uint8
    requires 34 <= |f|
  {
    f[22]
  }

  function V4Protocol(f: seq<uint8>): uint8
    requires 34 <= |f|
  {
    f[23]
  }

  function V4Checksum(f: seq<uint8>): uint16
    requires 34 <= |f|
  {
    Net16(f, 24)
  }

  function V4Source(f: seq<uint8>): uint32
    requires 34 <= |f|
  {
    Net32(f, 26)
  }

  function V4Destination(f: seq<uint8>): uint32
    requires 34 <= |f|
  {
    Net32(f, 30)
  }

  // The first n bytes of the header.
  function V4Header(f: seq<uint8>, n: nat): seq<uint8>
    requires 14 + n <= |f|
  {
    f[14..14 + n]
  }

  // Version 4, a header of at least five words, and a total length of at least that.
  predicate V4WellFormed(f: seq<uint8>)
    requires 34 <= |f|
  {
    V4Version(f) == 4 && V4Words(f) >= 5 && V4TotalLength(f) >= 20
  }

  // ---------------------------------------------------------------- IPv6

  type Address6 = a: seq<uint8> | |a| == 16 witness [0, 0, 0, 0, 0, 0, 0, 0, 0, 0, 0, 0, 0, 0, 0, 0]

  function V6NextHeader(f: seq<uint8>): uint8
    requires 54 <= |f|
  {
    f[20]
  }

  function V6Source(f: seq<uint8>): Address6
    requires 54 <= |f|
  {
    f[22..38]
  }

  function V6Destination(f: seq<uint8>): Address6
    requires 54 <= |f|
  {
    f[38..54]
  }

  // ---------------------------------------------------------------- flows

  // struct ipv4_5tuple and struct ipv6_5tuple
  datatype Tuple4 = Tuple4(ipDst: uint32, ipSrc: uint32, portDst: uint16, portSrc: uint16, proto: uint8)
  datatype Tuple6 = Tuple6(ipDst: Address6, ipSrc: Address6, portDst: uint16, portSrc: uint16, proto: uint8)

  // The five-tuple of a frame whose IP header has no options or extension headers.
  function FiveTuple4(f: seq<uint8>): Tuple4
    requires 38 <= |f|
  {
    Tuple4(V4Destination(f), V4Source(f), Net16(f, 36), Net16(f, 34), V4Protocol(f))
  }

  function FiveTuple6(f: seq<uint8>): Tuple6
    requires 58 <= |f|
  {
    Tuple6(V6Destination(f), V6Source(f), Net16(f, 56), Net16(f, 54), V6NextHeader(f))
  }
}
