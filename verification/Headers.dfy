// Per-packet header work: rfc1812_process, and the two forms in which the burst code
// rewrites the Ethernet addresses around it.
module Headers {
  import opened Words
  import opened Wire

  // A packet buffer: the bytes rte_pktmbuf_mtod points at, and the mbuf's own fields.
  class Mbuf {
    const data: array<uint8>
    var packetType: bv32
    var port: uint16

    constructor (bytes: seq<uint8>, ptype: bv32, rxPort: uint16)
      ensures fresh(this) && fresh(data)
      ensures data[..] == bytes && packetType == ptype && port == rxPort
    {
      data := new uint8[|bytes|](i requires 0 <= i < |bytes| => bytes[i]);
      packetType := ptype;
      port := rxPort;
    }
  }

  const ETH_HLEN: nat := 14
  // The least buffer room: an Ethernet header and an IPv6 header.
  const MIN_ROOM: nat := 54

  const VERSION_IHL: nat := ETH_HLEN
  const TOTAL_LENGTH: nat := ETH_HLEN + 2
  const TTL: nat := ETH_HLEN + 8
  const CHECKSUM: nat := ETH_HLEN + 10

  const RTE_PTYPE_L3_IPV4: bv32 := 0x10
  const RTE_PTYPE_L3_IPV6: bv32 := 0x40

  predicate IsIpv4Hdr(ptype: bv32) { ptype & RTE_PTYPE_L3_IPV4 != 0 }
  predicate IsIpv6Hdr(ptype: bv32) { ptype & RTE_PTYPE_L3_IPV6 != 0 }

  // A 16-bit field as a little-endian host reads it, and as the network means it.
  function Le16(lo: uint8, hi: uint8): uint16 { lo + 256 * hi }
  function Be16(hi: uint8, lo: uint8): uint16 { 256 * hi + lo }

  function Sub8(x: uint8, y: uint8): uint8 {
    var d: int := x - y;
    d % 0x100
  }

  function Inc16(x: uint16): uint16 {
    var s: int := x + 1;
    s % 0x1_0000
  }

  const IPV4_MIN_VER_IHL: uint8 := 0x45
  const IPV4_MAX_VER_IHL_DIFF: uint8 := 0x4f - 0x45
  const IPV4_MIN_LEN_BE: nat := 20 * 256

  // ---------------------------------------------------------------- rfc1812_process

  // The test that makes rfc1812_process write BAD_PORT.
  predicate Malformed(f: seq<uint8>)
    requires MIN_ROOM <= |f|
  {
    var totalLength := Le16(f[TOTAL_LENGTH], f[TOTAL_LENGTH + 1]);
    || Sub8(f[VERSION_IHL], IPV4_MIN_VER_IHL) > IPV4_MAX_VER_IHL_DIFF
    || (totalLength % 0x100 == 0 && totalLength < IPV4_MIN_LEN_BE)
  }

  function Rfc1812Frame(f: seq<uint8>, ptype: bv32): (r: seq<uint8>)
    requires MIN_ROOM <= |f|
    ensures |r| == |f|
  {
    if IsIpv4Hdr(ptype) then
      var ck := Inc16(Le16(f[CHECKSUM], f[CHECKSUM + 1]));
      f[TTL := Sub8(f[TTL], 1)][CHECKSUM := ck % 0x100][CHECKSUM + 1 := ck / 0x100]
    else f
  }

  function Rfc1812Port(f: seq<uint8>, ptype: bv32, dp: uint16): uint16
    requires MIN_ROOM <= |f|
  {
    if IsIpv4Hdr(ptype) && Malformed(f) then BAD_PORT else dp
  }

  // The version, header length and total length rules of section 5.2.2 of RFC 1812,
  // as is_valid_ipv4_pkt checks them: 0, or the number of the violated rule negated.
  function IsValidIpv4Fields(f: seq<uint8>): int
    requires MIN_ROOM <= |f|
  {
    if f[VERSION_IHL] / 16 != 4 then -3
    else if f[VERSION_IHL] % 16 < 5 then -4
    else if Be16(f[TOTAL_LENGTH], f[TOTAL_LENGTH + 1]) < 20 then -5
    else 0
  }

  // The wrap-around test of the fast path rejects exactly the headers the scalar path's
  // rules 3 to 5 reject.
  lemma MalformedIffRulesFail(f: seq<uint8>)
    requires MIN_ROOM <= |f|
    ensures Malformed(f) <==> IsValidIpv4Fields(f) < 0
  {
    var v := f[VERSION_IHL];
    assert v == 16 * (v / 16) + v % 16;
    var hi, lo := f[TOTAL_LENGTH], f[TOTAL_LENGTH + 1];
    assert Le16(hi, lo) % 0x100 == hi;
  }

  // And those are the headers that are not well formed.
  lemma MalformedExactly(f: seq<uint8>)
    requires MIN_ROOM <= |f|
    ensures Malformed(f) <==> !V4WellFormed(f)
  {
    MalformedIffRulesFail(f);
  }

  method Rfc1812Process(m: Mbuf, dst: array<uint16>, at: nat)
    requires MIN_ROOM <= m.data.Length && at < dst.Length
    modifies m.data, dst
    ensures m.data[..] == Rfc1812Frame(old(m.data[..]), m.packetType)
    ensures dst[..] == old(dst[..])[at := Rfc1812Port(old(m.data[..]), m.packetType, old(dst[at]))]
  {
    if IsIpv4Hdr(m.packetType) {
      var ihl := Sub8(m.data[VERSION_IHL], IPV4_MIN_VER_IHL);
      m.data[TTL] := Sub8(m.data[TTL], 1);
      var ck := Inc16(Le16(m.data[CHECKSUM], m.data[CHECKSUM + 1]));
      m.data[CHECKSUM], m.data[CHECKSUM + 1] := ck % 0x100, ck / 0x100;
      var totalLength := Le16(m.data[TOTAL_LENGTH], m.data[TOTAL_LENGTH + 1]);
      if ihl > IPV4_MAX_VER_IHL_DIFF || (totalLength % 0x100 == 0 && totalLength < IPV4_MIN_LEN_BE) {
        dst[at] := BAD_PORT;
      }
    }
  }

  // ---------------------------------------------------------------- MAC rewriting

  // Sixteen bytes of a 128-bit register.
  type Xmm = x: seq<uint8> | |x| == 16 witness [0, 0, 0, 0, 0, 0, 0, 0, 0, 0, 0, 0, 0, 0, 0, 0]

  function Bit(imm: uint8, k: nat): bool
    requires k < 8
  {
    var p := match k case 0 => 1 case 1 => 2 case 2 => 4 case 3 => 8
                     case 4 => 16 case 5 => 32 case 6 => 64 case _ => 128;
    imm / p % 2 == 1
  }

  // _mm_blend_epi16: bit k of imm takes 16-bit lane k from b.
  function Blend16(a: Xmm, b: Xmm, imm: uint8): Xmm {
    seq(16, i requires 0 <= i < 16 => if Bit(imm, i / 2) then b[i] else a[i])
  }

  // Replaces the first 12 bytes of the Ethernet header.
  const MASK_ETH: uint8 := 0x3f

  // A 16-byte store at the start of the frame.
  function Store16(f: seq<uint8>, x: Xmm): (r: seq<uint8>)
    requires 16 <= |f|
    ensures |r| == |f|
  {
    x + f[16..]
  }

  // In a block of four: load, blend and store first, RFC 1812 work afterwards.
  function FinishInBlock(f: seq<uint8>, ptype: bv32, ve: Xmm): (r: seq<uint8>)
    requires MIN_ROOM <= |f|
    ensures |r| == |f|
  {
    Rfc1812Frame(Store16(f, Blend16(f[..16], ve, MASK_ETH)), ptype)
  }

  // In the tail: load, RFC 1812 work, then a store of sixteen bytes loaded before it.
  function FinishInTail(f: seq<uint8>, ptype: bv32, ve: Xmm): (r: seq<uint8>)
    requires MIN_ROOM <= |f|
    ensures |r| == |f|
  {
    Store16(Rfc1812Frame(f, ptype), Blend16(f[..16], ve, MASK_ETH))
  }

  lemma BlendMeaning(a: Xmm, b: Xmm)
    ensures Blend16(a, b, MASK_ETH) == b[..12] + a[12..]
  {
    var r := Blend16(a, b, MASK_ETH);
    forall i | 0 <= i < 16
      ensures r[i] == (b[..12] + a[12..])[i]
    {
      var k := i / 2;
      assert Bit(MASK_ETH, k) <==> k < 6 by {
        match k case 0 => case 1 => case 2 => case 3 => case 4 => case 5 => case 6 => case _ =>
      }
    }
  }

  // What leaves the port, byte by byte: new MAC addresses; for IPv4 a decremented TTL
  // and an incremented checksum; everything else as received.
  function Forwarded(f: seq<uint8>, ptype: bv32, ve: Xmm): (r: seq<uint8>)
    requires MIN_ROOM <= |f|
    ensures |r| == |f|
  {
    var ck := Inc16(Le16(f[CHECKSUM], f[CHECKSUM + 1]));
    seq(|f|, i requires 0 <= i < |f| =>
      if i < 12 then ve[i]
      else if i == TTL && IsIpv4Hdr(ptype) then Sub8(f[i], 1)
      else if i == CHECKSUM && IsIpv4Hdr(ptype) then ck % 0x100
      else if i == CHECKSUM + 1 && IsIpv4Hdr(ptype) then ck / 0x100
      else f[i])
  }

  // Position independence: the two orders of work agree, and the RFC 1812 verdict is
  // the same before and after the store.
  lemma PositionIndependent(f: seq<uint8>, ptype: bv32, ve: Xmm, dp: uint16)
    requires MIN_ROOM <= |f|
    ensures FinishInBlock(f, ptype, ve) == FinishInTail(f, ptype, ve) == Forwarded(f, ptype, ve)
    ensures Rfc1812Port(Store16(f, Blend16(f[..16], ve, MASK_ETH)), ptype, dp) == Rfc1812Port(f, ptype, dp)
  {
    BlendMeaning(f[..16], ve);
    var x := Blend16(f[..16], ve, MASK_ETH);
    assert x == ve[..12] + f[12..16];
    var s := Store16(f, x);
    assert forall i :: 12 <= i < |f| ==> s[i] == f[i];
    BlockBytes(f, s, ptype, ve);
    TailBytes(f, x, ptype, ve);
  }

  lemma BlockBytes(f: seq<uint8>, s: seq<uint8>, ptype: bv32, ve: Xmm)
    requires MIN_ROOM <= |f| == |s|
    requires s[..12] == ve[..12] && forall i :: 12 <= i < |f| ==> s[i] == f[i]
    ensures Rfc1812Frame(s, ptype) == Forwarded(f, ptype, ve)
  {
    assert forall i :: 0 <= i < 12 ==> s[i] == s[..12][i] == ve[i];
  }

  lemma TailBytes(f: seq<uint8>, x: Xmm, ptype: bv32, ve: Xmm)
    requires MIN_ROOM <= |f|
    requires x == ve[..12] + f[12..16]
    ensures Store16(Rfc1812Frame(f, ptype), x) == Forwarded(f, ptype, ve)
  {
    assert forall i :: 0 <= i < 16 ==> x[i] == if i < 12 then ve[i] else f[i];
  }

  // The same in terms of the fields of the frame: the addresses and, for IPv4, the TTL and the
  // checksum, which on a little-endian host counts up from its first byte.
  lemma ForwardedFields(f: seq<uint8>, ptype: bv32, ve: Xmm)
    requires MIN_ROOM <= |f|
    ensures var r := Forwarded(f, ptype, ve);
            && r[..12] == ve[..12] && EtherType(r) == EtherType(f)
            && (forall i :: 12 <= i < |f| && (IsIpv4Hdr(ptype) ==> i != 22 && i != 24 && i != 25) ==> r[i] == f[i])
            && (IsIpv4Hdr(ptype) ==>
                  && V4Ttl(r) == (V4Ttl(f) as int + 255) % 256
                  && Host16(r, 24) == (Host16(f, 24) as int + 1) % 65536)
  {}

  // ---------------------------------------------------------------- step 3

  // The buffers of a burst: room for the headers, and no two packets share one.
  ghost predicate Burst(pkts: seq<Mbuf>) {
    && (forall i :: 0 <= i < |pkts| ==> MIN_ROOM <= pkts[i].data.Length)
    && (forall i, j :: 0 <= i < j < |pkts| ==> pkts[i].data != pkts[j].data)
  }

  // The byte arrays of a burst.
  ghost function Buffers(pkts: seq<Mbuf>): set<array<uint8>> {
    set i | 0 <= i < |pkts| :: pkts[i].data
  }
}
