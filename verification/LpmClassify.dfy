// l3fwd/l3fwd_lpm.c and l3fwd/l3fwd_lpm_sse.h: destination ports from the LPM tables,
// one packet at a time and four at a time.
module LpmClassify {
  import opened Words
  import opened Wire
  import opened Headers

  // The bytes of a packet and its parsed type.
  datatype Packet = Packet(bytes: seq<uint8>, ptype: bv32) {
    predicate Roomy() { MIN_ROOM <= |bytes| }
  }

  // The lookup structures, whose contents this model leaves open.
  datatype Tables = Tables(v4: uint32 -> Option<uint32>, v6: seq<uint8> -> Option<uint32>)

  const IPV4_DST: nat := ETH_HLEN + 16
  const IPV6_DST: nat := ETH_HLEN + 24

  function Be32(b: seq<uint8>): uint32
    requires |b| == 4
  {
    var b0: int, b1: int, b2: int, b3: int := b[0], b[1], b[2], b[3];
    0x100_0000 * b0 + 0x1_0000 * b1 + 0x100 * b2 + b3
  }

  function Le32(b: seq<uint8>): uint32
    requires |b| == 4
  {
    var b0: int, b1: int, b2: int, b3: int := b[0], b[1], b[2], b[3];
    b0 + 0x100 * b1 + 0x1_0000 * b2 + 0x100_0000 * b3
  }

  // (uint16_t) of a 32-bit value.
  function Trunc16(x: uint32): uint16 { x % 0x1_0000 }

  // ---------------------------------------------------------------- scalar form

  // lpm_get_dst_port
  function LpmGetDstPort(p: Packet, portid: uint16, t: Tables): uint16
    requires p.Roomy()
  {
    if IsIpv4Hdr(p.ptype) then
      match t.v4(Be32(p.bytes[IPV4_DST..IPV4_DST + 4]))
      case Some(hop) => Trunc16(hop)
      case None => portid
    else if IsIpv6Hdr(p.ptype) then
      match t.v6(p.bytes[IPV6_DST..IPV6_DST + 16])
      case Some(hop) => Trunc16(hop)
      case None => portid
    else portid
  }

  // What the tables answer for the destination address in the packet's IP header.
  function RouteOf(p: Packet, t: Tables): Option<uint32>
    requires p.Roomy()
  {
    if IsIpv4Hdr(p.ptype) then t.v4(V4Destination(p.bytes))
    else if IsIpv6Hdr(p.ptype) then t.v6(V6Destination(p.bytes))
    else None
  }

  // The route's next hop, or back to the receiving port.
  function NextHop(p: Packet, portid: uint16, t: Tables): uint32
    requires p.Roomy()
  {
    match RouteOf(p, t) case Some(hop) => hop case None => portid
  }

  lemma ReadsNet32(f: seq<uint8>, at: nat)
    requires at + 4 <= |f|
    ensures Be32(f[at..at + 4]) == Net32(f, at)
  {}

  // lpm_get_dst_port looks up the header's own destination address.
  lemma LooksUpDestination(p: Packet, portid: uint16, t: Tables)
    requires p.Roomy()
    ensures LpmGetDstPort(p, portid, t) == NextHop(p, portid, t) % 0x1_0000
  {
    ReadsNet32(p.bytes, 30);
  }

  // lpm_parse_ptype
  const RTE_PTYPE_L3_IPV4_EXT_UNKNOWN: bv32 := 0x90
  const RTE_PTYPE_L3_IPV6_EXT_UNKNOWN: bv32 := 0xe0

  function LpmParsePtype(f: seq<uint8>): bv32
    requires MIN_ROOM <= |f|
  {
    if f[12] == 0x08 && f[13] == 0x00 then RTE_PTYPE_L3_IPV4_EXT_UNKNOWN
    else if f[12] == 0x86 && f[13] == 0xDD then RTE_PTYPE_L3_IPV6_EXT_UNKNOWN
    else 0
  }

  // The type it writes tells IPv4 and IPv6 by the EtherType.
  lemma ParsedByEtherType(f: seq<uint8>)
    requires MIN_ROOM <= |f|
    ensures IsIpv4Hdr(LpmParsePtype(f)) <==> EtherType(f) == 0x0800
    ensures IsIpv6Hdr(LpmParsePtype(f)) <==> EtherType(f) == 0x86DD
  {}

  // lpm_get_dst_port_with_ipv4: the IPv4 address comes from the caller.
  function LpmGetDstPortWithIpv4(p: Packet, dstIpv4: uint32, portid: uint16, t: Tables): uint16
    requires p.Roomy()
  {
    if IsIpv4Hdr(p.ptype) then
      Trunc16(match t.v4(dstIpv4) case Some(hop) => hop case None => portid)
    else if IsIpv6Hdr(p.ptype) then
      Trunc16(match t.v6(p.bytes[IPV6_DST..IPV6_DST + 16]) case Some(hop) => hop case None => portid)
    else portid
  }

  // ---------------------------------------------------------------- four at a time

  // Lane i of a register of four 32-bit lanes.
  function Lane32(x: Xmm, i: nat): uint32
    requires i < 4
  {
    Le32(x[4 * i..4 * i + 4])
  }

  // _mm_shuffle_epi8 with the mask that swaps the bytes of each 32-bit lane.
  function BswapLanes(x: Xmm): Xmm {
    [x[3], x[2], x[1], x[0], x[7], x[6], x[5], x[4],
     x[11], x[10], x[9], x[8], x[15], x[14], x[13], x[12]]
  }

  // One lane of _mm_packs_epi32: signed saturation to 16 bits.
  function PackSaturated(x: uint32): uint16 {
    var v: int := if x < 0x8000_0000 then x else x - 0x1_0000_0000;
    var s: int := if v < -0x8000 then -0x8000 else if v > 0x7FFF then 0x7FFF else v;
    if s < 0 then s + 0x1_0000 else s
  }

  // One lane of rte_lpm_lookupx4: the port id stands in for a failed lookup.
  function Lookup4(addr: uint32, portid: uint16, t: Tables): uint32 {
    match t.v4(addr) case Some(hop) => hop case None => portid
  }

  // The view of a burst that lookups have.
  ghost predicate Shows(pkts: seq<Mbuf>, vs: seq<Packet>)
    reads pkts, Buffers(pkts)
  {
    && |pkts| == |vs|
    && forall i {:trigger pkts[i]} :: 0 <= i < |pkts| ==>
         pkts[i].data[..] == vs[i].bytes && pkts[i].packetType == vs[i].ptype && vs[i].Roomy()
  }

  predicate AllRoomy(vs: seq<Packet>) { forall i :: 0 <= i < |vs| ==> vs[i].Roomy() }

  // The destination address in the frame, byte by byte.
  function Ipv4Dst(p: Packet): seq<uint8>
    requires p.Roomy()
  {
    p.bytes[30..34]
  }

  predicate AllIpv4(vs: seq<Packet>, j: nat)
    requires j + 4 <= |vs|
  {
    forall k :: j <= k < j + 4 ==> IsIpv4Hdr(vs[k].ptype)
  }

  // The four destination addresses as they lie in memory: loading each little-endian and
  // setting it as a lane keeps the byte order.
  ghost function Addresses(vs: seq<Packet>, j: nat): Xmm
    requires j + 4 <= |vs| && AllRoomy(vs)
  {
    Ipv4Dst(vs[j]) + Ipv4Dst(vs[j + 1]) + Ipv4Dst(vs[j + 2]) + Ipv4Dst(vs[j + 3])
  }

  // processx4_step1
  method Processx4Step1(pkts: seq<Mbuf>, j: nat, ghost vs: seq<Packet>) returns (dip: Xmm, ipv4Flag: bv32)
    requires j + FWDSTEP <= |pkts| && Shows(pkts, vs) && AllRoomy(vs)
    ensures dip == Addresses(vs, j)
    ensures ipv4Flag != 0 <==> AllIpv4(vs, j)
  {
    var m0, m1, m2, m3 := pkts[j], pkts[j + 1], pkts[j + 2], pkts[j + 3];
    var x0, x1 := m0.data[IPV4_DST..IPV4_DST + 4], m1.data[IPV4_DST..IPV4_DST + 4];
    var x2, x3 := m2.data[IPV4_DST..IPV4_DST + 4], m3.data[IPV4_DST..IPV4_DST + 4];
    assert x0 == Ipv4Dst(vs[j]) && x1 == Ipv4Dst(vs[j + 1]);
    assert x2 == Ipv4Dst(vs[j + 2]) && x3 == Ipv4Dst(vs[j + 3]);
    dip := x0 + x1 + x2 + x3;
    ipv4Flag := m0.packetType & RTE_PTYPE_L3_IPV4;
    ipv4Flag := ipv4Flag & m1.packetType;
    ipv4Flag := ipv4Flag & m2.packetType;
    ipv4Flag := ipv4Flag & m3.packetType;
    AndFlag(m0.packetType, m1.packetType, m2.packetType, m3.packetType);
  }

  // The ANDed flag is nonzero exactly when every type has the IPv4 bit.
  lemma AndFlag(a: bv32, b: bv32, c: bv32, d: bv32)
    ensures (a & RTE_PTYPE_L3_IPV4) & b & c & d != 0
            <==> IsIpv4Hdr(a) && IsIpv4Hdr(b) && IsIpv4Hdr(c) && IsIpv4Hdr(d)
  {}

  // What the block code gives packet i of the block that starts at j.
  function BlockPort(vs: seq<Packet>, j: nat, i: nat, portid: uint16, t: Tables): uint16
    requires j <= i < j + 4 <= |vs| && AllRoomy(vs)
  {
    if AllIpv4(vs, j) then PackSaturated(Lookup4(Be32(Ipv4Dst(vs[i])), portid, t))
    else LpmGetDstPort(vs[i], portid, t)
  }

  // The host-order addresses of the block at j.
  ghost predicate HostOrder(addr: seq<uint32>, vs: seq<Packet>, j: nat) {
    && |addr| == 4 && j + 4 <= |vs| && AllRoomy(vs)
    && addr[0] == Be32(Ipv4Dst(vs[j])) && addr[1] == Be32(Ipv4Dst(vs[j + 1]))
    && addr[2] == Be32(Ipv4Dst(vs[j + 2])) && addr[3] == Be32(Ipv4Dst(vs[j + 3]))
  }

  // All four are IPv4: one vector lookup, packed with saturation.
  method LookupVector(j: nat, addr: seq<uint32>, portid: uint16, t: Tables, dprt: array<uint16>, ghost vs: seq<Packet>)
    requires HostOrder(addr, vs, j) && AllIpv4(vs, j) && j + FWDSTEP <= dprt.Length
    modifies dprt
    ensures forall i :: j <= i < j + 4 ==> dprt[i] == BlockPort(vs, j, i, portid, t)
    ensures forall i :: 0 <= i < dprt.Length && !(j <= i < j + 4) ==> dprt[i] == old(dprt[i])
  {
    var d0, d1 := Lookup4(addr[0], portid, t), Lookup4(addr[1], portid, t);
    var d2, d3 := Lookup4(addr[2], portid, t), Lookup4(addr[3], portid, t);
    dprt[j], dprt[j + 1] := PackSaturated(d0), PackSaturated(d1);
    dprt[j + 2], dprt[j + 3] := PackSaturated(d2), PackSaturated(d3);
  }

  // Otherwise each packet on its own, with the address already swapped.
  method LookupOne(pkts: seq<Mbuf>, i: nat, addr: uint32, portid: uint16, t: Tables, dprt: array<uint16>, ghost vs: seq<Packet>)
    requires i < |pkts| <= dprt.Length && Shows(pkts, vs) && AllRoomy(vs)
    requires addr == Be32(Ipv4Dst(vs[i]))
    modifies dprt
    ensures dprt[i] == LpmGetDstPort(vs[i], portid, t)
    ensures forall k :: 0 <= k < dprt.Length && k != i ==> dprt[k] == old(dprt[k])
  {
    var m := pkts[i];
    WithIpv4Agrees(vs[i], portid, t);
    dprt[i] := LpmGetDstPortWithIpv4(Packet(m.data[..], m.packetType), addr, portid, t);
  }

  method LookupEach(pkts: seq<Mbuf>, j: nat, addr: seq<uint32>, portid: uint16, t: Tables, dprt: array<uint16>, ghost vs: seq<Packet>)
    requires j + FWDSTEP <= |pkts| <= dprt.Length && Shows(pkts, vs) && HostOrder(addr, vs, j)
    modifies dprt
    ensures forall i :: j <= i < j + 4 ==> dprt[i] == LpmGetDstPort(vs[i], portid, t)
    ensures forall i :: 0 <= i < dprt.Length && !(j <= i < j + 4) ==> dprt[i] == old(dprt[i])
  {
    LookupOne(pkts, j, addr[0], portid, t, dprt, vs);
    LookupOne(pkts, j + 1, addr[1], portid, t, dprt, vs);
    LookupOne(pkts, j + 2, addr[2], portid, t, dprt, vs);
    LookupOne(pkts, j + 3, addr[3], portid, t, dprt, vs);
  }

  // processx4_step2, for the block at j.
  method Processx4Step2(pkts: seq<Mbuf>, j: nat, dip0: Xmm, ipv4Flag: bv32, portid: uint16, t: Tables,
                        dprt: array<uint16>, ghost vs: seq<Packet>)
    requires j + FWDSTEP <= |pkts| <= dprt.Length && Shows(pkts, vs) && AllRoomy(vs)
    requires dip0 == Addresses(vs, j) && (ipv4Flag != 0 <==> AllIpv4(vs, j))
    modifies dprt
    ensures forall i :: j <= i < j + 4 ==> dprt[i] == BlockPort(vs, j, i, portid, t)
    ensures forall i :: 0 <= i < dprt.Length && !(j <= i < j + 4) ==> dprt[i] == old(dprt[i])
  {
    var dip := BswapLanes(dip0);
    var addr := [Lane32(dip, 0), Lane32(dip, 1), Lane32(dip, 2), Lane32(dip, 3)];
    SwappedLanes(vs, j, addr);
    if ipv4Flag != 0 {
      LookupVector(j, addr, portid, t, dprt, vs);
    } else {
      LookupEach(pkts, j, addr, portid, t, dprt, vs);
    }
  }

  // The byte swap turns each lane into the address as a number.
  lemma SwappedLanes(vs: seq<Packet>, j: nat, addr: seq<uint32>)
    requires j + 4 <= |vs| && AllRoomy(vs)
    requires var dip := BswapLanes(Addresses(vs, j));
             addr == [Lane32(dip, 0), Lane32(dip, 1), Lane32(dip, 2), Lane32(dip, 3)]
    ensures HostOrder(addr, vs, j)
  {
    var a0, a1, a2, a3 := Ipv4Dst(vs[j]), Ipv4Dst(vs[j + 1]), Ipv4Dst(vs[j + 2]), Ipv4Dst(vs[j + 3]);
    var dip := BswapLanes(Addresses(vs, j));
    assert dip[0..4] == [a0[3], a0[2], a0[1], a0[0]];
    assert dip[4..8] == [a1[3], a1[2], a1[1], a1[0]];
    assert dip[8..12] == [a2[3], a2[2], a2[1], a2[0]];
    assert dip[12..16] == [a3[3], a3[2], a3[1], a3[0]];
  }

  // The precomputed-address form is the plain one on the packet's own address.
  lemma WithIpv4Agrees(p: Packet, portid: uint16, t: Tables)
    requires p.Roomy()
    ensures LpmGetDstPortWithIpv4(p, Be32(Ipv4Dst(p)), portid, t) == LpmGetDstPort(p, portid, t)
  {}

  // What the burst code gives packet i.
  function BurstPort(vs: seq<Packet>, i: nat, portid: uint16, t: Tables): uint16
    requires i < |vs| && AllRoomy(vs)
  {
    var j := i - i % 4;
    if j + 4 <= |vs| then BlockPort(vs, j, i, portid, t) else LpmGetDstPort(vs[i], portid, t)
  }

  // How many slots of the burst array l3fwd_lpm_process_packets dereferences, prefetching
  // included: the look-ahead by two blocks does not stop at the last whole block.
  function Dereferenced(nbRx: nat): nat {
    if nbRx >= 8 && nbRx % 4 != 0 then nbRx - nbRx % 4 + 4 else nbRx
  }

  // They are slots of the burst exactly when it is short or made of whole blocks.
  lemma DereferencesOwnExactly(nbRx: nat)
    ensures Dereferenced(nbRx) <= nbRx <==> nbRx < 8 || nbRx % 4 == 0
  {}

  // The prefetches of l3fwd_lpm_process_packets, and the slots they read.
  method PrefetchAll(nbRx: nat) returns (top: nat)
    ensures top == Dereferenced(nbRx)
  {
    var k := nbRx - nbRx % FWDSTEP;
    top := 0;
    if k != 0 {
      top := FWDSTEP;
      var j := 0;
      while j != k - FWDSTEP
        invariant 0 <= j <= k - 4 && j % 4 == 0
        invariant top == if j > 0 && j + 4 < nbRx then j + 8 else j + 4
        decreases k - j
      {
        if j + 2 * FWDSTEP < nbRx {
          top := j + 3 * FWDSTEP;
        } else {
          top := j + 2 * FWDSTEP;
        }
        j := j + FWDSTEP;
      }
    }
    if nbRx % FWDSTEP != 0 && top < nbRx {
      top := nbRx;
    }
  }

  // l3fwd_lpm_process_packets (do_step3 = 0)
  method LpmProcessPackets(pkts: seq<Mbuf>, portid: uint16, dst: array<uint16>, t: Tables, ghost vs: seq<Packet>)
    returns (ghost top: nat)
    requires |pkts| <= MAX_PKT_BURST && |pkts| <= dst.Length && Shows(pkts, vs) && AllRoomy(vs)
    modifies dst
    ensures forall i :: 0 <= i < |pkts| ==> dst[i] == BurstPort(vs, i, portid, t)
    ensures forall i :: 0 <= i < |pkts| && NextHop(vs[i], portid, t) <= 0x7FFF ==> dst[i] == NextHop(vs[i], portid, t)
    ensures top == Dereferenced(|pkts|)
  {
    var nbRx := |pkts|;
    top := PrefetchAll(nbRx);
    var k := nbRx / FWDSTEP;
    var dip, ipv4Flag := Step1All(pkts, k, vs);
    for b := 0 to k
      invariant forall i :: 0 <= i < 4 * b ==> dst[i] == BurstPort(vs, i, portid, t)
      modifies dst
    {
      Processx4Step2(pkts, FWDSTEP * b, dip[b], ipv4Flag[b], portid, t, dst, vs);
      BlockIsBurst(vs, b, portid, t);
    }
    var j := FWDSTEP * k;
    while j < nbRx
      invariant 4 * k <= j <= nbRx
      invariant forall i :: 0 <= i < j ==> dst[i] == BurstPort(vs, i, portid, t)
    {
      var m := pkts[j];
      dst[j] := LpmGetDstPort(Packet(m.data[..], m.packetType), portid, t);
      j := j + 1;
    }
    forall i | 0 <= i < nbRx && NextHop(vs[i], portid, t) <= 0x7FFF
      ensures BurstPort(vs, i, portid, t) == NextHop(vs[i], portid, t)
    {
      BurstLooksUpDestination(vs, i, portid, t);
    }
  }

  lemma BlockIsBurst(vs: seq<Packet>, b: nat, portid: uint16, t: Tables)
    requires 4 * b + 4 <= |vs| && AllRoomy(vs)
    ensures forall i :: 4 * b <= i < 4 * b + 4 ==> BlockPort(vs, 4 * b, i, portid, t) == BurstPort(vs, i, portid, t)
  {}

  // The first loop of l3fwd_lpm_process_packets: step 1 of every block.
  method Step1All(pkts: seq<Mbuf>, k: nat, ghost vs: seq<Packet>)
    returns (dip: array<Xmm>, ipv4Flag: array<bv32>)
    requires FWDSTEP * k <= |pkts| && Shows(pkts, vs) && AllRoomy(vs)
    ensures fresh(dip) && fresh(ipv4Flag) && dip.Length == k && ipv4Flag.Length == k
    ensures forall b :: 0 <= b < k ==> dip[b] == Addresses(vs, 4 * b)
    ensures forall b :: 0 <= b < k ==> (ipv4Flag[b] != 0 <==> AllIpv4(vs, 4 * b))
  {
    dip := new Xmm[k];
    ipv4Flag := new bv32[k];
    for b := 0 to k
      invariant forall c :: 0 <= c < b ==> dip[c] == Addresses(vs, 4 * c)
      invariant forall c :: 0 <= c < b ==> (ipv4Flag[c] != 0 <==> AllIpv4(vs, 4 * c))
    {
      dip[b], ipv4Flag[b] := Processx4Step1(pkts, FWDSTEP * b, vs);
    }
  }

  // ---------------------------------------------------------------- refinement

  // A 32-bit hop that both narrowings, saturation and truncation, take to the same port.
  predicate Fits(hop: uint32) {
    || hop <= 0x7FFF
    || hop >= 0xFFFF_8000
    || (hop < 0x8000_0000 && hop % 0x1_0000 == 0x7FFF)
    || (hop >= 0x8000_0000 && hop % 0x1_0000 == 0x8000)
  }

  // What the pack leaves of a lane, in four ranges.
  lemma PackedExactly(x: uint32)
    ensures PackSaturated(x) == if x <= 0x7FFF then x
                                else if x < 0x8000_0000 then 0x7FFF
                                else if x < 0xFFFF_8000 then 0x8000
                                else x - 0xFFFF_0000
  {}

  lemma FitsExactly(hop: uint32)
    ensures PackSaturated(hop) == Trunc16(hop) <==> Fits(hop)
  {}

  // Packet i goes through the vector lookup.
  predicate InVectorBlock(vs: seq<Packet>, i: nat)
    requires i < |vs|
  {
    var j := i - i % 4;
    j + 4 <= |vs| && AllIpv4(vs, j)
  }

  // The four-wide classification gives every packet of a burst of any length its scalar
  // destination exactly when each hop found by the vector lookup fits.
  lemma LpmRefinesExactly(vs: seq<Packet>, portid: uint16, t: Tables)
    requires AllRoomy(vs)
    ensures (forall i :: 0 <= i < |vs| ==> BurstPort(vs, i, portid, t) == LpmGetDstPort(vs[i], portid, t))
            <==> (forall i :: 0 <= i < |vs| && InVectorBlock(vs, i) ==>
                    Fits(Lookup4(Be32(Ipv4Dst(vs[i])), portid, t)))
  {
    forall i | 0 <= i < |vs|
      ensures BurstPort(vs, i, portid, t) == LpmGetDstPort(vs[i], portid, t)
              <==> (InVectorBlock(vs, i) ==> Fits(Lookup4(Be32(Ipv4Dst(vs[i])), portid, t)))
    {
      LpmPortExactly(vs, i, portid, t);
    }
  }

  lemma LpmPortExactly(vs: seq<Packet>, i: nat, portid: uint16, t: Tables)
    requires AllRoomy(vs) && i < |vs|
    ensures BurstPort(vs, i, portid, t) == LpmGetDstPort(vs[i], portid, t)
            <==> (InVectorBlock(vs, i) ==> Fits(Lookup4(Be32(Ipv4Dst(vs[i])), portid, t)))
  {
    if InVectorBlock(vs, i) {
      var hop := Lookup4(Be32(Ipv4Dst(vs[i])), portid, t);
      FitsExactly(hop);
      assert LpmGetDstPort(vs[i], portid, t) == Trunc16(hop);
    }
  }

  // A hop of 0x8000 becomes port 0x7FFF in the vector lookup.
  lemma SaturationShows()
    ensures PackSaturated(0x8000) == 0x7FFF && Trunc16(0x8000) == 0x8000
  {}

  // Wherever it falls in the burst, a packet whose next hop is a port number goes by its own
  // destination address.
  lemma BurstLooksUpDestination(vs: seq<Packet>, i: nat, portid: uint16, t: Tables)
    requires AllRoomy(vs) && i < |vs| && NextHop(vs[i], portid, t) <= 0x7FFF
    ensures BurstPort(vs, i, portid, t) == NextHop(vs[i], portid, t)
  {
    LooksUpDestination(vs[i], portid, t);
    LpmPortExactly(vs, i, portid, t);
    ReadsNet32(vs[i].bytes, 30);
  }
}
