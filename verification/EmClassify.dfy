// l3fwd/l3fwd_em.c and l3fwd/l3fwd_em_hlm.h: destination ports by exact match, one packet
// at a time and eight at a time.
module EmClassify {
  import opened Words
  import opened Wire
  import opened EmKeys
  import opened Headers
  import opened LpmClassify
  import opened LpmScalar
  import opened PortMask

  const RTE_PTYPE_L3_MASK: bv32 := 0xf0
  const RTE_PTYPE_L3_IPV4_EXT: bv32 := 0x30
  const RTE_PTYPE_L3_IPV6_EXT_UNKNOWN: bv32 := 0xe0
  const RTE_PTYPE_L4_TCP: bv32 := 0x100
  const RTE_PTYPE_L4_UDP: bv32 := 0x200
  const L4_TCP_OR_UDP: bv32 := 0x300

  const EM_HASH_LOOKUP_COUNT: nat := 8

  // ---------------------------------------------------------------- packet types

  // em_parse_ptype
  function EmParsePtype(f: seq<uint8>): bv32
    requires MIN_ROOM <= |f|
  {
    if f[12] == 0x08 && f[13] == 0x00 then
      if f[VERSION_IHL] % 16 * 4 == 20 then
        if f[ETH_HLEN + 9] == 6 then RTE_PTYPE_L3_IPV4 | RTE_PTYPE_L4_TCP
        else if f[ETH_HLEN + 9] == 17 then RTE_PTYPE_L3_IPV4 | RTE_PTYPE_L4_UDP
        else RTE_PTYPE_L3_IPV4
      else RTE_PTYPE_L3_IPV4_EXT
    else if f[12] == 0x86 && f[13] == 0xDD then
      if f[ETH_HLEN + 6] == 6 then RTE_PTYPE_L3_IPV6 | RTE_PTYPE_L4_TCP
      else if f[ETH_HLEN + 6] == 17 then RTE_PTYPE_L3_IPV6 | RTE_PTYPE_L4_UDP
      else RTE_PTYPE_L3_IPV6_EXT_UNKNOWN
    else 0
  }

  predicate TcpOrUdp(ptype: bv32) { ptype & L4_TCP_OR_UDP != 0 }
  predicate PlainIpv4(ptype: bv32) { ptype & RTE_PTYPE_L3_MASK == RTE_PTYPE_L3_IPV4 }
  predicate PlainIpv6(ptype: bv32) { ptype & RTE_PTYPE_L3_MASK == RTE_PTYPE_L3_IPV6 }

  // What em_parse_ptype finds in a frame: plain IPv4 with TCP or UDP is an IPv4 frame with a
  // header of five words and one of the two protocols; plain IPv6 likewise.
  lemma ParsedExactly(f: seq<uint8>)
    requires MIN_ROOM <= |f|
    ensures var p := EmParsePtype(f);
            TcpOrUdp(p) && PlainIpv4(p) <==> EtherType(f) == 0x0800 && V4Words(f) == 5 && V4Protocol(f) in {6, 17}
    ensures var p := EmParsePtype(f);
            TcpOrUdp(p) && PlainIpv6(p) <==> EtherType(f) == 0x86DD && V6NextHeader(f) in {6, 17}
  {}

  // And the type tells IPv4 from IPv6 for the send path.
  lemma ParsedFamily(f: seq<uint8>)
    requires MIN_ROOM <= |f|
    ensures IsIpv4Hdr(EmParsePtype(f)) <==> EtherType(f) == 0x0800
    ensures IsIpv6Hdr(EmParsePtype(f)) <==> EtherType(f) == 0x86DD
  {}

  // ---------------------------------------------------------------- scalar form

  // The two hash tables, whose contents are open: the position of a key, if it is there; and
  // ipv4_l3fwd_out_if and ipv6_l3fwd_out_if, the port of a position.
  datatype EmTables = EmTables(hash4: Xmm -> Option<nat>, hash6: (Xmm, Xmm, Xmm) -> Option<nat>,
                               out4: nat -> uint8, out6: nat -> uint8)

  predicate EmRoomy(vs: seq<Packet>) { forall i :: 0 <= i < |vs| ==> EM_ROOM <= |vs[i].bytes| }

  // em_get_ipv4_dst_port, and the clamp its callers apply.
  function Port4(p: Packet, portid: uint16, t: EmTables, c: Config): uint16
    requires EM_ROOM <= |p.bytes|
  {
    Clamp(match t.hash4(ScalarKey4(p.bytes)) case Some(ret) => t.out4(ret) case None => portid, portid, c)
  }

  // em_get_ipv6_dst_port
  function Port6(p: Packet, portid: uint16, t: EmTables, c: Config): uint16
    requires EM_ROOM <= |p.bytes|
  {
    var key := ScalarKey6(p.bytes);
    Clamp(match t.hash6(key.0, key.1, key.2) case Some(ret) => t.out6(ret) case None => portid, portid, c)
  }

  // em_get_dst_port
  function EmGetDstPort(p: Packet, portid: uint16, t: EmTables, c: Config): uint16
    requires EM_ROOM <= |p.bytes|
  {
    if TcpOrUdp(p.ptype) && PlainIpv4(p.ptype) then Port4(p, portid, t, c)
    else if TcpOrUdp(p.ptype) && PlainIpv6(p.ptype) then Port6(p, portid, t, c)
    else portid
  }

  // ---------------------------------------------------------------- eight at a time

  // The block's type: the AND of the first n types from j on.
  function AndTypes(vs: seq<Packet>, j: nat, n: nat): bv32
    requires j + n <= |vs|
  {
    if n == 0 then RTE_PTYPE_L3_MASK | RTE_PTYPE_L4_TCP | RTE_PTYPE_L4_UDP
    else AndTypes(vs, j, n - 1) & vs[j + n - 1].ptype
  }

  // The path the block at j takes.
  datatype Path = Ipv4Path | Ipv6Path | ScalarPath

  function BlockPath(vs: seq<Packet>, j: nat): Path
    requires j + EM_HASH_LOOKUP_COUNT <= |vs|
  {
    var ptype := AndTypes(vs, j, EM_HASH_LOOKUP_COUNT);
    if TcpOrUdp(ptype) && PlainIpv4(ptype) then Ipv4Path
    else if TcpOrUdp(ptype) && PlainIpv6(ptype) then Ipv6Path
    else ScalarPath
  }

  // What the block path gives a packet.
  function PathPort(path: Path, p: Packet, portid: uint16, t: EmTables, c: Config): uint16
    requires EM_ROOM <= |p.bytes|
  {
    match path
    case Ipv4Path => Port4(p, portid, t, c)
    case Ipv6Path => Port6(p, portid, t, c)
    case ScalarPath => EmGetDstPort(p, portid, t, c)
  }

  function PathOf(vs: seq<Packet>, i: nat): Path
    requires i < |vs|
  {
    var j := i - i % 8;
    if j + 8 <= |vs| then BlockPath(vs, j) else ScalarPath
  }

  function EmBurstPort(vs: seq<Packet>, i: nat, portid: uint16, t: EmTables, c: Config): uint16
    requires i < |vs| && EmRoomy(vs)
  {
    PathPort(PathOf(vs, i), vs[i], portid, t, c)
  }

  // The AND loop over a block's types.
  method AndBlock(pkts: seq<Mbuf>, j: nat, ghost vs: seq<Packet>) returns (ptype: bv32)
    requires j + EM_HASH_LOOKUP_COUNT <= |pkts| && Shows(pkts, vs)
    ensures ptype == AndTypes(vs, j, EM_HASH_LOOKUP_COUNT)
  {
    ptype := RTE_PTYPE_L3_MASK | RTE_PTYPE_L4_TCP | RTE_PTYPE_L4_UDP;
    for i := 0 to EM_HASH_LOOKUP_COUNT
      invariant ptype == AndTypes(vs, j, i)
    {
      ptype := ptype & pkts[j + i].packetType;
    }
  }

  // The keys of a block.
  method BlockKeys4(pkts: seq<Mbuf>, j: nat, ghost vs: seq<Packet>) returns (keys: seq<Xmm>)
    requires j + EM_HASH_LOOKUP_COUNT <= |pkts| && Shows(pkts, vs) && EmRoomy(vs)
    ensures |keys| == EM_HASH_LOOKUP_COUNT
    ensures forall i :: 0 <= i < EM_HASH_LOOKUP_COUNT ==> keys[i] == ScalarKey4(vs[j + i].bytes)
  {
    keys := [];
    for i := 0 to EM_HASH_LOOKUP_COUNT
      invariant |keys| == i && forall k :: 0 <= k < i ==> keys[k] == ScalarKey4(vs[j + k].bytes)
    {
      assert pkts[j + i].data[..] == vs[j + i].bytes;
      var key := GetIpv4FiveTuple(pkts[j + i].data[..], MASK0);
      keys := keys + [key];
    }
  }

  method BlockKeys6(pkts: seq<Mbuf>, j: nat, ghost vs: seq<Packet>) returns (keys: seq<(Xmm, Xmm, Xmm)>)
    requires j + EM_HASH_LOOKUP_COUNT <= |pkts| && Shows(pkts, vs) && EmRoomy(vs)
    ensures |keys| == EM_HASH_LOOKUP_COUNT
    ensures forall i :: 0 <= i < EM_HASH_LOOKUP_COUNT ==> keys[i] == ScalarKey6(vs[j + i].bytes)
  {
    keys := [];
    for i := 0 to EM_HASH_LOOKUP_COUNT
      invariant |keys| == i && forall k :: 0 <= k < i ==> keys[k] == ScalarKey6(vs[j + k].bytes)
    {
      assert pkts[j + i].data[..] == vs[j + i].bytes;
      var key := GetIpv6FiveTuple(pkts[j + i].data[..], MASK1, MASK2);
      keys := keys + [key];
    }
  }

  // rte_hash_lookup_bulk: the answers to a list of keys, in order.
  method LookupBulk4(t: EmTables, keys: seq<Xmm>) returns (ret: seq<Option<nat>>)
    ensures |ret| == |keys| && forall i :: 0 <= i < |keys| ==> ret[i] == t.hash4(keys[i])
  {
    ret := [];
    for i := 0 to |keys|
      invariant |ret| == i && forall k :: 0 <= k < i ==> ret[k] == t.hash4(keys[k])
    {
      ret := ret + [t.hash4(keys[i])];
    }
  }

  method LookupBulk6(t: EmTables, keys: seq<(Xmm, Xmm, Xmm)>) returns (ret: seq<Option<nat>>)
    ensures |ret| == |keys| && forall i :: 0 <= i < |keys| ==> ret[i] == t.hash6(keys[i].0, keys[i].1, keys[i].2)
  {
    ret := [];
    for i := 0 to |keys|
      invariant |ret| == i && forall k :: 0 <= k < i ==> ret[k] == t.hash6(keys[k].0, keys[k].1, keys[k].2)
    {
      ret := ret + [t.hash6(keys[i].0, keys[i].1, keys[i].2)];
    }
  }

  // The slots of a block hold its destinations by its path, the others are as they were.
  ghost predicate BlockDone(dst: seq<uint16>, was: seq<uint16>, vs: seq<Packet>, j: nat, n: nat, path: Path,
                            portid: uint16, t: EmTables, c: Config)
    requires EmRoomy(vs) && j + n <= |vs| && j + n <= |dst| == |was|
  {
    && (forall i :: j <= i < j + n ==> dst[i] == PathPort(path, vs[i], portid, t, c))
    && (forall i :: 0 <= i < |dst| && !(j <= i < j + n) ==> dst[i] == was[i])
  }

  // em_get_dst_port_ipv4xN: all keys, then all lookups, then all destinations.
  method EmGetDstPortIpv4xN(pkts: seq<Mbuf>, j: nat, dst: array<uint16>, portid: uint16, t: EmTables, c: Config,
                            ghost vs: seq<Packet>)
    requires j + EM_HASH_LOOKUP_COUNT <= |pkts| <= dst.Length && Shows(pkts, vs) && EmRoomy(vs)
    modifies dst
    ensures BlockDone(dst[..], old(dst[..]), vs, j, EM_HASH_LOOKUP_COUNT, Ipv4Path, portid, t, c)
  {
    ghost var was := dst[..];
    var keys := BlockKeys4(pkts, j, vs);
    var ret := LookupBulk4(t, keys);
    for i := 0 to EM_HASH_LOOKUP_COUNT
      invariant BlockDone(dst[..], was, vs, j, i, Ipv4Path, portid, t, c)
    {
      assert ret[i] == t.hash4(ScalarKey4(vs[j + i].bytes));
      dst[j + i] := if ret[i].None? then portid else t.out4(ret[i].value);
      if dst[j + i] >= RTE_MAX_ETHPORTS || !PortEnabled(c.enabledPortMask, dst[j + i]) {
        dst[j + i] := portid;
      }
    }
  }

  // em_get_dst_port_ipv6xN
  method EmGetDstPortIpv6xN(pkts: seq<Mbuf>, j: nat, dst: array<uint16>, portid: uint16, t: EmTables, c: Config,
                            ghost vs: seq<Packet>)
    requires j + EM_HASH_LOOKUP_COUNT <= |pkts| <= dst.Length && Shows(pkts, vs) && EmRoomy(vs)
    modifies dst
    ensures BlockDone(dst[..], old(dst[..]), vs, j, EM_HASH_LOOKUP_COUNT, Ipv6Path, portid, t, c)
  {
    ghost var was := dst[..];
    var keys := BlockKeys6(pkts, j, vs);
    var ret := LookupBulk6(t, keys);
    for i := 0 to EM_HASH_LOOKUP_COUNT
      invariant BlockDone(dst[..], was, vs, j, i, Ipv6Path, portid, t, c)
    {
      assert keys[i] == ScalarKey6(vs[j + i].bytes);
      dst[j + i] := if ret[i].None? then portid else t.out6(ret[i].value);
      if dst[j + i] >= RTE_MAX_ETHPORTS || !PortEnabled(c.enabledPortMask, dst[j + i]) {
        dst[j + i] := portid;
      }
    }
  }

  // The loop over em_get_dst_port.
  method EmOneByOne(pkts: seq<Mbuf>, j: nat, dst: array<uint16>, portid: uint16, t: EmTables, c: Config, ghost vs: seq<Packet>)
    requires j + EM_HASH_LOOKUP_COUNT <= |pkts| <= dst.Length && Shows(pkts, vs) && EmRoomy(vs)
    modifies dst
    ensures BlockDone(dst[..], old(dst[..]), vs, j, EM_HASH_LOOKUP_COUNT, ScalarPath, portid, t, c)
  {
    ghost var was := dst[..];
    for i := 0 to EM_HASH_LOOKUP_COUNT
      invariant BlockDone(dst[..], was, vs, j, i, ScalarPath, portid, t, c)
    {
      var m := pkts[j + i];
      dst[j + i] := EmGetDstPort(Packet(m.data[..], m.packetType), portid, t, c);
    }
  }

  // One block by its path.
  method EmBlock(pkts: seq<Mbuf>, j: nat, dst: array<uint16>, portid: uint16, t: EmTables, c: Config, path: Path,
                 ghost vs: seq<Packet>)
    requires j + EM_HASH_LOOKUP_COUNT <= |pkts| <= dst.Length && Shows(pkts, vs) && EmRoomy(vs)
    modifies dst
    ensures forall i :: j <= i < j + 8 ==> dst[i] == PathPort(path, vs[i], portid, t, c)
    ensures forall i :: 0 <= i < dst.Length && !(j <= i < j + 8) ==> dst[i] == old(dst[i])
  {
    ghost var was := dst[..];
    match path {
      case Ipv4Path => EmGetDstPortIpv4xN(pkts, j, dst, portid, t, c, vs);
      case Ipv6Path => EmGetDstPortIpv6xN(pkts, j, dst, portid, t, c, vs);
      case ScalarPath => EmOneByOne(pkts, j, dst, portid, t, c, vs);
    }
    assert BlockDone(dst[..], was, vs, j, 8, path, portid, t, c);
    assert forall i :: 0 <= i < dst.Length ==> dst[i] == dst[..][i];
  }

  // One turn of the block loop.
  method EmOneBlock(pkts: seq<Mbuf>, b: nat, dst: array<uint16>, portid: uint16, t: EmTables, c: Config, ghost vs: seq<Packet>)
    requires 8 * b + 8 <= |pkts| <= dst.Length && Shows(pkts, vs) && EmRoomy(vs)
    modifies dst
    ensures forall i :: 8 * b <= i < 8 * b + 8 ==> dst[i] == EmBurstPort(vs, i, portid, t, c)
    ensures forall i :: 0 <= i < dst.Length && !(8 * b <= i < 8 * b + 8) ==> dst[i] == old(dst[i])
  {
    var j := EM_HASH_LOOKUP_COUNT * b;
    var ptype := AndBlock(pkts, j, vs);
    var path := if TcpOrUdp(ptype) && PlainIpv4(ptype) then Ipv4Path
                else if TcpOrUdp(ptype) && PlainIpv6(ptype) then Ipv6Path
                else ScalarPath;
    EmBlock(pkts, j, dst, portid, t, c, path, vs);
    BlockOf(vs, b);
  }

  // l3fwd_em_process_packets (do_step3 = 0)
  method EmProcessPackets(pkts: seq<Mbuf>, dst: array<uint16>, portid: uint16, t: EmTables, c: Config, ghost vs: seq<Packet>)
    requires |pkts| <= dst.Length && Shows(pkts, vs) && EmRoomy(vs)
    modifies dst
    ensures forall i :: 0 <= i < |pkts| ==> dst[i] == EmBurstPort(vs, i, portid, t, c)
  {
    var nbRx := |pkts|;
    for b := 0 to nbRx / EM_HASH_LOOKUP_COUNT
      invariant forall i :: 0 <= i < 8 * b ==> dst[i] == EmBurstPort(vs, i, portid, t, c)
      modifies dst
    {
      assert 8 * b + 8 <= 8 * (nbRx / 8) <= nbRx;
      EmOneBlock(pkts, b, dst, portid, t, c, vs);
    }
    var j := EM_HASH_LOOKUP_COUNT * (nbRx / EM_HASH_LOOKUP_COUNT);
    while j < nbRx
      invariant 8 * (nbRx / 8) <= j <= nbRx
      invariant forall i :: 0 <= i < j ==> dst[i] == EmBurstPort(vs, i, portid, t, c)
    {
      var m := pkts[j];
      dst[j] := EmGetDstPort(Packet(m.data[..], m.packetType), portid, t, c);
      j := j + 1;
    }
  }

  lemma BlockOf(vs: seq<Packet>, b: nat)
    requires 8 * b + 8 <= |vs|
    ensures forall i :: 8 * b <= i < 8 * b + 8 ==> PathOf(vs, i) == BlockPath(vs, 8 * b)
  {}

  // ---------------------------------------------------------------- refinement

  // The AND has no bit that one of its members lacks.
  lemma {:induction false} AndBelow(vs: seq<Packet>, j: nat, n: nat, i: nat)
    requires j + n <= |vs| && j <= i < j + n
    ensures Within(AndTypes(vs, j, n), vs[i].ptype)
  {
    if i == j + n - 1 {
    } else {
      AndBelow(vs, j, n - 1, i);
    }
    AndBelowOn(vs, j, n, i);
  }

  lemma AndBelowOn(vs: seq<Packet>, j: nat, n: nat, i: nat)
    requires j + n <= |vs| && j <= i < j + n
    requires i < j + n - 1 ==> Within(AndTypes(vs, j, n - 1), vs[i].ptype)
    ensures Within(AndTypes(vs, j, n), vs[i].ptype)
  {
    AndOn(vs, j, n);
    WithinAnd(AndTypes(vs, j, n), AndTypes(vs, j, n - 1), vs[j + n - 1].ptype, vs[i].ptype);
  }

  lemma AndOn(vs: seq<Packet>, j: nat, n: nat)
    requires 0 < n && j + n <= |vs|
    ensures AndTypes(vs, j, n) == AndTypes(vs, j, n - 1) & vs[j + n - 1].ptype
  {}

  // All bits of a are in b.
  predicate Within(a: bv32, b: bv32) { a & b == a }

  lemma WithinAnd(r: bv32, a: bv32, b: bv32, c: bv32)
    requires r == a & b && (Within(a, c) || b == c)
    ensures Within(r, c)
  {}

  // On a block path a packet is TCP or UDP, and has the path's type bits, maybe others.
  lemma PathBits(v: bv32, p: bv32)
    requires Within(v, p)
    ensures TcpOrUdp(v) ==> TcpOrUdp(p)
    ensures PlainIpv4(v) ==> p & RTE_PTYPE_L3_IPV4 != 0
    ensures PlainIpv6(v) ==> p & RTE_PTYPE_L3_IPV6 != 0
    ensures PlainIpv4(v) ==> !PlainIpv6(p)
    ensures PlainIpv6(v) ==> !PlainIpv4(p)
  {}

  // The packet's own type is what the block path takes it for.
  predicate TypeFitsPath(p: bv32, path: Path) {
    match path
    case Ipv4Path => PlainIpv4(p)
    case Ipv6Path => PlainIpv6(p)
    case ScalarPath => true
  }

  // For one packet: the block form is right exactly when the packet's own type fits the
  // block's path, or the lookup happens to answer the receiving port.
  lemma EmPortExactly(vs: seq<Packet>, i: nat, portid: uint16, t: EmTables, c: Config)
    requires i < |vs| && EmRoomy(vs)
    ensures EmBurstPort(vs, i, portid, t, c) == EmGetDstPort(vs[i], portid, t, c)
            <==> TypeFitsPath(vs[i].ptype, PathOf(vs, i)) || EmBurstPort(vs, i, portid, t, c) == portid
  {
    var j := i - i % 8;
    if j + 8 <= |vs| {
      AndBelow(vs, j, 8, i);
      PathBits(AndTypes(vs, j, 8), vs[i].ptype);
    }
  }

  // Types that em_parse_ptype writes always fit.
  lemma ParsedTypesFit(f: seq<uint8>, v: bv32)
    requires MIN_ROOM <= |f|
    ensures var p := EmParsePtype(f);
            TcpOrUdp(p) && p & RTE_PTYPE_L3_IPV4 != 0 ==> PlainIpv4(p)
    ensures var p := EmParsePtype(f);
            TcpOrUdp(p) && p & RTE_PTYPE_L3_IPV6 != 0 ==> PlainIpv6(p)
  {}

  // The eight-wide classification gives every packet of a burst of any length its scalar
  // destination, when the types come from em_parse_ptype.
  lemma EmRefines(vs: seq<Packet>, i: nat, portid: uint16, t: EmTables, c: Config)
    requires EmRoomy(vs) && forall k :: 0 <= k < |vs| ==> vs[k].ptype == EmParsePtype(vs[k].bytes)
    requires i < |vs|
    ensures EmBurstPort(vs, i, portid, t, c) == EmGetDstPort(vs[i], portid, t, c)
  {
    var j := i - i % 8;
    if j + 8 <= |vs| {
      AndBelow(vs, j, 8, i);
      PathBits(AndTypes(vs, j, 8), vs[i].ptype);
      ParsedTypesFit(vs[i].bytes, AndTypes(vs, j, 8));
    }
    EmPortExactly(vs, i, portid, t, c);
  }

  // For arbitrary types, when some enabled port q is not the receiving one: the eight-wide
  // form is right for all table contents exactly when every packet's own type fits the
  // path its block takes.
  lemma EmRefinesExactly(vs: seq<Packet>, portid: uint16, c: Config, q: uint8)
    requires EmRoomy(vs) && q < RTE_MAX_ETHPORTS && q != portid && PortEnabled(c.enabledPortMask, q)
    ensures (forall t: EmTables, i :: 0 <= i < |vs| ==>
               EmBurstPort(vs, i, portid, t, c) == EmGetDstPort(vs[i], portid, t, c))
            <==> (forall i :: 0 <= i < |vs| ==> TypeFitsPath(vs[i].ptype, PathOf(vs, i)))
  {
    var tq := EmTables(_ => Some(0), (_, _, _) => Some(0), _ => q, _ => q);
    forall i | 0 <= i < |vs| && !TypeFitsPath(vs[i].ptype, PathOf(vs, i))
      ensures EmBurstPort(vs, i, portid, tq, c) != EmGetDstPort(vs[i], portid, tq, c)
    {
      EmPortExactly(vs, i, portid, tq, c);
    }
    forall t: EmTables, i | 0 <= i < |vs| && TypeFitsPath(vs[i].ptype, PathOf(vs, i))
      ensures EmBurstPort(vs, i, portid, t, c) == EmGetDstPort(vs[i], portid, t, c)
    {
      EmPortExactly(vs, i, portid, t, c);
    }
  }

  // Types no parser of this program writes can make the AND look like plain IPv4: IPv4
  // with options and TCP, beside plain IPv4 and TCP.
  lemma AndMisleads()
    ensures var v := (RTE_PTYPE_L3_IPV4_EXT | RTE_PTYPE_L4_TCP) & (RTE_PTYPE_L3_IPV4 | RTE_PTYPE_L4_TCP);
            TcpOrUdp(v) && PlainIpv4(v)
    ensures !PlainIpv4(RTE_PTYPE_L3_IPV4_EXT | RTE_PTYPE_L4_TCP)
  {}
}
