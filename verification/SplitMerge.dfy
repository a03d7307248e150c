// Bulk lookups over a burst of mixed IPv4 and IPv6 packets: l3fwd/l3fwd_fib.c and
// l3fwd/l3fwd_acl.c split the burst by type, look each part up in bulk, and merge the
// answers back with one cursor per type.
module SplitMerge {
  import opened Words
  import opened Wire
  import opened Headers
  import opened LpmClassify

  // How many of the first n packets are selected.
  function Before(sel: seq<bool>, n: nat): (r: nat)
    requires n <= |sel|
    ensures r <= n
  {
    if n == 0 then 0 else Before(sel, n - 1) + if sel[n - 1] then 1 else 0
  }

  // A selected packet's place in its part is below the size of any part that has it.
  lemma {:induction false} PlaceBelow(sel: seq<bool>, k: nat, n: nat)
    requires k < n <= |sel|
    ensures Before(sel, k) + (if sel[k] then 1 else 0) <= Before(sel, n)
    decreases n
  {
    if k == n - 1 {
    } else {
      PlaceBelow(sel, k, n - 1);
    }
  }

  // part holds, in burst order, the keys of the selected packets among the first n.
  ghost predicate Collected<K>(part: seq<K>, keys: seq<K>, sel: seq<bool>, n: nat) {
    && n <= |sel| == |keys| && Before(sel, n) <= |part|
    && forall i {:trigger sel[i]} :: 0 <= i < n && sel[i] ==>
         Before(sel, i) < |part| && part[Before(sel, i)] == keys[i]
  }

  // Appending the key of a selected packet.
  method Append<K>(part: array<K>, cnt: nat, key: K, ghost keys: seq<K>, ghost sel: seq<bool>, ghost i: nat)
    returns (cnt': nat)
    requires Collected(part[..], keys, sel, i) && cnt == Before(sel, i) && part.Length == |sel|
    requires i < |sel| && sel[i] && key == keys[i]
    modifies part
    ensures Collected(part[..], keys, sel, i + 1) && cnt' == Before(sel, i + 1)
  {
    ghost var old4 := part[..];
    part[cnt] := key;
    cnt' := cnt + 1;
    forall k {:trigger sel[k]} | 0 <= k < i + 1 && sel[k]
      ensures Before(sel, k) < |part[..]| && part[..][Before(sel, k)] == keys[k]
    {
      if k < i {
        PlaceBelow(sel, k, i);
        assert part[..][Before(sel, k)] == old4[Before(sel, k)];
      }
    }
  }

  // A packet that is not selected adds nothing.
  lemma Skip<K>(part: seq<K>, keys: seq<K>, sel: seq<bool>, i: nat)
    requires Collected(part, keys, sel, i) && i < |sel| && !sel[i]
    ensures Collected(part, keys, sel, i + 1) && Before(sel, i + 1) == Before(sel, i)
  {}

  // ---------------------------------------------------------------- FIB

  const FIB_DEFAULT_HOP: uint16 := 999

  // The bulk lookups, pointwise in their input.
  datatype FibTables = FibTables(v4: uint32 -> uint64, v6: seq<uint8> -> uint64)

  function Ipv6Dst(p: Packet): seq<uint8>
    requires p.Roomy()
  {
    p.bytes[38..54]
  }

  function FibPort(nh: uint64, portid: uint16): uint16 {
    var n: uint16 := nh % 0x1_0000;
    if n != FIB_DEFAULT_HOP then n else portid
  }

  // A packet's hop by its own address. Whatever is not IPv4 counts as IPv6.
  function FibHop(p: Packet, portid: uint16, t: FibTables): uint16
    requires p.Roomy()
  {
    FibPort(if IsIpv4Hdr(p.ptype) then t.v4(Be32(Ipv4Dst(p))) else t.v6(Ipv6Dst(p)), portid)
  }

  // What the parse loop will find: the types and the two addresses of every packet.
  ghost predicate Parsed(vs: seq<Packet>, is4: seq<bool>, not4: seq<bool>, keys4: seq<uint32>, keys6: seq<seq<uint8>>) {
    && AllRoomy(vs) && |is4| == |not4| == |keys4| == |keys6| == |vs|
    && forall i {:trigger vs[i]} :: 0 <= i < |vs| ==>
         && is4[i] == IsIpv4Hdr(vs[i].ptype) && not4[i] == !is4[i]
         && keys4[i] == Be32(Ipv4Dst(vs[i])) && keys6[i] == Ipv6Dst(vs[i])
  }

  lemma Parsing(vs: seq<Packet>) returns (is4: seq<bool>, not4: seq<bool>, keys4: seq<uint32>, keys6: seq<seq<uint8>>)
    requires AllRoomy(vs)
    ensures Parsed(vs, is4, not4, keys4, keys6)
  {
    is4 := seq(|vs|, i requires 0 <= i < |vs| => IsIpv4Hdr(vs[i].ptype));
    not4 := seq(|vs|, i requires 0 <= i < |vs| => !IsIpv4Hdr(vs[i].ptype));
    keys4 := seq(|vs|, i requires 0 <= i < |vs| => Be32(Ipv4Dst(vs[i])));
    keys6 := seq(|vs|, i requires 0 <= i < |vs| => Ipv6Dst(vs[i]));
  }

  lemma ParsedApart(vs: seq<Packet>, is4: seq<bool>, not4: seq<bool>, keys4: seq<uint32>, keys6: seq<seq<uint8>>)
    requires Parsed(vs, is4, not4, keys4, keys6)
    ensures forall i {:trigger not4[i]} {:trigger is4[i]} :: 0 <= i < |is4| ==> not4[i] == !is4[i]
  {
    forall i | 0 <= i < |is4|
      ensures not4[i] == !is4[i]
    {
      assert vs[i].Roomy();
    }
  }

  // fib_parse_packet, as far as the packet goes: its type and the address of that type.
  method FibParse(m: Mbuf) returns (isIpv4: bool, ipv4: uint32, ipv6: seq<uint8>)
    requires MIN_ROOM <= m.data.Length
    ensures var p := Packet(m.data[..], m.packetType);
            && isIpv4 == IsIpv4Hdr(p.ptype)
            && (if isIpv4 then ipv4 == Be32(Ipv4Dst(p)) else ipv6 == Ipv6Dst(p))
  {
    isIpv4, ipv4, ipv6 := IsIpv4Hdr(m.packetType), 0, [];
    assert m.data[IPV4_DST..IPV4_DST + 4] == m.data[..][IPV4_DST..IPV4_DST + 4];
    assert m.data[IPV6_DST..IPV6_DST + 16] == m.data[..][IPV6_DST..IPV6_DST + 16];
    if isIpv4 {
      ipv4 := Be32(m.data[IPV4_DST..IPV4_DST + 4]);
    } else {
      ipv6 := m.data[IPV6_DST..IPV6_DST + 16];
    }
  }

  // The parse loop of fib_send_packets.
  method FibSplit(pkts: seq<Mbuf>, ipv4: array<uint32>, ipv6: array<seq<uint8>>, types: array<bool>,
                  ghost vs: seq<Packet>, ghost is4: seq<bool>, ghost not4: seq<bool>,
                  ghost keys4: seq<uint32>, ghost keys6: seq<seq<uint8>>)
    requires Shows(pkts, vs) && Parsed(vs, is4, not4, keys4, keys6)
    requires ipv4.Length == ipv6.Length == types.Length == |pkts|
    modifies ipv4, ipv6, types
    ensures types[..] == is4
    ensures Collected(ipv4[..], keys4, is4, |pkts|) && Collected(ipv6[..], keys6, not4, |pkts|)
  {
    var ipv4Cnt, ipv6Cnt := 0, 0;
    for i := 0 to |pkts|
      invariant ipv4Cnt == Before(is4, i) && ipv6Cnt == Before(not4, i)
      invariant forall k :: 0 <= k < i ==> types[k] == is4[k]
      invariant Collected(ipv4[..], keys4, is4, i) && Collected(ipv6[..], keys6, not4, i)
    {
      var m := pkts[i];
      assert Packet(m.data[..], m.packetType) == vs[i];
      var isIpv4, addr4, addr6 := FibParse(m);
      types[i] := isIpv4;
      if isIpv4 {
        ipv4Cnt := Append(ipv4, ipv4Cnt, addr4, keys4, is4, i);
        Skip(ipv6[..], keys6, not4, i);
      } else {
        ipv6Cnt := Append(ipv6, ipv6Cnt, addr6, keys6, not4, i);
        Skip(ipv4[..], keys4, is4, i);
      }
    }
  }

  // The answer for packet i: the next one of its type.
  ghost function Answer<A>(res4: seq<A>, res6: seq<A>, is4: seq<bool>, not4: seq<bool>, i: nat): A
    requires i < |is4| == |not4| == |res4| == |res6|
  {
    if is4[i] then res4[Before(is4, i)] else res6[Before(not4, i)]
  }

  // The merge loop of fib_send_packets: one cursor per type.
  method FibMerge(types: array<bool>, hopsv4: array<uint64>, hopsv6: array<uint64>, portid: uint16,
                  hops: array<uint16>, ghost is4: seq<bool>, ghost not4: seq<bool>)
    requires types[..] == is4 && |not4| == |is4| && forall i {:trigger not4[i]} {:trigger is4[i]} :: 0 <= i < |is4| ==> not4[i] == !is4[i]
    requires hopsv4.Length == hopsv6.Length == hops.Length == |is4|
    modifies hops
    ensures forall i :: 0 <= i < |is4| ==>
              hops[i] == FibPort(Answer(hopsv4[..], hopsv6[..], is4, not4, i), portid)
    ensures forall i :: 0 <= i < |is4| ==>
              var nh := Answer(hopsv4[..], hopsv6[..], is4, not4, i) % 65536;
              hops[i] == if nh == 999 then portid else nh
  {
    ghost var res4, res6 := hopsv4[..], hopsv6[..];
    var n4, n6 := 0, 0;
    for i := 0 to hops.Length
      invariant n4 == Before(is4, i) && n6 == Before(not4, i)
      invariant forall k :: 0 <= k < i ==> hops[k] == FibPort(Answer(res4, res6, is4, not4, k), portid)
    {
      assert types[i] == is4[i] && not4[i] == !is4[i];
      var nh;
      if types[i] {
        nh := hopsv4[n4];
        n4 := n4 + 1;
      } else {
        nh := hopsv6[n6];
        n6 := n6 + 1;
      }
      assert nh == Answer(res4, res6, is4, not4, i);
      hops[i] := FibPort(nh, portid);
    }
  }

  // The merged answers are the packets' own.
  lemma OwnAnswers(part4: seq<uint32>, part6: seq<seq<uint8>>, res4: seq<uint64>, res6: seq<uint64>,
                   vs: seq<Packet>, is4: seq<bool>, not4: seq<bool>, keys4: seq<uint32>, keys6: seq<seq<uint8>>,
                   t: FibTables, i: nat)
    requires Parsed(vs, is4, not4, keys4, keys6) && i < |vs| == |res4| == |res6| == |part4| == |part6|
    requires Collected(part4, keys4, is4, |vs|) && Collected(part6, keys6, not4, |vs|)
    requires forall c :: 0 <= c < |res4| ==> res4[c] == t.v4(part4[c])
    requires forall c :: 0 <= c < |res6| ==> res6[c] == t.v6(part6[c])
    ensures Answer(res4, res6, is4, not4, i) == if IsIpv4Hdr(vs[i].ptype) then t.v4(Be32(Ipv4Dst(vs[i]))) else t.v6(Ipv6Dst(vs[i]))
  {
    assert vs[i].Roomy();
  }

  // rte_fib_lookup_bulk and rte_fib6_lookup_bulk, pointwise.
  method FibLookup4(ipv4: array<uint32>, t: FibTables) returns (res: array<uint64>)
    ensures fresh(res) && res.Length == ipv4.Length && forall c :: 0 <= c < res.Length ==> res[c] == t.v4(ipv4[c])
  {
    res := new uint64[ipv4.Length];
    forall c | 0 <= c < res.Length { res[c] := t.v4(ipv4[c]); }
  }

  method FibLookup6(ipv6: array<seq<uint8>>, t: FibTables) returns (res: array<uint64>)
    ensures fresh(res) && res.Length == ipv6.Length && forall c :: 0 <= c < res.Length ==> res[c] == t.v6(ipv6[c])
  {
    res := new uint64[ipv6.Length];
    forall c | 0 <= c < res.Length { res[c] := t.v6(ipv6[c]); }
  }

  // The split arrays, as fib_send_packets declares them.
  method FibParts(pkts: seq<Mbuf>, ghost vs: seq<Packet>, ghost is4: seq<bool>, ghost not4: seq<bool>,
                  ghost keys4: seq<uint32>, ghost keys6: seq<seq<uint8>>)
    returns (ipv4: array<uint32>, ipv6: array<seq<uint8>>, types: array<bool>)
    requires Shows(pkts, vs) && Parsed(vs, is4, not4, keys4, keys6)
    ensures fresh(ipv4) && fresh(ipv6) && fresh(types)
    ensures ipv4.Length == ipv6.Length == |pkts| && types[..] == is4
    ensures Collected(ipv4[..], keys4, is4, |pkts|) && Collected(ipv6[..], keys6, not4, |pkts|)
  {
    var n := |pkts|;
    ipv4, ipv6, types := new uint32[n], new seq<uint8>[n](_ => []), new bool[n];
    FibSplit(pkts, ipv4, ipv6, types, vs, is4, not4, keys4, keys6);
  }

  // fib_send_packets up to the sending: split, look up in bulk, merge. Every packet gets
  // the hop of its own address.
  method FibHops(pkts: seq<Mbuf>, portid: uint16, t: FibTables, ghost vs: seq<Packet>) returns (hops: array<uint16>)
    requires Shows(pkts, vs) && AllRoomy(vs)
    ensures fresh(hops) && hops.Length == |pkts|
    ensures forall i :: 0 <= i < |pkts| ==> hops[i] == FibHop(vs[i], portid, t)
    ensures forall i {:trigger vs[i]} :: 0 <= i < |pkts| ==>
              var f := vs[i].bytes;
              var nh := (if IsIpv4Hdr(vs[i].ptype) then t.v4(V4Destination(f)) else t.v6(V6Destination(f))) % 65536;
              hops[i] == if nh == 999 then portid else nh
  {
    ghost var is4, not4, keys4, keys6 := Parsing(vs);
    var ipv4, ipv6, types := FibParts(pkts, vs, is4, not4, keys4, keys6);
    var hopsv4 := FibLookup4(ipv4, t);
    var hopsv6 := FibLookup6(ipv6, t);
    hops := new uint16[|pkts|];
    ParsedApart(vs, is4, not4, keys4, keys6);
    FibMerge(types, hopsv4, hopsv6, portid, hops, is4, not4);
    forall i | 0 <= i < |pkts|
      ensures hops[i] == FibHop(vs[i], portid, t)
    {
      OwnAnswers(ipv4[..], ipv6[..], hopsv4[..], hopsv6[..], vs, is4, not4, keys4, keys6, t, i);
    }
    forall i | 0 <= i < |pkts|
      ensures var f := vs[i].bytes;
              var nh := (if IsIpv4Hdr(vs[i].ptype) then t.v4(V4Destination(f)) else t.v6(V6Destination(f))) % 65536;
              hops[i] == if nh == 999 then portid else nh
    {
      FibHopExactly(vs[i], portid, t);
    }
  }

  // ---------------------------------------------------------------- agreement with LPM

  // A packet's hop in plain terms: the answer for the header's own destination, cut to 16 bits,
  // unless that is 999, which stands for no route and means back to the receiving port.
  lemma FibHopExactly(p: Packet, portid: uint16, t: FibTables)
    requires p.Roomy()
    ensures var nh := (if IsIpv4Hdr(p.ptype) then t.v4(V4Destination(p.bytes)) else t.v6(V6Destination(p.bytes))) % 65536;
            FibHop(p, portid, t) == if nh == 999 then portid else nh
  {
    ReadsNet32(p.bytes, 30);
  }

  // The FIB holds the routes of the LPM tables and answers its default hop elsewhere.
  ghost predicate SameRoutes(t: FibTables, r: Tables) {
    && (forall a: uint32 :: t.v4(a) == match r.v4(a) case Some(hop) => hop case None => 999)
    && (forall a: seq<uint8> :: t.v6(a) == match r.v6(a) case Some(hop) => hop case None => 999)
  }

  // On the same routes the two lookup methods send a packet to the same port, exactly when it
  // has no route, or its hop is not taken for the default one, or that makes no difference.
  lemma FibAgreesExactly(p: Packet, portid: uint16, t: FibTables, r: Tables)
    requires p.Roomy() && (IsIpv4Hdr(p.ptype) || IsIpv6Hdr(p.ptype)) && SameRoutes(t, r)
    ensures FibHop(p, portid, t) == LpmGetDstPort(p, portid, r)
            <==> RouteOf(p, r).None? || RouteOf(p, r).value % 65536 != 999 || portid == 999
  {
    FibHopExactly(p, portid, t);
    LooksUpDestination(p, portid, r);
  }

  // A route that collides with the default hop.
  predicate Collides(route: Option<uint32>) { route.Some? && route.value % 65536 == 999 }

  // A frame for an address.
  lemma FrameTo4(a: uint32) returns (p: Packet)
    ensures p.Roomy() && IsIpv4Hdr(p.ptype) && V4Destination(p.bytes) == a
  {
    var b := [a / 0x100_0000, a / 0x1_0000 % 0x100, a / 0x100 % 0x100, a % 0x100];
    p := Packet(seq(30, _ => 0) + b + seq(20, _ => 0), RTE_PTYPE_L3_IPV4);
    assert p.bytes[30] == b[0] && p.bytes[31] == b[1] && p.bytes[32] == b[2] && p.bytes[33] == b[3];
    Digits(a);
  }

  lemma Digits(a: uint32)
    ensures (a / 0x100_0000 * 0x100 + a / 0x1_0000 % 0x100) * 0x1_0000 + (a / 0x100 % 0x100 * 0x100 + a % 0x100) == a
  {}

  lemma FrameTo6(a: Address6) returns (p: Packet)
    ensures p.Roomy() && IsIpv6Hdr(p.ptype) && !IsIpv4Hdr(p.ptype) && V6Destination(p.bytes) == a
  {
    p := Packet(seq(38, _ => 0) + a, RTE_PTYPE_L3_IPV6);
  }

  // So the FIB method is the LPM method for all packets and receiving ports exactly when no
  // route collides.
  lemma FibAgreesAlways(t: FibTables, r: Tables)
    requires SameRoutes(t, r)
    ensures (forall p: Packet, portid: uint16 ::
               p.Roomy() && (IsIpv4Hdr(p.ptype) || IsIpv6Hdr(p.ptype)) && portid < RTE_MAX_ETHPORTS
               ==> FibHop(p, portid, t) == LpmGetDstPort(p, portid, r))
            <==> (forall a: uint32 :: !Collides(r.v4(a))) && (forall a: Address6 :: !Collides(r.v6(a)))
  {
    forall a: uint32 | Collides(r.v4(a))
      ensures exists p: Packet :: p.Roomy() && IsIpv4Hdr(p.ptype) && FibHop(p, 0, t) != LpmGetDstPort(p, 0, r)
    {
      var p := FrameTo4(a);
      FibAgreesExactly(p, 0, t, r);
    }
    forall a: Address6 | Collides(r.v6(a))
      ensures exists p: Packet :: p.Roomy() && IsIpv6Hdr(p.ptype) && FibHop(p, 0, t) != LpmGetDstPort(p, 0, r)
    {
      var p := FrameTo6(a);
      FibAgreesExactly(p, 0, t, r);
    }
    forall p: Packet, portid: uint16 | p.Roomy() && (IsIpv4Hdr(p.ptype) || IsIpv6Hdr(p.ptype)) && portid < RTE_MAX_ETHPORTS
      ensures FibHop(p, portid, t) == LpmGetDstPort(p, portid, r) <==> !Collides(RouteOf(p, r))
    {
      FibAgreesExactly(p, portid, t, r);
    }
  }
}
