// l3fwd/l3fwd_acl.c and l3fwd/l3fwd_acl_scalar.h: a burst of mixed packets through the
// IPv4 and IPv6 classifiers.
module AclClassify {
  import opened Words
  import opened Wire
  import opened Headers
  import opened LpmClassify
  import opened SplitMerge

  const FWD_PORT_SHIFT: nat := 1

  // What a classifier answers for the header bytes from the protocol field on: the user
  // data of the rule it picks, 0 if there is none.
  datatype Classifiers = Classifiers(v4: seq<uint8> -> uint32, v6: seq<uint8> -> uint32)

  // MBUF_IPV4_2PROTO and MBUF_IPV6_2PROTO
  function Proto4(p: Packet): seq<uint8>
    requires p.Roomy()
  {
    p.bytes[ETH_HLEN + 9..]
  }

  function Proto6(p: Packet): seq<uint8>
    requires p.Roomy()
  {
    p.bytes[ETH_HLEN + 6..]
  }

  // What the classifiers see: the fields at the offsets of ipv4_defs and ipv6_defs are the
  // packet's own.
  lemma ClassifierFields(p: Packet)
    requires p.Roomy()
    ensures var k, f := Proto4(p), p.bytes;
            && |k| + 23 == |f| && k[0] == V4Protocol(f) && Net32(k, 3) == V4Source(f) && Net32(k, 7) == V4Destination(f)
            && Net16(k, 11) == Net16(f, 34) && Net16(k, 13) == Net16(f, 36)
    ensures var k, f := Proto6(p), p.bytes;
            && |k| + 20 == |f| && k[0] == V6NextHeader(f) && k[2..18] == V6Source(f) && k[18..34] == V6Destination(f)
  {
    var k4, k6, f := Proto4(p), Proto6(p), p.bytes;
    forall i | 0 <= i < |k4|
      ensures k4[i] == f[i + 23]
    {}
    assert k6 == f[20..] && f[20..][2..18] == f[22..38] && f[20..][18..34] == f[38..54];
  }

  // (res & ACL_DENY_SIGNATURE) == 0 && res != 0, with the signature 0xf0000000.
  predicate Forwards(res: uint32) { res < 0x1000_0000 && res != 0 }

  // The decoded hop.
  function Decode(res: uint32): uint16 {
    if Forwards(res) then (res - FWD_PORT_SHIFT) % 0x1_0000 else BAD_PORT
  }

  // A packet's own classification; packets that are neither IPv4 nor IPv6 have none.
  function Result(p: Packet, c: Classifiers): uint32
    requires p.Roomy()
  {
    if IsIpv4Hdr(p.ptype) then c.v4(Proto4(p))
    else if IsIpv6Hdr(p.ptype) then c.v6(Proto6(p))
    else 0
  }

  datatype IpType = TypeNone | TypeIpv4 | TypeIpv6

  function TypeOf(ptype: bv32): IpType {
    if IsIpv4Hdr(ptype) then TypeIpv4 else if IsIpv6Hdr(ptype) then TypeIpv6 else TypeNone
  }

  // What the split will find.
  ghost predicate Sorted(vs: seq<Packet>, is4: seq<bool>, is6: seq<bool>, keys4: seq<seq<uint8>>, keys6: seq<seq<uint8>>) {
    && AllRoomy(vs) && |is4| == |is6| == |keys4| == |keys6| == |vs|
    && forall i {:trigger vs[i]} :: 0 <= i < |vs| ==>
         && is4[i] == (TypeOf(vs[i].ptype) == TypeIpv4) && is6[i] == (TypeOf(vs[i].ptype) == TypeIpv6)
         && keys4[i] == Proto4(vs[i]) && keys6[i] == Proto6(vs[i])
  }

  lemma Sorting(vs: seq<Packet>) returns (is4: seq<bool>, is6: seq<bool>, keys4: seq<seq<uint8>>, keys6: seq<seq<uint8>>)
    requires AllRoomy(vs)
    ensures Sorted(vs, is4, is6, keys4, keys6)
  {
    is4 := seq(|vs|, i requires 0 <= i < |vs| => TypeOf(vs[i].ptype) == TypeIpv4);
    is6 := seq(|vs|, i requires 0 <= i < |vs| => TypeOf(vs[i].ptype) == TypeIpv6);
    keys4 := seq(|vs|, i requires 0 <= i < |vs| => Proto4(vs[i]));
    keys6 := seq(|vs|, i requires 0 <= i < |vs| => Proto6(vs[i]));
  }

  // l3fwd_acl_prepare_acl_parameter, with l3fwd_acl_prepare_one_packet inlined.
  method Prepare(pkts: seq<Mbuf>, data4: array<seq<uint8>>, data6: array<seq<uint8>>, types: array<IpType>,
                 ghost vs: seq<Packet>, ghost is4: seq<bool>, ghost is6: seq<bool>,
                 ghost keys4: seq<seq<uint8>>, ghost keys6: seq<seq<uint8>>)
    requires Shows(pkts, vs) && Sorted(vs, is4, is6, keys4, keys6)
    requires data4.Length == data6.Length == types.Length == |pkts| && data4 != data6
    modifies data4, data6, types
    ensures forall i :: 0 <= i < |pkts| ==> types[i] == TypeOf(vs[i].ptype)
    ensures Collected(data4[..], keys4, is4, |pkts|) && Collected(data6[..], keys6, is6, |pkts|)
  {
    var num4, num6 := 0, 0;
    for i := 0 to |pkts|
      invariant num4 == Before(is4, i) && num6 == Before(is6, i)
      invariant forall k :: 0 <= k < i ==> types[k] == TypeOf(vs[k].ptype)
      invariant Collected(data4[..], keys4, is4, i) && Collected(data6[..], keys6, is6, i)
    {
      var m := pkts[i];
      assert Packet(m.data[..], m.packetType) == vs[i];
      if IsIpv4Hdr(m.packetType) {
        num4 := Append(data4, num4, m.data[..][ETH_HLEN + 9..], keys4, is4, i);
        types[i] := TypeIpv4;
        Skip(data6[..], keys6, is6, i);
      } else if IsIpv6Hdr(m.packetType) {
        num6 := Append(data6, num6, m.data[..][ETH_HLEN + 6..], keys6, is6, i);
        types[i] := TypeIpv6;
        Skip(data4[..], keys4, is4, i);
      } else {
        types[i] := TypeNone;
        Skip(data4[..], keys4, is4, i);
        Skip(data6[..], keys6, is6, i);
      }
    }
  }

  // The result the merge picks for packet i.
  ghost function Picked(res4: seq<uint32>, res6: seq<uint32>, is4: seq<bool>, is6: seq<bool>, i: nat): uint32
    requires i < |is4| == |is6| == |res4| == |res6|
  {
    if is4[i] then res4[Before(is4, i)] else if is6[i] then res6[Before(is6, i)] else 0
  }

  // How many of the first n packets the merge counts as dropped.
  ghost function Denied(res4: seq<uint32>, res6: seq<uint32>, is4: seq<bool>, is6: seq<bool>, n: nat): nat
    requires n <= |is4| == |is6| == |res4| == |res6|
  {
    if n == 0 then 0
    else Denied(res4, res6, is4, is6, n - 1) + if Forwards(Picked(res4, res6, is4, is6, n - 1)) then 0 else 1
  }

  // The merge loop of acl_process_pkts.
  method Merge(types: array<IpType>, res4: array<uint32>, res6: array<uint32>, hops: array<uint16>,
               ghost is4: seq<bool>, ghost is6: seq<bool>)
    returns (k: nat)
    requires types.Length == |is4| == |is6| == res4.Length == res6.Length == hops.Length
    requires forall i {:trigger types[i]} :: 0 <= i < |is4| ==> is4[i] == (types[i] == TypeIpv4) && is6[i] == (types[i] == TypeIpv6)
    modifies hops
    ensures forall i :: 0 <= i < |is4| ==> hops[i] == Decode(Picked(res4[..], res6[..], is4, is6, i))
    ensures k == Denied(res4[..], res6[..], is4, is6, |is4|)
  {
    ghost var r4, r6 := res4[..], res6[..];
    var n4, n6 := 0, 0;
    k := 0;
    for i := 0 to hops.Length
      invariant n4 == Before(is4, i) && n6 == Before(is6, i)
      invariant forall j :: 0 <= j < i ==> hops[j] == Decode(Picked(r4, r6, is4, is6, j))
      invariant k == Denied(r4, r6, is4, is6, i)
    {
      var res := 0;
      match types[i] {
        case TypeIpv4 =>
          res := res4[n4];
          n4 := n4 + 1;
        case TypeIpv6 =>
          res := res6[n6];
          n6 := n6 + 1;
        case TypeNone =>
      }
      assert res == Picked(r4, r6, is4, is6, i);
      if Forwards(res) {
        hops[i] := (res - FWD_PORT_SHIFT) % 0x1_0000;
      } else {
        hops[i] := BAD_PORT;
        k := k + 1;
      }
    }
  }

  // rte_acl_classify with one category, pointwise.
  method Classify(data: array<seq<uint8>>, cls: seq<uint8> -> uint32) returns (res: array<uint32>)
    ensures fresh(res) && res.Length == data.Length && forall c :: 0 <= c < res.Length ==> res[c] == cls(data[c])
  {
    res := new uint32[data.Length];
    forall c | 0 <= c < res.Length { res[c] := cls(data[c]); }
  }

  // The number of denied packets of a burst.
  function Drops(vs: seq<Packet>, c: Classifiers, n: nat): nat
    requires n <= |vs| && AllRoomy(vs)
  {
    if n == 0 then 0 else Drops(vs, c, n - 1) + if Forwards(Result(vs[n - 1], c)) then 0 else 1
  }

  lemma OwnResult(part4: seq<seq<uint8>>, part6: seq<seq<uint8>>, res4: seq<uint32>, res6: seq<uint32>, vs: seq<Packet>,
                  is4: seq<bool>, is6: seq<bool>, keys4: seq<seq<uint8>>, keys6: seq<seq<uint8>>, c: Classifiers, i: nat)
    requires Sorted(vs, is4, is6, keys4, keys6) && i < |vs| == |res4| == |res6| == |part4| == |part6|
    requires Collected(part4, keys4, is4, |vs|) && Collected(part6, keys6, is6, |vs|)
    requires forall k :: 0 <= k < |res4| ==> res4[k] == c.v4(part4[k])
    requires forall k :: 0 <= k < |res6| ==> res6[k] == c.v6(part6[k])
    ensures Picked(res4, res6, is4, is6, i) == Result(vs[i], c)
  {
    assert vs[i].Roomy();
  }

  lemma {:induction false} OwnDrops(part4: seq<seq<uint8>>, part6: seq<seq<uint8>>, res4: seq<uint32>, res6: seq<uint32>, vs: seq<Packet>,
                  is4: seq<bool>, is6: seq<bool>, keys4: seq<seq<uint8>>, keys6: seq<seq<uint8>>, c: Classifiers, n: nat)
    requires Sorted(vs, is4, is6, keys4, keys6) && n <= |vs| == |res4| == |res6| == |part4| == |part6|
    requires Collected(part4, keys4, is4, |vs|) && Collected(part6, keys6, is6, |vs|)
    requires forall k :: 0 <= k < |res4| ==> res4[k] == c.v4(part4[k])
    requires forall k :: 0 <= k < |res6| ==> res6[k] == c.v6(part6[k])
    ensures Denied(res4, res6, is4, is6, n) == Drops(vs, c, n)
  {
    if n == 0 {
    } else {
      OwnDrops(part4, part6, res4, res6, vs, is4, is6, keys4, keys6, c, n - 1);
      OwnResult(part4, part6, res4, res6, vs, is4, is6, keys4, keys6, c, n - 1);
    }
  }

  // The split arrays, as acl_process_pkts declares them.
  method AclParts(pkts: seq<Mbuf>, ghost vs: seq<Packet>, ghost is4: seq<bool>, ghost is6: seq<bool>,
                  ghost keys4: seq<seq<uint8>>, ghost keys6: seq<seq<uint8>>)
    returns (data4: array<seq<uint8>>, data6: array<seq<uint8>>, types: array<IpType>)
    requires Shows(pkts, vs) && Sorted(vs, is4, is6, keys4, keys6)
    ensures fresh(data4) && fresh(data6) && fresh(types)
    ensures data4.Length == data6.Length == types.Length == |pkts|
    ensures forall i :: 0 <= i < |pkts| ==> types[i] == TypeOf(vs[i].ptype)
    ensures Collected(data4[..], keys4, is4, |pkts|) && Collected(data6[..], keys6, is6, |pkts|)
  {
    var n := |pkts|;
    data4, data6, types := new seq<uint8>[n](_ => []), new seq<uint8>[n](_ => []), new IpType[n](_ => TypeNone);
    Prepare(pkts, data4, data6, types, vs, is4, is6, keys4, keys6);
  }

  // acl_process_pkts: every packet gets the hop decoded from its own classification, and
  // the answer is the number of packets whose classification does not forward.
  method AclProcessPkts(pkts: seq<Mbuf>, hops: array<uint16>, c: Classifiers, ghost vs: seq<Packet>) returns (k: nat)
    requires Shows(pkts, vs) && AllRoomy(vs) && hops.Length == |pkts|
    modifies hops
    ensures forall i :: 0 <= i < |pkts| ==> hops[i] == Decode(Result(vs[i], c))
    ensures k == Drops(vs, c, |vs|)
  {
    ghost var is4, is6, keys4, keys6 := Sorting(vs);
    var data4, data6, types := AclParts(pkts, vs, is4, is6, keys4, keys6);
    var res4 := Classify(data4, c.v4);
    var res6 := Classify(data6, c.v6);
    forall i | 0 <= i < |is4|
      ensures is4[i] == (types[i] == TypeIpv4) && is6[i] == (types[i] == TypeIpv6)
    {
      assert vs[i].Roomy();
    }
    k := Merge(types, res4, res6, hops, is4, is6);
    forall i | 0 <= i < |pkts|
      ensures hops[i] == Decode(Result(vs[i], c))
    {
      OwnResult(data4[..], data6[..], res4[..], res6[..], vs, is4, is6, keys4, keys6, c, i);
    }
    OwnDrops(data4[..], data6[..], res4[..], res6[..], vs, is4, is6, keys4, keys6, c, |vs|);
  }

  // The number of BAD_PORT hops of a burst.
  function BadHops(vs: seq<Packet>, c: Classifiers, n: nat): nat
    requires n <= |vs| && AllRoomy(vs)
  {
    if n == 0 then 0 else BadHops(vs, c, n - 1) + if Decode(Result(vs[n - 1], c)) == BAD_PORT then 1 else 0
  }

  // A result that forwards and yet decodes to BAD_PORT.
  predicate Disguised(res: uint32) { Forwards(res) && res % 0x1_0000 == 0 }

  // The answer of acl_process_pkts is the number of BAD_PORT hops exactly when no
  // packet's result is a multiple of 65536 that forwards.
  lemma {:induction false} CountExactly(vs: seq<Packet>, c: Classifiers, n: nat)
    requires n <= |vs| && AllRoomy(vs)
    ensures Drops(vs, c, n) <= BadHops(vs, c, n)
    ensures Drops(vs, c, n) == BadHops(vs, c, n)
            <==> forall i :: 0 <= i < n ==> !Disguised(Result(vs[i], c))
  {
    if n == 0 {
    } else {
      CountExactly(vs, c, n - 1);
      DecodesBad(Result(vs[n - 1], c));
    }
  }

  // The least such result.
  lemma DisguisedShows()
    ensures Disguised(0x1_0000) && Decode(0x1_0000) == BAD_PORT
  {}

  lemma DecodesBad(res: uint32)
    ensures Decode(res) == BAD_PORT <==> !Forwards(res) || Disguised(res)
  {
    if Forwards(res) {
      var q, r := (res - 1) / 0x1_0000, (res - 1) % 0x1_0000;
      assert res == 0x1_0000 * q + r + 1;
    }
  }
}
