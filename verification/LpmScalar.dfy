// l3fwd/l3fwd_lpm.h: the scalar path, one packet at a time through send_single_packet.
module LpmScalar {
  import opened Words
  import opened Wire
  import opened Headers
  import opened Checksum
  import opened PortMask
  import opened TxState
  import opened TxBuffer
  import opened LpmClassify
  import SendMulti

  // What the scalar path looks at besides the bytes and the type: the length the link
  // layer reports, and whether software has to check the IP checksum.
  datatype Meta = Meta(pktLen: nat, checkInSoftware: bool)

  // The masks and the checksum routine, which this model leaves open.
  datatype Config = Config(enabledPortMask: bv32, ipv4Cksum: seq<uint8> -> uint16)

  // is_valid_ipv4_pkt: 0, or the number of the violated rule negated.
  function IsValidIpv4Pkt(f: seq<uint8>, meta: Meta, c: Config): int
    requires MIN_ROOM <= |f|
  {
    if meta.pktLen < 20 then -1
    else if meta.checkInSoftware
            && Le16(f[CHECKSUM], f[CHECKSUM + 1]) != c.ipv4Cksum(f[CHECKSUM := 0][CHECKSUM + 1 := 0][ETH_HLEN..])
    then -2
    else IsValidIpv4Fields(f)
  }

  // rte_ipv4_cksum on a header that lies in the buffer: the complement of the folded sum of its
  // words, as the host reads them. The header is as long as its own length field says.
  ghost predicate SumsHeaders(c: Config) {
    forall h: seq<uint8> :: 20 <= |h| && 20 <= HeaderBytes(h[0]) <= |h| ==>
      c.ipv4Cksum(h) == 0xFFFF - Fold(SumLe(h[..HeaderBytes(h[0])]))
  }

  // Rule 2 of section 5.2.2 of RFC 1812: a stored checksum that is the computed one. It is
  // so exactly for a header that verifies and does not store all ones.
  ghost predicate SoundChecksum(f: seq<uint8>)
    requires 34 <= |f| && 14 + HeaderBytes(f[14]) <= |f|
  {
    Verifies(V4Header(f, HeaderBytes(f[14]))) && V4Checksum(f) != 0xFFFF
  }

  // The sum of a header is the sum with its field zeroed, and the field.
  lemma FieldZeroed(h: seq<uint8>, z: seq<uint8>)
    requires 20 <= |h| && |h| % 2 == 0 && z == h[10 := 0][11 := 0]
    ensures SumLe(h) == SumLe(z) + Le16(h[10], h[11]) && SumLe(z) >= Le16(h[0], h[1])
  {
    SumLeUpdate(h, z, 5);
    SumLeAtLeast(z, 0);
  }

  lemma StoredIsComputed(h: seq<uint8>)
    requires 20 <= |h| && |h| % 2 == 0 && h[0] > 0
    ensures var z := h[10 := 0][11 := 0];
            Fold(SumLe(z)) <= 0xFFFF
            && (Le16(h[10], h[11]) == 0xFFFF - Fold(SumLe(z)) <==> Verifies(h) && Le16(h[10], h[11]) != 0xFFFF)
  {
    var z, ck := h[10 := 0][11 := 0], Le16(h[10], h[11]);
    FieldZeroed(h, z);
    FoldMeaning(SumLe(z));
    VerifiesLe(h);
    ComplementExactly(SumLe(z), Fold(SumLe(z)), ck);
  }

  // Of a positive sum s that folds to x, only 0xFFFF - x, and 0xFFFF if that is 0, complete
  // a multiple of 65535.
  lemma ComplementExactly(s: nat, x: nat, ck: uint16)
    requires s > 0 && 0 < x <= 0xFFFF && Congruent(x, s)
    ensures ck == 0xFFFF - x <==> Congruent(s + ck, 0) && ck != 0xFFFF
  {
    var k := Quotient(x, s);
    if ck == 0xFFFF - x {
      CongruentBy(s + ck, 0, 1 - k);
    }
    if Congruent(s + ck, 0) {
      var l := Quotient(s + ck, 0);
      assert x + ck == (k + l) * 0xFFFF;
    }
  }

  // The header is a part of the frame, with its field zeroed or not.
  lemma HeaderPart(f: seq<uint8>, n: nat)
    requires 20 <= n && 14 + n <= |f| && MIN_ROOM <= |f|
    ensures var h := V4Header(f, n); var rest := f[CHECKSUM := 0][CHECKSUM + 1 := 0][ETH_HLEN..];
            && n <= |rest| && rest[..n] == h[10 := 0][11 := 0] && rest[0] == h[0] == f[14]
            && h[10] == f[CHECKSUM] && h[11] == f[CHECKSUM + 1]
            && V4Checksum(f) == Be16(h[10], h[11])
  {}

  // The comparison of is_valid_ipv4_pkt.
  lemma ComparedExactly(f: seq<uint8>, c: Config)
    requires SumsHeaders(c) && MIN_ROOM <= |f| && 5 <= V4Words(f) && 14 + HeaderBytes(f[14]) <= |f|
    ensures Le16(f[CHECKSUM], f[CHECKSUM + 1]) == c.ipv4Cksum(f[CHECKSUM := 0][CHECKSUM + 1 := 0][ETH_HLEN..])
            <==> SoundChecksum(f)
  {
    var n := HeaderBytes(f[14]);
    HeaderPart(f, n);
    ComparedHeader(V4Header(f, n), f[CHECKSUM := 0][CHECKSUM + 1 := 0][ETH_HLEN..], n, c);
  }

  lemma ComparedHeader(h: seq<uint8>, rest: seq<uint8>, n: nat, c: Config)
    requires SumsHeaders(c) && 20 <= n == |h| <= |rest| && n == HeaderBytes(h[0])
    requires rest[0] == h[0] && rest[..n] == h[10 := 0][11 := 0]
    ensures Le16(h[10], h[11]) == c.ipv4Cksum(rest) <==> Verifies(h) && Be16(h[10], h[11]) != 0xFFFF
  {
    StoredIsComputed(h);
    assert c.ipv4Cksum(rest) == 0xFFFF - Fold(SumLe(rest[..n]));
    assert Le16(h[10], h[11]) == 0xFFFF <==> Be16(h[10], h[11]) == 0xFFFF;
  }

  // What is_valid_ipv4_pkt answers, in the header's own terms.
  lemma ValidExactly(f: seq<uint8>, meta: Meta, c: Config)
    requires SumsHeaders(c) && MIN_ROOM <= |f| && 5 <= V4Words(f) && 14 + HeaderBytes(f[14]) <= |f|
    ensures IsValidIpv4Pkt(f, meta, c) == -1 <==> meta.pktLen < 20
    ensures IsValidIpv4Pkt(f, meta, c) == -2 <==> meta.pktLen >= 20 && meta.checkInSoftware && !SoundChecksum(f)
    ensures IsValidIpv4Pkt(f, meta, c) == 0
            <==> meta.pktLen >= 20 && (meta.checkInSoftware ==> SoundChecksum(f)) && V4WellFormed(f)
  {
    ComparedExactly(f, c);
    MalformedExactly(f);
    MalformedIffRulesFail(f);
  }

  // A hop that is not an enabled port is replaced by the receiving port.
  function Clamp(hop: uint16, portid: uint16, c: Config): uint16 {
    if hop >= RTE_MAX_ETHPORTS || !PortEnabled(c.enabledPortMask, hop) then portid else hop
  }

  // Where l3fwd_lpm_simple_forward sends a packet; BAD_PORT stands for freeing it.
  function SimpleDestination(p: Packet, meta: Meta, portid: uint16, t: Tables, c: Config): uint16
    requires p.Roomy()
  {
    if IsIpv4Hdr(p.ptype) then
      if IsValidIpv4Pkt(p.bytes, meta, c) < 0 then BAD_PORT
      else Clamp(LpmGetDstPort(p, portid, t), portid, c)
    else if IsIpv6Hdr(p.ptype) then Clamp(LpmGetDstPort(p, portid, t), portid, c)
    else BAD_PORT
  }

  // No table contents can make the scalar path use a port it must not.
  lemma SimpleDestinationSendable(p: Packet, meta: Meta, portid: uint16, t: Tables, c: Config)
    requires p.Roomy() && portid < RTE_MAX_ETHPORTS
    ensures var d := SimpleDestination(p, meta, portid, t, c);
            d == BAD_PORT || d == portid || (d < RTE_MAX_ETHPORTS && PortEnabled(c.enabledPortMask, d))
  {}

  // The scalar discipline: every buffer is below the receive burst size.
  ghost predicate Below(s: State<Mbuf>, cap: nat) {
    Sized(s) && forall p :: 0 <= p < RTE_MAX_ETHPORTS ==> |s.buf[p]| < cap
  }

  // The end of l3fwd_lpm_simple_forward, for a packet whose destination is d.
  method SendOrFree(conf: LcoreConf, m: Mbuf, d: uint16) returns (stats: TxStats)
    requires conf.Valid() && 1 <= conf.rxBurstSize <= MAX_PKT_BURST
    requires Below(conf.tx, conf.rxBurstSize) && Sendable(d)
    modifies conf`tx, conf.mTable, conf.len
    ensures conf.Valid() && Below(conf.tx, conf.rxBurstSize)
    ensures Delivered(old(conf.tx), conf.tx, [m], [d])
    ensures Sent(conf.tx) == Sent(old(conf.tx)) + stats.sent
    ensures Dropped(conf.tx) == Dropped(old(conf.tx)) + stats.dropped
  {
    ghost var s := conf.tx;
    if d == BAD_PORT {
      SendMulti.FreeBad(conf, [m], 0, 1);
      assert [m][0..1] == [m];
      SendMulti.FreeBadDelivers(s, [m], [d]);
      return TxStats(0, 1);
    }
    assert conf.Holds(d, s.buf[d]);
    var txLen := conf.len[d];
    var sent := conf.SendSinglePacket(m, d);
    EnqueueDelivers(s, d, [m], [d], conf.rxBurstSize, sent);
    EnqueueCounts(s, d, m, conf.rxBurstSize, sent);
    stats := TxStats(sent, if txLen + 1 == conf.rxBurstSize then conf.rxBurstSize - sent else 0);
  }

  // The first packets' destinations.
  ghost predicate Addressed(dest: seq<uint16>, vs: seq<Packet>, meta: seq<Meta>, portid: uint16, t: Tables, c: Config)
    requires AllRoomy(vs)
  {
    && |dest| <= |vs| == |meta|
    && forall i :: 0 <= i < |dest| ==> dest[i] == SimpleDestination(vs[i], meta[i], portid, t, c) && Sendable(dest[i])
  }

  // The counts since s, when nothing more than a burst has been delivered since.
  ghost predicate CountedSince(s: State<Mbuf>, u: State<Mbuf>, stats: TxStats) {
    Sent(u) == Sent(s) + stats.sent && Dropped(u) == Dropped(s) + stats.dropped
  }

  // ---------------------------------------------------------------- headers

  // dest_eth_addr, eight bytes a port as its 64-bit store writes them, and ports_eth_addr.
  datatype Macs = Macs(dest: seq<seq<uint8>>, src: seq<seq<uint8>>) {
    // val_eth holds the same addresses, twelve bytes in one register.
    ghost predicate Match(valEth: seq<Xmm>) {
      && |dest| == |src| == |valEth| == RTE_MAX_ETHPORTS
      && forall p :: 0 <= p < RTE_MAX_ETHPORTS ==>
           |dest[p]| == 8 && |src[p]| == 6 && valEth[p][..12] == dest[p][..6] + src[p]
    }
  }

  // How main fills val_eth: eight bytes of the destination address, of which the last two make
  // room for the source address.
  method InitAddresses(macs: Macs, valEth0: seq<Xmm>) returns (valEth: seq<Xmm>)
    requires |macs.dest| == |macs.src| == |valEth0| == RTE_MAX_ETHPORTS
    requires forall p :: 0 <= p < RTE_MAX_ETHPORTS ==> |macs.dest[p]| == 8 && |macs.src[p]| == 6
    ensures macs.Match(valEth)
    ensures forall p :: 0 <= p < RTE_MAX_ETHPORTS ==> valEth[p][..6] == macs.dest[p][..6] && valEth[p][6..12] == macs.src[p]
  {
    valEth := valEth0;
    for p := 0 to RTE_MAX_ETHPORTS
      invariant |valEth| == RTE_MAX_ETHPORTS
      invariant forall q :: 0 <= q < p ==>
        valEth[q][..6] == macs.dest[q][..6] && valEth[q][6..12] == macs.src[q] && valEth[q][..12] == macs.dest[q][..6] + macs.src[q]
    {
      var ve: Xmm := macs.dest[p] + valEth[p][8..];
      ve := ve[..6] + macs.src[p] + ve[12..];
      valEth := valEth[p := ve];
    }
  }

  // The frame once is_valid_ipv4_pkt has accepted it: its software check leaves the
  // checksum field zero.
  function Checked(f: seq<uint8>, ptype: bv32, meta: Meta): (r: seq<uint8>)
    requires MIN_ROOM <= |f|
    ensures |r| == |f|
  {
    if IsIpv4Hdr(ptype) && meta.checkInSoftware then f[CHECKSUM := 0][CHECKSUM + 1 := 0] else f
  }

  // The header work of l3fwd_lpm_simple_forward on an accepted packet: the eight bytes of
  // the destination address and two more, which the source address then replaces.
  method WriteHeaders(m: Mbuf, meta: Meta, d: uint16, macs: Macs, ghost valEth: seq<Xmm>)
    requires MIN_ROOM <= m.data.Length && d < RTE_MAX_ETHPORTS && macs.Match(valEth)
    modifies m.data
    ensures m.data[..] == Forwarded(Checked(old(m.data[..]), m.packetType, meta), m.packetType, valEth[d])
    ensures m.data[..6] == macs.dest[d][..6] && m.data[6..12] == macs.src[d]
  {
    ghost var z := Checked(m.data[..], m.packetType, meta);
    if IsIpv4Hdr(m.packetType) {
      if meta.checkInSoftware {
        m.data[CHECKSUM], m.data[CHECKSUM + 1] := 0, 0;
      }
      m.data[TTL] := Sub8(m.data[TTL], 1);
      var ck := Inc16(Le16(m.data[CHECKSUM], m.data[CHECKSUM + 1]));
      m.data[CHECKSUM], m.data[CHECKSUM + 1] := ck % 0x100, ck / 0x100;
    }
    assert m.data[..] == Rfc1812Frame(z, m.packetType);
    WriteMacs(m, d, macs);
    StoredMacs(z, m.packetType, macs.dest[d], macs.src[d], valEth[d], m.data[..]);
  }

  method WriteMacs(m: Mbuf, d: uint16, macs: Macs)
    requires MIN_ROOM <= m.data.Length && d < |macs.dest| && d < |macs.src|
    requires |macs.dest[d]| == 8 && |macs.src[d]| == 6
    modifies m.data
    ensures m.data[..] == macs.dest[d][..6] + macs.src[d] + old(m.data[12..])
  {
    forall i | 0 <= i < 8 { m.data[i] := macs.dest[d][i]; }
    forall i | 0 <= i < 6 { m.data[6 + i] := macs.src[d][i]; }
  }

  // The scalar writes are the byte-by-byte meaning the vector path has too.
  lemma StoredMacs(z: seq<uint8>, ptype: bv32, dest: seq<uint8>, src: seq<uint8>, ve: Xmm, out: seq<uint8>)
    requires MIN_ROOM <= |z| && |dest| == 8 && |src| == 6 && ve[..12] == dest[..6] + src
    requires out == dest[..6] + src + Rfc1812Frame(z, ptype)[12..]
    ensures out == Forwarded(z, ptype, ve)
  {
    assert forall i :: 0 <= i < 12 ==> out[i] == ve[..12][i] == ve[i];
    assert forall i :: 12 <= i < |z| ==> out[i] == Rfc1812Frame(z, ptype)[i];
  }

  // Both paths send an accepted packet with the same bytes exactly when the scalar path has
  // no IPv4 checksum to check in software, or the stored one is zero.
  lemma BytesAgreeExactly(f: seq<uint8>, ptype: bv32, meta: Meta, ve: Xmm)
    requires MIN_ROOM <= |f|
    ensures Forwarded(Checked(f, ptype, meta), ptype, ve) == Forwarded(f, ptype, ve)
            <==> !(IsIpv4Hdr(ptype) && meta.checkInSoftware) || Be16(f[CHECKSUM], f[CHECKSUM + 1]) == 0
  {
    var z := Checked(f, ptype, meta);
    var a, b := Forwarded(z, ptype, ve), Forwarded(f, ptype, ve);
    if IsIpv4Hdr(ptype) && meta.checkInSoftware {
      var lo, hi := f[CHECKSUM], f[CHECKSUM + 1];
      assert a[CHECKSUM] == 1 && a[CHECKSUM + 1] == 0;
      assert b[CHECKSUM] == Inc16(Le16(lo, hi)) % 0x100 && b[CHECKSUM + 1] == Inc16(Le16(lo, hi)) / 0x100;
      if lo == 0 && hi == 0 {
        assert z == f;
      }
    }
  }

  // ---------------------------------------------------------------- the burst

  // The packet left with its final bytes for port d, or was freed.
  ghost predicate Left(m: Mbuf, p: Packet, meta: Meta, d: uint16, valEth: seq<Xmm>)
    reads m, m.data
  {
    && p.Roomy() && m.packetType == p.ptype
    && (d != BAD_PORT ==>
          d < |valEth| && m.data[..] == Forwarded(Checked(p.bytes, p.ptype, meta), p.ptype, valEth[d]))
  }

  // The first packets have left, the others are as received.
  ghost predicate ScalarPhase(pkts: seq<Mbuf>, vs: seq<Packet>, meta: seq<Meta>, dest: seq<uint16>, valEth: seq<Xmm>)
    reads pkts, Buffers(pkts)
  {
    && |dest| <= |pkts| == |vs| == |meta|
    && (forall i {:trigger pkts[i]} :: 0 <= i < |dest| ==> Left(pkts[i], vs[i], meta[i], dest[i], valEth))
    && (forall i {:trigger pkts[i]} :: |dest| <= i < |pkts| ==>
          pkts[i].data[..] == vs[i].bytes && pkts[i].packetType == vs[i].ptype)
  }

  // The header work on a packet, if it is to be sent.
  method FinishMbuf(m: Mbuf, meta: Meta, d: uint16, macs: Macs, ghost valEth: seq<Xmm>, ghost p: Packet)
    requires p.Roomy() && m.data[..] == p.bytes && m.packetType == p.ptype && Sendable(d) && macs.Match(valEth)
    modifies m.data
    ensures Left(m, p, meta, d, valEth)
  {
    if d != BAD_PORT {
      WriteHeaders(m, meta, d, macs, valEth);
    }
  }

  // The same for packet j of the burst.
  method FinishOne(pkts: seq<Mbuf>, meta: seq<Meta>, d: uint16, macs: Macs, j: nat,
                   ghost valEth: seq<Xmm>, ghost vs: seq<Packet>, ghost dest: seq<uint16>)
    requires Burst(pkts) && AllRoomy(vs) && ScalarPhase(pkts, vs, meta, dest, valEth)
    requires |dest| == j < |pkts| && Sendable(d) && macs.Match(valEth)
    modifies pkts[j].data
    ensures ScalarPhase(pkts, vs, meta, dest + [d], valEth)
  {
    FinishMbuf(pkts[j], meta[j], d, macs, valEth, vs[j]);
  }

  // Sending packet j, after those before it since s.
  method ForwardOne(conf: LcoreConf, pkts: seq<Mbuf>, j: nat, d: uint16, stats: TxStats,
                    ghost s: State<Mbuf>, ghost dest: seq<uint16>)
    returns (r: TxStats)
    requires conf.Valid() && 1 <= conf.rxBurstSize <= MAX_PKT_BURST && Below(conf.tx, conf.rxBurstSize)
    requires |dest| == j < |pkts| <= MAX_PKT_BURST && Sendable(d) && forall i :: 0 <= i < |dest| ==> Sendable(dest[i])
    requires Delivered(s, conf.tx, pkts[..j], dest) && CountedSince(s, conf.tx, stats)
    requires Consistent(s) && Below(s, conf.rxBurstSize)
    modifies conf`tx, conf.mTable, conf.len
    ensures conf.Valid() && Below(conf.tx, conf.rxBurstSize)
    ensures Delivered(s, conf.tx, pkts[..j + 1], dest + [d]) && CountedSince(s, conf.tx, r)
  {
    ghost var u := conf.tx;
    var ret := SendOrFree(conf, pkts[j], d);
    DeliveredThen(s, u, conf.tx, pkts[..j], dest, [pkts[j]], [d]);
    OneLonger(pkts, j);
    SendMulti.CountsBounded(s, conf.tx, pkts[..j + 1], dest + [d]);
    r := TxStats(stats.sent + ret.sent, stats.dropped + ret.dropped);
  }

  // Where packet j goes, from the packet itself.
  method ScalarPort(pkts: seq<Mbuf>, meta: seq<Meta>, portid: uint16, t: Tables, c: Config, j: nat,
                    ghost valEth: seq<Xmm>, ghost vs: seq<Packet>, ghost dest: seq<uint16>)
    returns (d: uint16)
    requires AllRoomy(vs) && ScalarPhase(pkts, vs, meta, dest, valEth) && |dest| == j < |pkts|
    requires Addressed(dest, vs, meta, portid, t, c) && portid < RTE_MAX_ETHPORTS
    ensures Sendable(d) && Addressed(dest + [d], vs, meta, portid, t, c)
  {
    var m := pkts[j];
    d := SimpleDestination(Packet(m.data[..], m.packetType), meta[j], portid, t, c);
    SimpleDestinationSendable(vs[j], meta[j], portid, t, c);
  }

  // Both.
  method NextPort(pkts: seq<Mbuf>, meta: seq<Meta>, portid: uint16, t: Tables, c: Config, macs: Macs, j: nat,
                  ghost valEth: seq<Xmm>, ghost vs: seq<Packet>, ghost dest: seq<uint16>)
    returns (d: uint16)
    requires Burst(pkts) && AllRoomy(vs) && ScalarPhase(pkts, vs, meta, dest, valEth) && |dest| == j < |pkts|
    requires Addressed(dest, vs, meta, portid, t, c) && portid < RTE_MAX_ETHPORTS && macs.Match(valEth)
    modifies pkts[j].data
    ensures Sendable(d) && Addressed(dest + [d], vs, meta, portid, t, c)
    ensures ScalarPhase(pkts, vs, meta, dest + [d], valEth)
  {
    d := ScalarPort(pkts, meta, portid, t, c, j, valEth, vs, dest);
    FinishOne(pkts, meta, d, macs, j, valEth, vs, dest);
  }

  // The first |dest| packets of the burst are done.
  ghost predicate Sending(conf: LcoreConf, s: State<Mbuf>, pkts: seq<Mbuf>, vs: seq<Packet>, meta: seq<Meta>, portid: uint16,
                          t: Tables, c: Config, valEth: seq<Xmm>, dest: seq<uint16>, stats: TxStats)
    reads conf, conf.mTable, conf.len, pkts, Buffers(pkts)
  {
    && conf.Valid() && Below(conf.tx, conf.rxBurstSize)
    && AllRoomy(vs) && Addressed(dest, vs, meta, portid, t, c)
    && ScalarPhase(pkts, vs, meta, dest, valEth)
    && Delivered(s, conf.tx, pkts[..|dest|], dest) && CountedSince(s, conf.tx, stats)
  }

  // l3fwd_lpm_simple_forward on packet j: checks, lookup, headers, and sending or freeing it.
  method SimpleForward(conf: LcoreConf, pkts: seq<Mbuf>, meta: seq<Meta>, portid: uint16, t: Tables, c: Config, macs: Macs,
                  stats0: TxStats, j: nat, ghost s: State<Mbuf>, ghost valEth: seq<Xmm>, ghost vs: seq<Packet>,
                  ghost dest0: seq<uint16>)
    returns (stats: TxStats, ghost dest: seq<uint16>)
    requires Sending(conf, s, pkts, vs, meta, portid, t, c, valEth, dest0, stats0)
    requires Burst(pkts) && |dest0| == j < |pkts| <= MAX_PKT_BURST && portid < RTE_MAX_ETHPORTS && macs.Match(valEth)
    requires 1 <= conf.rxBurstSize <= MAX_PKT_BURST && Consistent(s) && Below(s, conf.rxBurstSize)
    modifies conf`tx, conf.mTable, conf.len, pkts[j].data
    ensures Sending(conf, s, pkts, vs, meta, portid, t, c, valEth, dest, stats) && |dest| == j + 1
  {
    var d := NextPort(pkts, meta, portid, t, c, macs, j, valEth, vs, dest0);
    stats := ForwardOne(conf, pkts, j, d, stats0, s, dest0);
    dest := dest0 + [d];
  }

  // l3fwd_lpm_no_opt_send_packets: the same delivery law as the vector path, with the
  // scalar destinations and the scalar bytes.
  method NoOptSendPackets(conf: LcoreConf, pkts: seq<Mbuf>, meta: seq<Meta>, portid: uint16, t: Tables, c: Config,
                          macs: Macs, ghost valEth: seq<Xmm>, ghost vs: seq<Packet>)
    returns (stats: TxStats, ghost dest: seq<uint16>)
    requires conf.Valid() && 1 <= conf.rxBurstSize <= MAX_PKT_BURST && Below(conf.tx, conf.rxBurstSize)
    requires Burst(pkts) && AllRoomy(vs) && |pkts| <= MAX_PKT_BURST && portid < RTE_MAX_ETHPORTS
    requires ScalarPhase(pkts, vs, meta, [], valEth) && macs.Match(valEth)
    modifies conf`tx, conf.mTable, conf.len, Buffers(pkts)
    ensures Sending(conf, old(conf.tx), pkts, vs, meta, portid, t, c, valEth, dest, stats) && |dest| == |pkts|
  {
    ghost var s := conf.tx;
    stats, dest := TxStats(0, 0), [];
    SendMulti.NothingDelivered(s);
    assert pkts[..0] == [];
    for j := 0 to |pkts|
      invariant Sending(conf, s, pkts, vs, meta, portid, t, c, valEth, dest, stats) && |dest| == j
    {
      stats, dest := SimpleForward(conf, pkts, meta, portid, t, c, macs, stats, j, s, valEth, vs, dest);
    }
  }

  // The scalar path keeps a hop that is the receiving port or an enabled one.
  predicate Keeps(hop: uint16, portid: uint16, c: Config) {
    hop == portid || (hop < RTE_MAX_ETHPORTS && PortEnabled(c.enabledPortMask, hop))
  }

  // When both paths send a packet to the same port or both free it, exactly. An IPv4 packet
  // that rfc1812_process frees is freed by both. Any other passes is_valid_ipv4_pkt unless it
  // is too short or fails the software checksum test; if it passes, its hop must be one that
  // the scalar path keeps, and if not, the hop must say BAD_PORT. For IPv6 the hop alone
  // decides. A packet of no such type is freed by the scalar path only.
  lemma PathsAgreeExactly(p: Packet, meta: Meta, portid: uint16, t: Tables, c: Config)
    requires p.Roomy() && portid < RTE_MAX_ETHPORTS
    ensures var hop := LpmGetDstPort(p, portid, t);
            SimpleDestination(p, meta, portid, t, c) == Rfc1812Port(p.bytes, p.ptype, hop)
            <==> if IsIpv4Hdr(p.ptype) then
                   || Malformed(p.bytes)
                   || (if IsValidIpv4Pkt(p.bytes, meta, c) in {-1, -2} then hop == BAD_PORT else Keeps(hop, portid, c))
                 else IsIpv6Hdr(p.ptype) && Keeps(hop, portid, c)
  {
    MalformedIffRulesFail(p.bytes);
  }

  // The enabled port of a hop, or the receiving one, in terms of the hop.
  lemma ClampExactly(hop: uint16, portid: uint16, c: Config)
    ensures Clamp(hop, portid, c) == if hop < 32 && PortEnabled(c.enabledPortMask, hop) then hop else portid
  {}

  // The scalar decision from the bytes alone, for the types lpm_parse_ptype writes. An IPv4
  // frame is freed exactly when the link says it is too short, its checksum was checked in
  // software and is not sound, or its header is not well formed. Any other IPv4 or IPv6 frame
  // goes to the next hop of its destination address if that is an enabled port, and else back.
  lemma DecidesByBytes(p: Packet, meta: Meta, portid: uint16, t: Tables, c: Config)
    requires p.Roomy() && SumsHeaders(c) && p.ptype == LpmParsePtype(p.bytes)
    requires V4WellFormed(p.bytes) ==> 14 + HeaderBytes(p.bytes[14]) <= |p.bytes|
    ensures var f := p.bytes;
            var hop := NextHop(p, portid, t) % 0x1_0000;
            var kept := if hop < 32 && PortEnabled(c.enabledPortMask, hop) then hop else portid;
            SimpleDestination(p, meta, portid, t, c) ==
              if EtherType(f) == 0x0800 then
                if meta.pktLen >= 20 && V4WellFormed(f) && (meta.checkInSoftware ==> SoundChecksum(f)) then kept else 0xFFFF
              else if EtherType(f) == 0x86DD then kept
              else 0xFFFF
  {
    ParsedByEtherType(p.bytes);
    LooksUpDestination(p, portid, t);
    ClampExactly(LpmGetDstPort(p, portid, t), portid, c);
    if V4WellFormed(p.bytes) {
      ValidExactly(p.bytes, meta, c);
    } else {
      MalformedExactly(p.bytes);
      MalformedIffRulesFail(p.bytes);
    }
  }

  // And when both paths do the same with a frame, from its bytes.
  lemma PathsAgreeByBytes(p: Packet, meta: Meta, portid: uint16, t: Tables, c: Config)
    requires p.Roomy() && portid < RTE_MAX_ETHPORTS && SumsHeaders(c) && p.ptype == LpmParsePtype(p.bytes)
    requires V4WellFormed(p.bytes) ==> 14 + HeaderBytes(p.bytes[14]) <= |p.bytes|
    ensures var f := p.bytes;
            var hop := NextHop(p, portid, t) % 0x1_0000;
            var kept := hop == portid || (hop < 32 && PortEnabled(c.enabledPortMask, hop));
            SimpleDestination(p, meta, portid, t, c) == Rfc1812Port(f, p.ptype, hop)
            <==> if EtherType(f) == 0x0800 then
                   || !V4WellFormed(f)
                   || (if meta.pktLen >= 20 && (meta.checkInSoftware ==> SoundChecksum(f)) then kept else hop == 0xFFFF)
                 else EtherType(f) == 0x86DD && kept
  {
    DecidesByBytes(p, meta, portid, t, c);
    ParsedByEtherType(p.bytes);
    MalformedExactly(p.bytes);
  }
}
