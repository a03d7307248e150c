// l3fwd/l3fwd_sse.h: send_packets_multi, from received burst to sent, freed and buffered
// packets.
module SendMulti {
  import opened Words
  import opened Headers
  import opened PktGroup
  import opened FinishBurst
  import opened TxState
  import opened TxBuffer

  lemma {:induction false} TotalAtMost<T>(ss: seq<seq<T>>, m: nat)
    requires forall p :: 0 <= p < |ss| ==> |ss[p]| <= m
    ensures Total(ss) <= |ss| * m
  {
    if ss == [] {
    } else {
      TotalAtMost(ss[1..], m);
    }
  }

  // What one burst can send and drop: its own packets and those already buffered.
  lemma CountsBounded(s: State<Mbuf>, t: State<Mbuf>, ms: seq<Mbuf>, d: seq<uint16>)
    requires Consistent(s) && Consistent(t) && Delivered(s, t, ms, d)
    requires forall i :: 0 <= i < |d| ==> Sendable(d[i])
    requires forall p :: 0 <= p < RTE_MAX_ETHPORTS ==> |s.buf[p]| <= MAX_PKT_BURST
    requires |ms| <= MAX_PKT_BURST
    ensures Sent(t) + Dropped(t) - Sent(s) - Dropped(s) <= MAX_PKT_BURST + RTE_MAX_ETHPORTS * MAX_PKT_BURST
  {
    Conserved(s, t, ms, d);
    TotalAtMost(s.buf, MAX_PKT_BURST);
  }

  // Frees a group of BAD_PORT packets.
  method FreeBad(conf: LcoreConf, pkts: seq<Mbuf>, j: nat, k: nat)
    requires j + k <= |pkts|
    modifies conf`tx
    ensures conf.tx == old(conf.tx).(bad := old(conf.tx).bad + pkts[j..j + k])
  {
    var m := j;
    while m != j + k
      invariant j <= m <= j + k
      invariant conf.tx == old(conf.tx).(bad := old(conf.tx).bad + pkts[j..m])
      decreases j + k - m
    {
      conf.tx := conf.tx.(bad := conf.tx.bad + [pkts[m]]);
      assert pkts[j..m] + [pkts[m]] == pkts[j..m + 1];
      m := m + 1;
    }
  }

  lemma FreeBadDelivers(s: State<Mbuf>, ms: seq<Mbuf>, d: seq<uint16>)
    requires Consistent(s) && |ms| == |d| && forall i :: 0 <= i < |d| ==> d[i] == BAD_PORT
    ensures var t := s.(bad := s.bad + ms);
            && Delivered(s, t, ms, d) && Consistent(t)
            && Sent(t) == Sent(s) && Dropped(t) == Dropped(s) + |ms|
  {
    PacketsForUniform(ms, d, BAD_PORT, BAD_PORT);
    forall p | 0 <= p < RTE_MAX_ETHPORTS
      ensures PacketsFor(ms, d, p) == []
    {
      PacketsForUniform(ms, d, BAD_PORT, p);
    }
  }

  // One group of the walk: k packets from j on, all for port pn.
  method SendGroup(conf: LcoreConf, pkts: seq<Mbuf>, j: nat, k: nat, pn: uint16, ghost d: seq<uint16>)
    returns (stats: TxStats)
    requires conf.Valid() && |d| == |pkts| <= MAX_PKT_BURST && 1 <= k && j + k <= |pkts|
    requires Sendable(pn) && forall i :: j <= i < j + k ==> d[i] == pn
    modifies conf`tx, conf.mTable, conf.len
    ensures conf.Valid()
    ensures Delivered(old(conf.tx), conf.tx, pkts[j..j + k], d[j..j + k])
    ensures Sent(conf.tx) == Sent(old(conf.tx)) + stats.sent
    ensures Dropped(conf.tx) == Dropped(old(conf.tx)) + stats.dropped
  {
    ghost var s := conf.tx;
    if pn != BAD_PORT {
      ghost var took;
      stats, took := conf.SendPacketsx4(pn, pkts[j..j + k]);
      assert old(conf.Holds(pn, s.buf[pn]));
      Sendx4Delivers(s, pn, pkts[j..j + k], d[j..j + k], conf.txBurstSize, took);
    } else {
      FreeBad(conf, pkts, j, k);
      FreeBadDelivers(s, pkts[j..j + k], d[j..j + k]);
      stats := TxStats(0, k);
    }
  }

  lemma NothingDelivered(s: State<Mbuf>)
    requires Sized(s)
    ensures Delivered(s, s, [], [])
  {
    assert s.bad + [] == s.bad;
    assert forall p :: 0 <= p < RTE_MAX_ETHPORTS ==> s.offered[p] + s.buf[p] + [] == s.offered[p] + s.buf[p];
  }

  // One more group of the burst delivered, without exceeding what a burst can count.
  lemma GroupDelivered(s: State<Mbuf>, t: State<Mbuf>, u: State<Mbuf>, ms: seq<Mbuf>, d: seq<uint16>, j: nat, k: nat)
    requires Consistent(s) && Consistent(u) && |d| == |ms| <= MAX_PKT_BURST && j + k <= |ms|
    requires forall i :: 0 <= i < |d| ==> Sendable(d[i])
    requires forall p :: 0 <= p < RTE_MAX_ETHPORTS ==> |s.buf[p]| <= MAX_PKT_BURST
    requires Delivered(s, t, ms[..j], d[..j]) && Delivered(t, u, ms[j..j + k], d[j..j + k])
    ensures Delivered(s, u, ms[..j + k], d[..j + k])
    ensures Sent(u) + Dropped(u) - Sent(s) - Dropped(s) <= MAX_PKT_BURST + RTE_MAX_ETHPORTS * MAX_PKT_BURST
  {
    assert ms[..j] + ms[j..j + k] == ms[..j + k] && d[..j] + d[j..j + k] == d[..j + k];
    DeliveredThen(s, t, u, ms[..j], d[..j], ms[j..j + k], d[j..j + k]);
    CountsBounded(s, u, ms[..j + k], d[..j + k]);
  }

  // The walk has visited the run heads below j and delivered the packets before j.
  ghost predicate Walked(s: State<Mbuf>, t: State<Mbuf>, ms: seq<Mbuf>, d: seq<uint16>, j: nat,
                         stats: TxStats, visited: seq<nat>)
  {
    && j <= |ms| == |d| && (j < |d| ==> IsHead(d, j))
    && visited == RunHeads(d, j)
    && Delivered(s, t, ms[..j], d[..j])
    && Sent(t) == Sent(s) + stats.sent && Dropped(t) == Dropped(s) + stats.dropped
  }

  lemma WalkedOn(s: State<Mbuf>, t: State<Mbuf>, u: State<Mbuf>, ms: seq<Mbuf>, d: seq<uint16>,
                 j: nat, k: nat, j2: nat, stats: TxStats, ret: TxStats, visited: seq<nat>)
    returns (next: TxStats, visited': seq<nat>)
    requires Consistent(s) && Consistent(u) && |ms| <= MAX_PKT_BURST
    requires forall i :: 0 <= i < |d| ==> Sendable(d[i])
    requires forall p :: 0 <= p < RTE_MAX_ETHPORTS ==> |s.buf[p]| <= MAX_PKT_BURST
    requires Walked(s, t, ms, d, j, stats, visited) && j < |d| && IsRun(d, |d|, j, k)
    requires j2 == j + k && Delivered(t, u, ms[j..j + k], d[j..j + k])
    requires Sent(u) == Sent(t) + ret.sent && Dropped(u) == Dropped(t) + ret.dropped
    ensures next.sent as int == stats.sent as int + ret.sent as int
    ensures next.dropped as int == stats.dropped as int + ret.dropped as int
    ensures visited' == visited + [j]
    ensures Walked(s, u, ms, d, j2, next, visited')
  {
    GroupDelivered(s, t, u, ms, d, j, k);
    RunHeadsStep(d, j, k);
    next := TxStats(stats.sent + ret.sent, stats.dropped + ret.dropped);
    visited' := visited + [j];
  }

  // The packets have destinations the walk can handle, and no buffer of s is over-full.
  ghost predicate Walkable(s: State<Mbuf>, d: seq<uint16>) {
    && Consistent(s) && |d| <= MAX_PKT_BURST
    && (forall i :: 0 <= i < |d| ==> Sendable(d[i]))
    && (forall p :: 0 <= p < RTE_MAX_ETHPORTS ==> |s.buf[p]| <= MAX_PKT_BURST)
  }

  // One step of the walk: the group at j.
  method WalkOn(conf: LcoreConf, pkts: seq<Mbuf>, j: nat, k: nat, pn: uint16, stats0: TxStats,
                ghost d: seq<uint16>, ghost s: State<Mbuf>, ghost visited0: seq<nat>)
    returns (stats: TxStats, ghost visited: seq<nat>)
    requires conf.Valid() && Walkable(s, d) && Walked(s, conf.tx, pkts, d, j, stats0, visited0)
    requires j < |d| && pn == d[j] && IsRun(d, |d|, j, k)
    modifies conf`tx, conf.mTable, conf.len
    ensures conf.Valid() && Walked(s, conf.tx, pkts, d, j + k, stats, visited)
  {
    ghost var t := conf.tx;
    var ret := SendGroup(conf, pkts, j, k, pn, d);
    ghost var next;
    next, visited := WalkedOn(s, t, conf.tx, pkts, d, j, k, j + k, stats0, ret, visited0);
    stats := TxStats(stats0.sent + ret.sent, stats0.dropped + ret.dropped);
    assert stats == next;
  }

  // The send walk of send_packets_multi. It visits exactly the run heads, so its groups
  // tile the burst; every packet is delivered to its own port in arrival order or freed.
  method SendGroups(conf: LcoreConf, pkts: seq<Mbuf>, dst: array<uint16>, pnum: array<uint16>, ghost d: seq<uint16>)
    returns (stats: TxStats, ghost visited: seq<nat>)
    requires conf.Valid() && |d| == |pkts| <= MAX_PKT_BURST
    requires conf.len != dst && conf.len != pnum
    requires |pkts| <= dst.Length && dst[..|pkts|] == d && Counted(d, |pkts|, pnum[..])
    requires forall i :: 0 <= i < |d| ==> Sendable(d[i])
    modifies conf`tx, conf.mTable, conf.len
    ensures conf.Valid()
    ensures visited == RunHeads(d, |d|)
    ensures Delivered(old(conf.tx), conf.tx, pkts, d)
    ensures Sent(conf.tx) == Sent(old(conf.tx)) + stats.sent
    ensures Dropped(conf.tx) == Dropped(old(conf.tx)) + stats.dropped
  {
    ghost var s := conf.tx;
    stats, visited := TxStats(0, 0), [];
    assert forall p :: 0 <= p < RTE_MAX_ETHPORTS ==> conf.Holds(p, s.buf[p]);
    assert pkts[..0] == [] && d[..0] == [];
    NothingDelivered(s);
    var j := 0;
    while j < |pkts|
      invariant conf.Valid() && Walked(s, conf.tx, pkts, d, j, stats, visited)
    {
      var pn, k := dst[j], pnum[j];
      assert pn == dst[..|pkts|][j] == d[j];
      assert IsRun(d, |d|, j, pnum[..][j]);
      stats, visited := WalkOn(conf, pkts, j, k, pn, stats, d, s, visited);
      j := j + k;
    }
    assert pkts[..|pkts|] == pkts && d[..|d|] == d;
  }

  // send_packets_multi: every packet leaves with its final bytes and is delivered to its
  // final destination.
  method SendPacketsMulti(conf: LcoreConf, pkts: seq<Mbuf>, dst: array<uint16>, valEth: seq<Xmm>,
                          ghost fr: seq<Frame>, ghost d: seq<uint16>)
    returns (stats: TxStats)
    requires conf.Valid() && Burst(pkts) && |pkts| <= MAX_PKT_BURST
    requires Progress(pkts, dst, fr, 0) && Ports(d, fr) && AllRight(fr, valEth)
    requires dst.Length == MAX_PKT_BURST + 2 * FWDSTEP && conf.len != dst
    requires forall i :: 0 <= i < |d| ==> Sendable(d[i])
    modifies Buffers(pkts), dst, conf`tx, conf.mTable, conf.len
    ensures conf.Valid()
    ensures forall i {:trigger pkts[i]} :: 0 <= i < |pkts| ==> pkts[i].data[..] == fr[i].out
    ensures Delivered(old(conf.tx), conf.tx, pkts, d)
    ensures Sent(conf.tx) == Sent(old(conf.tx)) + stats.sent
    ensures Dropped(conf.tx) == Dropped(old(conf.tx)) + stats.dropped
  {
    var pnum := new uint16[MAX_PKT_BURST + 1];
    FinishAndGroup(pkts, dst, pnum, valEth, fr, d);
    assert Asked(0);
    forall i | 0 <= i < |pkts|
      ensures pkts[i].data[..] == fr[i].out
    {
      assert Finished(pkts[i], dst[i], fr[i]);
    }
    ghost var visited;
    stats, visited := SendGroups(conf, pkts, dst, pnum, d);
  }
}
