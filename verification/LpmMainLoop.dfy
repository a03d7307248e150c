// l3fwd/l3fwd_lpm.c: lpm_main_loop on its vector path, over whole runs.
module LpmMainLoop {
  import opened Words
  import opened Wire
  import opened Platform
  import opened Headers
  import opened FinishBurst
  import opened TxState
  import opened TxBuffer
  import opened SendMulti
  import opened LpmClassify
  import opened LcoreLoop

  // Lookups and receive ports name ports that exist.
  ghost predicate PortsExist(t: Tables, portid: uint16) {
    && portid < RTE_MAX_ETHPORTS
    && (forall a: uint32 :: t.v4(a).Some? ==> t.v4(a).value < RTE_MAX_ETHPORTS)
    && (forall a: seq<uint8> :: t.v6(a).Some? ==> t.v6(a).value < RTE_MAX_ETHPORTS)
  }

  // Where a packet goes: its own longest-prefix match, or nowhere if its header is bad.
  function Destination(p: Packet, portid: uint16, t: Tables): uint16
    requires p.Roomy()
  {
    Rfc1812Port(p.bytes, p.ptype, LpmGetDstPort(p, portid, t))
  }

  // The bytes it leaves with.
  function Outgoing(p: Packet, portid: uint16, t: Tables, valEth: seq<Xmm>): seq<uint8>
    requires p.Roomy() && LpmGetDstPort(p, portid, t) < |valEth|
  {
    Forwarded(p.bytes, p.ptype, valEth[LpmGetDstPort(p, portid, t)])
  }

  // A packet is processed right: its destination d and the bytes it leaves with.
  ghost predicate Goes(p: Packet, portid: uint16, t: Tables, valEth: seq<Xmm>, d: uint16, out: seq<uint8>) {
    && p.Roomy() && LpmGetDstPort(p, portid, t) < |valEth|
    && d == Destination(p, portid, t) && Sendable(d) && out == Outgoing(p, portid, t, valEth)
  }

  // What the tables answer for a frame, from its bytes alone.
  ghost function FrameHop(f: seq<uint8>, portid: uint16, t: Tables): uint32
    requires MIN_ROOM <= |f|
  {
    var route := if EtherType(f) == 0x0800 then t.v4(V4Destination(f))
                 else if EtherType(f) == 0x86DD then t.v6(V6Destination(f))
                 else None;
    match route case Some(hop) => hop case None => portid
  }

  // The forwarding decision from the bytes alone, for the types lpm_parse_ptype writes: an IPv4
  // frame that is not well formed is freed, any other frame goes to the next hop of its
  // destination address, or back where it came from, with the addresses of that port, and for
  // IPv4 with one less to live.
  lemma GoesByBytes(p: Packet, portid: uint16, t: Tables, valEth: seq<Xmm>, d: uint16, out: seq<uint8>)
    requires Goes(p, portid, t, valEth, d, out) && PortsExist(t, portid) && p.ptype == LpmParsePtype(p.bytes)
    ensures var f := p.bytes; var hop := FrameHop(f, portid, t); var v4 := EtherType(f) == 0x0800;
            && hop < |valEth| && |out| == |f|
            && d == (if v4 && !V4WellFormed(f) then 0xFFFF else hop)
            && out[..12] == valEth[hop][..12] && (v4 ==> V4Ttl(out) == (V4Ttl(f) as int + 255) % 256)
            && (forall i :: 12 <= i < |f| && (v4 ==> i != 22 && i != 24 && i != 25) ==> out[i] == f[i])
  {
    ParsedByEtherType(p.bytes);
    HopByBytes(p, portid, t);
    MalformedExactly(p.bytes);
    ForwardedFields(p.bytes, p.ptype, valEth[LpmGetDstPort(p, portid, t)]);
  }

  lemma HopByBytes(p: Packet, portid: uint16, t: Tables)
    requires p.Roomy() && PortsExist(t, portid) && p.ptype == LpmParsePtype(p.bytes)
    ensures LpmGetDstPort(p, portid, t) == FrameHop(p.bytes, portid, t)
  {
    ParsedByEtherType(p.bytes);
    LooksUpDestination(p, portid, t);
  }

  // A packet off the wire, and the receive queue it came in on.
  datatype Arrival = Arrival(pkt: Packet, rx: RxQueue)

  function FromQueue(frames: seq<Packet>, rx: RxQueue): (r: seq<Arrival>)
    ensures |r| == |frames|
  {
    seq(|frames|, i requires 0 <= i < |frames| => Arrival(frames[i], rx))
  }

  // The history of a core: the packets it received, in order, and where they went.
  datatype History = History(arrived: seq<Arrival>, mbufs: seq<Mbuf>, dest: seq<uint16>) {
    function Then(g: History): History {
      History(arrived + g.arrived, mbufs + g.mbufs, dest + g.dest)
    }
  }

  // Every packet of the history has its own destination and left with the right bytes.
  ghost predicate Gone(h: History, t: Tables, valEth: seq<Xmm>)
    reads h.mbufs, Buffers(h.mbufs)
  {
    && |h.arrived| == |h.mbufs| == |h.dest|
    && forall i {:trigger h.mbufs[i]} :: 0 <= i < |h.mbufs| ==>
         Goes(h.arrived[i].pkt, h.arrived[i].rx.port, t, valEth, h.dest[i], h.mbufs[i].data[..])
  }

  lemma GoneThen(h: History, g: History, t: Tables, valEth: seq<Xmm>)
    requires Gone(h, t, valEth) && Gone(g, t, valEth)
    ensures Gone(h.Then(g), t, valEth)
  {
    var r := h.Then(g);
    forall i | 0 <= i < |r.mbufs|
      ensures Goes(r.arrived[i].pkt, r.arrived[i].rx.port, t, valEth, r.dest[i], r.mbufs[i].data[..])
    {
      if i < |h.mbufs| {
        assert r.mbufs[i] == h.mbufs[i] && r.dest[i] == h.dest[i] && r.arrived[i] == h.arrived[i];
      } else {
        var k := i - |h.mbufs|;
        assert r.mbufs[i] == g.mbufs[k] && r.dest[i] == g.dest[k] && r.arrived[i] == g.arrived[k];
      }
    }
  }

  // f is the frame of packet i of the burst, and its destination and bytes are right.
  ghost predicate FrameFits(f: Frame, vs: seq<Packet>, i: nat, portid: uint16, t: Tables, valEth: seq<Xmm>) {
    && i < |vs| && AllRoomy(vs)
    && Right(f, valEth) && f.bytes == vs[i].bytes && f.ptype == vs[i].ptype
    && f.hop == BurstPort(vs, i, portid, t)
    && Goes(vs[i], portid, t, valEth, f.port, f.out)
  }

  // The frames of a burst's first n packets, and their final destinations.
  lemma {:induction false} FramesOf(vs: seq<Packet>, n: nat, portid: uint16, t: Tables, valEth: seq<Xmm>)
    returns (fr: seq<Frame>, d: seq<uint16>)
    requires n <= |vs| && AllRoomy(vs) && PortsExist(t, portid) && |valEth| == RTE_MAX_ETHPORTS
    ensures |fr| == n && AllRight(fr, valEth) && Ports(d, fr)
    ensures forall i {:trigger fr[i]} :: 0 <= i < n ==> FrameFits(fr[i], vs, i, portid, t, valEth)
    ensures forall i :: 0 <= i < n ==> Sendable(d[i])
  {
    fr, d := [], [];
    if n == 0 {
    } else {
      var fr0, d0 := FramesOf(vs, n - 1, portid, t, valEth);
      var f := FrameOf(vs, n - 1, portid, t, valEth);
      fr, d := fr0 + [f], d0 + [f.port];
      OneMoreRight(fr0, f, valEth);
    }
  }

  lemma FrameOf(vs: seq<Packet>, i: nat, portid: uint16, t: Tables, valEth: seq<Xmm>) returns (f: Frame)
    requires AllRoomy(vs) && i < |vs| && PortsExist(t, portid) && |valEth| == RTE_MAX_ETHPORTS
    ensures FrameFits(f, vs, i, portid, t, valEth)
  {
    var v := vs[i];
    LpmPortExactly(vs, i, portid, t);
    var hop := BurstPort(vs, i, portid, t);
    f := Frame(v.bytes, v.ptype, hop, Store16(v.bytes, Blend16(v.bytes[..16], valEth[hop], MASK_ETH)),
               Forwarded(v.bytes, v.ptype, valEth[hop]), Rfc1812Port(v.bytes, v.ptype, hop));
  }

  // l3fwd_lpm_send_packets: classify, finish, group and send one burst.
  method LpmSendPackets(conf: LcoreConf, pkts: seq<Mbuf>, portid: uint16, valEth: seq<Xmm>, t: Tables,
                        ghost vs: seq<Packet>, ghost rx: RxQueue)
    returns (stats: TxStats, ghost d: seq<uint16>)
    requires conf.Valid() && Burst(pkts) && |pkts| <= MAX_PKT_BURST
    requires Shows(pkts, vs) && AllRoomy(vs) && PortsExist(t, portid) && |valEth| == RTE_MAX_ETHPORTS && rx.port == portid
    modifies Buffers(pkts), conf`tx, conf.mTable, conf.len
    ensures conf.Valid() && Gone(History(FromQueue(vs, rx), pkts, d), t, valEth)
    ensures Delivered(old(conf.tx), conf.tx, pkts, d)
    ensures Sent(conf.tx) == Sent(old(conf.tx)) + stats.sent
    ensures Dropped(conf.tx) == Dropped(old(conf.tx)) + stats.dropped
  {
    var dst := new uint16[MAX_PKT_BURST + 2 * FWDSTEP];
    ghost var fr;
    fr, d := FramesOf(vs, |vs|, portid, t, valEth);
    ghost var _ := LpmProcessPackets(pkts, portid, dst, t, vs);
    Classified(pkts, dst, vs, fr, portid, t, valEth);
    stats := SendPacketsMulti(conf, pkts, dst, valEth, fr, d);
    AllGone(pkts, vs, fr, d, rx, t, valEth);
  }

  // Classification leaves the burst untouched, with its hops in dst.
  lemma Classified(pkts: seq<Mbuf>, dst: array<uint16>, vs: seq<Packet>, fr: seq<Frame>,
                   portid: uint16, t: Tables, valEth: seq<Xmm>)
    requires Shows(pkts, vs) && AllRoomy(vs) && |fr| == |vs| && |pkts| <= dst.Length
    requires forall i {:trigger fr[i]} :: 0 <= i < |vs| ==> FrameFits(fr[i], vs, i, portid, t, valEth)
    requires forall i :: 0 <= i < |vs| ==> dst[i] == BurstPort(vs, i, portid, t)
    ensures Progress(pkts, dst, fr, 0)
  {
    forall i | 0 <= i < |pkts|
      ensures Untouched(pkts[i], dst[i], fr[i])
    {
      assert FrameFits(fr[i], vs, i, portid, t, valEth);
    }
  }

  // A burst whose packets have their final bytes is a history.
  lemma AllGone(pkts: seq<Mbuf>, vs: seq<Packet>, fr: seq<Frame>, d: seq<uint16>,
                rx: RxQueue, t: Tables, valEth: seq<Xmm>)
    requires |pkts| == |vs| == |fr| && Ports(d, fr)
    requires forall i {:trigger fr[i]} :: 0 <= i < |vs| ==> FrameFits(fr[i], vs, i, rx.port, t, valEth)
    requires forall i {:trigger pkts[i]} :: 0 <= i < |pkts| ==> pkts[i].data[..] == fr[i].out
    ensures Gone(History(FromQueue(vs, rx), pkts, d), t, valEth)
  {
    forall i | 0 <= i < |pkts|
      ensures Goes(vs[i], rx.port, t, valEth, d[i], pkts[i].data[..])
    {
      assert FrameFits(fr[i], vs, i, rx.port, t, valEth);
    }
  }

  // ---------------------------------------------------------------- whole runs

  // What one receive queue yields when it is polled.
  type Poll = seq<Packet>

  // One turn of the loop: whether the drain is due, and what each queue yields.
  datatype Turn = Turn(drain: bool, polls: seq<Poll>)

  // The arrivals of the first n polls of a turn, queue by queue.
  function PollArrivals(polls: seq<Poll>, queues: seq<RxQueue>, n: nat): seq<Arrival>
    requires n <= |polls| && n <= |queues|
  {
    if n == 0 then [] else PollArrivals(polls, queues, n - 1) + FromQueue(polls[n - 1], queues[n - 1])
  }

  ghost predicate Polls(run: seq<Turn>, queues: seq<RxQueue>) {
    forall k :: 0 <= k < |run| ==> |run[k].polls| == |queues|
  }

  // Everything that arrived in a run's turns, in order.
  ghost function Arrivals(run: seq<Turn>, queues: seq<RxQueue>): seq<Arrival>
    requires Polls(run, queues)
  {
    if |run| == 0 then []
    else
      var k := |run| - 1;
      Arrivals(run[..k], queues) + PollArrivals(run[k].polls, queues, |queues|)
  }

  // What the environment may do in a turn: every queue is polled, a poll yields at most a
  // burst of packets, and ports exist.
  ghost predicate CanPoll(polls: seq<Poll>, queues: seq<RxQueue>, t: Tables, burst: nat) {
    && |polls| == |queues|
    && forall q :: 0 <= q < |queues| ==>
         |polls[q]| <= burst && AllRoomy(polls[q]) && PortsExist(t, queues[q].port)
  }

  ghost predicate Possible(run: seq<Turn>, queues: seq<RxQueue>, t: Tables, burst: nat) {
    forall k :: 0 <= k < |run| ==> CanPoll(run[k].polls, queues, t, burst)
  }

  // The core has done right by its history: every packet went to its own destination with
  // the right bytes and, per port, in arrival order, and no buffer came in twice.
  ghost predicate Faithful(h: History, conf: LcoreConf, t: Tables, valEth: seq<Xmm>)
    reads conf, conf.mTable, conf.len, h.mbufs, Buffers(h.mbufs)
  {
    conf.Valid() && Gone(h, t, valEth) && Distinct(h.mbufs) && Accounts(conf.tx, h.mbufs, h.dest)
  }

  // Receiving and sending one burst.
  method HandleBurst(conf: LcoreConf, frames: seq<Packet>, rx: RxQueue, valEth: seq<Xmm>, t: Tables, ghost h: History)
    returns (stats: TxStats, ghost g: History)
    requires Faithful(h, conf, t, valEth)
    requires |frames| <= MAX_PKT_BURST && AllRoomy(frames) && PortsExist(t, rx.port) && |valEth| == RTE_MAX_ETHPORTS
    modifies conf`tx, conf.mTable, conf.len
    ensures g.arrived == FromQueue(frames, rx) && Faithful(h.Then(g), conf, t, valEth)
    ensures Grown(old(conf.tx), conf.tx)
    ensures Sent(conf.tx) == Sent(old(conf.tx)) + stats.sent
    ensures Dropped(conf.tx) == Dropped(old(conf.tx)) + stats.dropped
  {
    ghost var s := conf.tx;
    var pkts := RxBurst(frames, rx);
    ghost var d;
    stats, d := LpmSendPackets(conf, pkts, rx.port, valEth, t, frames, rx);
    g := History(FromQueue(frames, rx), pkts, d);
    FaithfulThen(h, g, conf, s, t, valEth);
  }

  // A burst delivered since s continues the history.
  lemma FaithfulThen(h: History, g: History, conf: LcoreConf, s: State<Mbuf>, t: Tables, valEth: seq<Xmm>)
    requires conf.Valid() && Gone(h, t, valEth) && Gone(g, t, valEth)
    requires Accounts(s, h.mbufs, h.dest) && Delivered(s, conf.tx, g.mbufs, g.dest)
    requires Distinct(h.mbufs) && Distinct(g.mbufs)
    requires forall i, j :: 0 <= i < |h.mbufs| && 0 <= j < |g.mbufs| ==> h.mbufs[i] != g.mbufs[j]
    ensures Faithful(h.Then(g), conf, t, valEth)
  {
    GoneThen(h, g, t, valEth);
    AccountsThen(s, conf.tx, h.mbufs, h.dest, g.mbufs, g.dest);
  }

  // Polling one queue: receive, count, send, count.
  method PollQueue(conf: LcoreConf, stat: LcoreStat, frames: seq<Packet>, rx: RxQueue, valEth: seq<Xmm>, t: Tables,
                   ghost h: History)
    returns (ghost g: History)
    requires Faithful(h, conf, t, valEth)
    requires stat.Counts(|h.arrived|, Sent(conf.tx), Dropped(conf.tx))
    requires |frames| <= MAX_PKT_BURST && AllRoomy(frames) && PortsExist(t, rx.port) && |valEth| == RTE_MAX_ETHPORTS
    modifies conf`tx, conf.mTable, conf.len, stat
    ensures g.arrived == FromQueue(frames, rx) && Faithful(h.Then(g), conf, t, valEth)
    ensures Grown(old(conf.tx), conf.tx)
    ensures stat.Counts(|h.Then(g).arrived|, Sent(conf.tx), Dropped(conf.tx))
  {
    if |frames| == 0 {
      g := NO_HISTORY;
      assert h.Then(g) == h;
    } else {
      g := ReceiveBurst(conf, stat, frames, rx, valEth, t, h);
    }
  }

  method ReceiveBurst(conf: LcoreConf, stat: LcoreStat, frames: seq<Packet>, rx: RxQueue, valEth: seq<Xmm>, t: Tables,
                      ghost h: History)
    returns (ghost g: History)
    requires Faithful(h, conf, t, valEth)
    requires stat.Counts(|h.arrived|, Sent(conf.tx), Dropped(conf.tx))
    requires |frames| <= MAX_PKT_BURST && AllRoomy(frames) && PortsExist(t, rx.port) && |valEth| == RTE_MAX_ETHPORTS
    modifies conf`tx, conf.mTable, conf.len, stat
    ensures g.arrived == FromQueue(frames, rx) && Faithful(h.Then(g), conf, t, valEth)
    ensures Grown(old(conf.tx), conf.tx)
    ensures stat.Counts(|h.Then(g).arrived|, Sent(conf.tx), Dropped(conf.tx))
  {
    ghost var n, sent, freed := |h.arrived|, Sent(conf.tx), Dropped(conf.tx);
    stat.AddRx(|frames|, n, sent, freed);
    var stats;
    stats, g := HandleBurst(conf, frames, rx, valEth, t, h);
    stat.AddTx(stats.sent, stats.dropped, n + |frames|, sent, freed);
  }

  lemma ThenAssociative(h: History, f: History, g: History)
    ensures h.Then(f).Then(g) == h.Then(f.Then(g))
  {
    assert (h.arrived + f.arrived) + g.arrived == h.arrived + (f.arrived + g.arrived);
    assert (h.mbufs + f.mbufs) + g.mbufs == h.mbufs + (f.mbufs + g.mbufs);
    assert (h.dest + f.dest) + g.dest == h.dest + (f.dest + g.dest);
  }

  const NO_HISTORY: History := History([], [], [])

  // The first i queues have been polled since s, after history h.
  ghost predicate Polling(conf: LcoreConf, stat: LcoreStat, polls: seq<Poll>, queues: seq<RxQueue>, i: nat, valEth: seq<Xmm>,
                          t: Tables, h: History, g: History, s: State<Mbuf>)
    requires i <= |polls| && i <= |queues|
    reads conf, conf.mTable, conf.len, stat, h.mbufs, g.mbufs, Buffers(h.mbufs + g.mbufs)
  {
    && Faithful(h.Then(g), conf, t, valEth) && Grown(s, conf.tx)
    && stat.Counts(|h.Then(g).arrived|, Sent(conf.tx), Dropped(conf.tx))
    && g.arrived == PollArrivals(polls, queues, i)
  }

  method PollNext(conf: LcoreConf, stat: LcoreStat, polls: seq<Poll>, queues: seq<RxQueue>, i: nat, valEth: seq<Xmm>, t: Tables,
                  ghost h: History, ghost g: History, ghost s: State<Mbuf>)
    returns (ghost g': History)
    requires CanPoll(polls, queues, t, MAX_PKT_BURST) && i < |queues| && |valEth| == RTE_MAX_ETHPORTS
    requires Polling(conf, stat, polls, queues, i, valEth, t, h, g, s)
    modifies conf`tx, conf.mTable, conf.len, stat
    ensures Polling(conf, stat, polls, queues, i + 1, valEth, t, h, g', s)
  {
    ghost var u := conf.tx;
    ghost var f := PollQueue(conf, stat, polls[i], queues[i], valEth, t, h.Then(g));
    GrownThen(s, u, conf.tx);
    ThenAssociative(h, g, f);
    g' := g.Then(f);
  }

  // The receive half of a turn: every queue in turn.
  method PollAll(conf: LcoreConf, stat: LcoreStat, polls: seq<Poll>, queues: seq<RxQueue>, valEth: seq<Xmm>, t: Tables,
                 ghost h: History)
    returns (ghost g: History)
    requires Faithful(h, conf, t, valEth)
    requires stat.Counts(|h.arrived|, Sent(conf.tx), Dropped(conf.tx))
    requires CanPoll(polls, queues, t, MAX_PKT_BURST) && |valEth| == RTE_MAX_ETHPORTS
    modifies conf`tx, conf.mTable, conf.len, stat
    ensures Polling(conf, stat, polls, queues, |queues|, valEth, t, h, g, old(conf.tx))
  {
    g := NO_HISTORY;
    assert h.Then(g) == h;
    ghost var s := conf.tx;
    for i := 0 to |queues|
      invariant Polling(conf, stat, polls, queues, i, valEth, t, h, g, s)
    {
      g := PollNext(conf, stat, polls, queues, i, valEth, t, h, g, s);
    }
  }

  lemma GoneSendable(h: History, t: Tables, valEth: seq<Xmm>)
    requires Gone(h, t, valEth)
    ensures forall i :: 0 <= i < |h.dest| ==> Sendable(h.dest[i])
  {
    forall i | 0 <= i < |h.dest|
      ensures Sendable(h.dest[i])
    {
      assert Goes(h.arrived[i].pkt, h.arrived[i].rx.port, t, valEth, h.dest[i], h.mbufs[i].data[..]);
    }
  }

  // The points are the drain points of the turns of run.
  ghost predicate PointsOf(pts: seq<Point<Mbuf>>, run: seq<Turn>, queues: seq<RxQueue>)
    requires Polls(run, queues)
  {
    && |pts| == |run|
    && (|run| == 0
        || (var k := |run| - 1;
            && pts[k].n == |Arrivals(run[..k], queues)| && pts[k].drained == run[k].drain
            && PointsOf(pts[..k], run[..k], queues)))
  }

  lemma {:induction false} PointsOfAt(pts: seq<Point<Mbuf>>, run: seq<Turn>, queues: seq<RxQueue>, k: nat)
    requires Polls(run, queues) && PointsOf(pts, run, queues) && k < |run|
    ensures pts[k].n == |Arrivals(run[..k], queues)| && pts[k].drained == run[k].drain
  {
    var m := |run| - 1;
    if k == m {
    } else {
      PointsOfAt(pts[..m], run[..m], queues, k);
      assert run[..m][..k] == run[..k];
    }
  }

  // Where a core stands after the turns of run. Every packet that has arrived, in order, went
  // to its own destination with the right bytes; per port the packets offered and buffered
  // are exactly the port's packets in arrival order; the counters count; and every turn has a
  // drain point: a state on the way to this one that accounts for exactly what had arrived by
  // then, with the counters of that moment, and with the drained ports empty if a drain was due.
  ghost predicate Running(conf: LcoreConf, stat: LcoreStat, run: seq<Turn>, queues: seq<RxQueue>, ports: seq<nat>,
                          valEth: seq<Xmm>, t: Tables, h: History, pts: seq<Point<Mbuf>>)
    reads conf, conf.mTable, conf.len, stat, h.mbufs, Buffers(h.mbufs)
  {
    && Faithful(h, conf, t, valEth)
    && stat.Counts(|h.arrived|, Sent(conf.tx), Dropped(conf.tx))
    && Polls(run, queues) && h.arrived == Arrivals(run, queues)
    && PointsOf(pts, run, queues) && AllPoints(pts, h.mbufs, h.dest, ports, conf.tx)
  }

  // A core that has just started.
  lemma StartsRunning(conf: LcoreConf, stat: LcoreStat, queues: seq<RxQueue>, ports: seq<nat>, t: Tables, valEth: seq<Xmm>)
    requires conf.Valid() && Idle(conf.tx) && stat.rx == 0 && stat.tx == 0 && stat.dropped == 0
    ensures Running(conf, stat, [], queues, ports, valEth, t, NO_HISTORY, [])
  {
    IdleAccounts(conf.tx);
    IdleEmpty(conf.tx);
  }

  lemma PointsOfOn(pts: seq<Point<Mbuf>>, run: seq<Turn>, queues: seq<RxQueue>, pt: Point<Mbuf>, turn: Turn)
    requires Polls(run, queues) && PointsOf(pts, run, queues) && |turn.polls| == |queues|
    requires pt.n == |Arrivals(run, queues)| && pt.drained == turn.drain
    ensures Polls(run + [turn], queues) && PointsOf(pts + [pt], run + [turn], queues)
    ensures Arrivals(run + [turn], queues) == Arrivals(run, queues) + PollArrivals(turn.polls, queues, |queues|)
  {
    assert (run + [turn])[..|run|] == run && (pts + [pt])[..|pts|] == pts;
  }

  // One turn of lpm_main_loop: drain if due, then poll every queue.
  method TurnOn(conf: LcoreConf, stat: LcoreStat, ghost run: seq<Turn>, turn: Turn, queues: seq<RxQueue>, ports: seq<nat>,
                valEth: seq<Xmm>, t: Tables, ghost h: History, ghost pts: seq<Point<Mbuf>>)
    returns (ghost h': History, ghost pts': seq<Point<Mbuf>>)
    requires Running(conf, stat, run, queues, ports, valEth, t, h, pts)
    requires CanPoll(turn.polls, queues, t, MAX_PKT_BURST) && |valEth| == RTE_MAX_ETHPORTS
    requires forall i :: 0 <= i < |ports| ==> ports[i] < RTE_MAX_ETHPORTS
    modifies conf`tx, conf.mTable, conf.len, stat
    ensures Running(conf, stat, run + [turn], queues, ports, valEth, t, h', pts')
    ensures Grown(old(conf.tx), conf.tx)
  {
    ghost var s := conf.tx;
    ghost var q := DrainTurn(conf, stat, ports, turn.drain, h.mbufs, h.dest, pts);
    ghost var u := conf.tx;
    ghost var g := PollAll(conf, stat, turn.polls, queues, valEth, t, h);
    GrownThen(s, u, conf.tx);
    PointsThen(q, h.mbufs, h.dest, ports, u, conf.tx, g.mbufs, g.dest);
    PointsOfOn(pts, run, queues, q[|pts|], turn);
    h', pts' := h.Then(g), q;
  }

  // lpm_main_loop, until it is told to quit after any number of turns.
  method LpmMainLoop(conf: LcoreConf, queues: seq<RxQueue>, ports: seq<nat>, valEth: seq<Xmm>, t: Tables, run: seq<Turn>)
    returns (stat: LcoreStat, ghost h: History, ghost pts: seq<Point<Mbuf>>)
    requires conf.Valid() && Idle(conf.tx) && conf.rxBurstSize <= MAX_PKT_BURST
    requires |valEth| == RTE_MAX_ETHPORTS && Possible(run, queues, t, conf.rxBurstSize)
    requires forall i :: 0 <= i < |ports| ==> ports[i] < RTE_MAX_ETHPORTS
    modifies conf`tx, conf.mTable, conf.len
    ensures Running(conf, stat, run, queues, ports, valEth, t, h, pts)
  {
    stat := new LcoreStat();
    h, pts := NO_HISTORY, [];
    StartsRunning(conf, stat, queues, ports, t, valEth);
    for k := 0 to |run|
      invariant Running(conf, stat, run[..k], queues, ports, valEth, t, h, pts)
    {
      assert CanPoll(run[k].polls, queues, t, conf.rxBurstSize);
      h, pts := TurnOn(conf, stat, run[..k], run[k], queues, ports, valEth, t, h, pts);
      OneLonger(run, k);
    }
    assert run[..|run|] == run;
  }

  // ---------------------------------------------------------------- what a run keeps

  // The three counters, modulo their width, and the buffers add up.
  lemma CountersConserved(conf: LcoreConf, stat: LcoreStat, h: History, t: Tables, valEth: seq<Xmm>)
    requires Faithful(h, conf, t, valEth) && stat.Counts(|h.arrived|, Sent(conf.tx), Dropped(conf.tx))
    ensures |h.arrived| == Sent(conf.tx) + Dropped(conf.tx) + Buffered(conf.tx)
    ensures stat.rx == (stat.tx as nat + stat.dropped + Buffered(conf.tx)) % TWO64
  {
    GoneSendable(h, t, valEth);
    CountersAddUp(conf.tx, h.mbufs, h.dest, stat.rx, stat.tx, stat.dropped);
  }

  // Right after a full drain pass, at any turn of a run: rx = tx + dropped.
  lemma DrainPoint(conf: LcoreConf, stat: LcoreStat, run: seq<Turn>, queues: seq<RxQueue>, ports: seq<nat>,
                   valEth: seq<Xmm>, t: Tables, h: History, pts: seq<Point<Mbuf>>, k: nat)
    requires Running(conf, stat, run, queues, ports, valEth, t, h, pts) && k < |run|
    ensures pts[k].n == |Arrivals(run[..k], queues)| && pts[k].drained == run[k].drain
    ensures Balanced(pts[k], h.dest, ports, conf.tx)
  {
    GoneSendable(h, t, valEth);
    PointsOfAt(pts, run, queues, k);
    BalancedAt(pts, h.mbufs, h.dest, ports, conf.tx, k);
  }

  // With nothing buffered, the counters alone add up.
  lemma CountersEmpty(conf: LcoreConf, stat: LcoreStat, h: History, t: Tables, valEth: seq<Xmm>)
    requires Faithful(h, conf, t, valEth) && stat.Counts(|h.arrived|, Sent(conf.tx), Dropped(conf.tx))
    requires Buffered(conf.tx) == 0
    ensures stat.rx == (stat.tx as nat + stat.dropped) % TWO64
  {
    GoneSendable(h, t, valEth);
    CountersDrained(conf.tx, h.mbufs, h.dest, stat.rx, stat.tx, stat.dropped);
  }

  // A run that ends with a covering drain and receives nothing after it has everything sent
  // or dropped.
  lemma EndsDrained(conf: LcoreConf, stat: LcoreStat, run: seq<Turn>, queues: seq<RxQueue>, ports: seq<nat>,
                    valEth: seq<Xmm>, t: Tables, h: History, pts: seq<Point<Mbuf>>)
    requires Running(conf, stat, run, queues, ports, valEth, t, h, pts) && 0 < |run| && Listed(h.dest, ports)
    requires var last := run[|run| - 1]; last.drain && PollArrivals(last.polls, queues, |queues|) == []
    ensures Buffered(conf.tx) == 0
    ensures stat.rx == (stat.tx as nat + stat.dropped) % TWO64
  {
    GoneSendable(h, t, valEth);
    LastPoint(run, queues, pts);
    EndsEmpty(pts, h.mbufs, h.dest, ports, conf.tx);
    CountersEmpty(conf, stat, h, t, valEth);
  }

  lemma LastPoint(run: seq<Turn>, queues: seq<RxQueue>, pts: seq<Point<Mbuf>>)
    requires Polls(run, queues) && PointsOf(pts, run, queues) && 0 < |run|
    requires var last := run[|run| - 1]; last.drain && PollArrivals(last.polls, queues, |queues|) == []
    ensures pts[|run| - 1].n == |Arrivals(run, queues)| && pts[|run| - 1].drained
  {
    assert Arrivals(run[..|run| - 1], queues) + [] == Arrivals(run, queues);
  }

  // Each received buffer is in exactly one place, once: accepted, refused and freed, freed
  // for BAD_PORT, or buffered.
  lemma EachOnce(conf: LcoreConf, h: History, t: Tables, valEth: seq<Xmm>, i: nat)
    requires Faithful(h, conf, t, valEth) && i < |h.mbufs|
    ensures var s, m := conf.tx, h.mbufs[i];
            Bag(s.accepted)[m] + Bag(s.rejected)[m] + multiset(s.bad)[m] + Bag(s.buf)[m] == 1
  {
    GoneSendable(h, t, valEth);
    OnceEach(conf.tx, h.mbufs, h.dest, i);
  }
}
