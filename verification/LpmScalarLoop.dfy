// l3fwd/l3fwd_lpm.c: lpm_main_loop on its scalar path, over whole runs.
module LpmScalarLoop {
  import opened Words
  import opened Platform
  import opened Headers
  import opened TxState
  import opened TxBuffer
  import opened LpmClassify
  import opened LpmScalar
  import opened LcoreLoop

  // A frame off the wire with what the link layer says about it, and the receive queue it came
  // in on.
  datatype Received = Received(pkt: Packet, meta: Meta)
  datatype Came = Came(recv: Received, rx: RxQueue)

  // One turn: whether the drain is due, and what each queue yields.
  datatype ScalarTurn = ScalarTurn(drain: bool, polls: seq<seq<Received>>)

  function Packets(poll: seq<Received>): (r: seq<Packet>)
    ensures |r| == |poll|
  {
    seq(|poll|, i requires 0 <= i < |poll| => poll[i].pkt)
  }

  function Metas(poll: seq<Received>): (r: seq<Meta>)
    ensures |r| == |poll|
  {
    seq(|poll|, i requires 0 <= i < |poll| => poll[i].meta)
  }

  function CameFrom(poll: seq<Received>, rx: RxQueue): (r: seq<Came>)
    ensures |r| == |poll|
  {
    seq(|poll|, i requires 0 <= i < |poll| => Came(poll[i], rx))
  }

  // What the environment may do in a turn.
  ghost predicate Able(polls: seq<seq<Received>>, queues: seq<RxQueue>, burst: nat) {
    && |polls| == |queues|
    && forall q :: 0 <= q < |queues| ==>
         |polls[q]| <= burst && AllRoomy(Packets(polls[q])) && queues[q].port < RTE_MAX_ETHPORTS
  }

  // What arrived in the first n polls of a turn, and in a run's turns, in order.
  ghost function TurnArrivals(polls: seq<seq<Received>>, queues: seq<RxQueue>, n: nat): seq<Came>
    requires n <= |polls| && n <= |queues|
  {
    if n == 0 then [] else TurnArrivals(polls, queues, n - 1) + CameFrom(polls[n - 1], queues[n - 1])
  }

  ghost predicate Polled(run: seq<ScalarTurn>, queues: seq<RxQueue>) {
    forall k :: 0 <= k < |run| ==> |run[k].polls| == |queues|
  }

  ghost function RunArrivals(run: seq<ScalarTurn>, queues: seq<RxQueue>): seq<Came>
    requires Polled(run, queues)
  {
    if |run| == 0 then []
    else
      var k := |run| - 1;
      RunArrivals(run[..k], queues) + TurnArrivals(run[k].polls, queues, |queues|)
  }

  // Each packet went to its own scalar destination, with its own bytes.
  ghost predicate Own(arr: seq<Came>, ms: seq<Mbuf>, d: seq<uint16>, t: Tables, c: Config, valEth: seq<Xmm>)
    reads ms, Buffers(ms)
  {
    && |arr| == |ms| == |d|
    && forall i {:trigger ms[i]} :: 0 <= i < |ms| ==> OwnOne(arr[i], ms[i], d[i], t, c, valEth)
  }

  ghost predicate OwnOne(a: Came, m: Mbuf, d: uint16, t: Tables, c: Config, valEth: seq<Xmm>)
    reads m, m.data
  {
    && a.recv.pkt.Roomy() && Sendable(d) && d == SimpleDestination(a.recv.pkt, a.recv.meta, a.rx.port, t, c)
    && Left(m, a.recv.pkt, a.recv.meta, d, valEth)
  }

  lemma OwnThen(arr1: seq<Came>, ms1: seq<Mbuf>, d1: seq<uint16>, arr2: seq<Came>, ms2: seq<Mbuf>, d2: seq<uint16>,
                t: Tables, c: Config, valEth: seq<Xmm>)
    requires Own(arr1, ms1, d1, t, c, valEth) && Own(arr2, ms2, d2, t, c, valEth)
    ensures Own(arr1 + arr2, ms1 + ms2, d1 + d2, t, c, valEth)
  {
    var arr, ms, d := arr1 + arr2, ms1 + ms2, d1 + d2;
    forall i | 0 <= i < |ms|
      ensures OwnOne(arr[i], ms[i], d[i], t, c, valEth)
    {
      if i < |ms1| {
        assert ms[i] == ms1[i] && arr[i] == arr1[i] && d[i] == d1[i];
      } else {
        var k := i - |ms1|;
        assert ms[i] == ms2[k] && arr[i] == arr2[k] && d[i] == d2[k];
      }
    }
  }

  lemma OwnSendable(arr: seq<Came>, ms: seq<Mbuf>, d: seq<uint16>, t: Tables, c: Config, valEth: seq<Xmm>)
    requires Own(arr, ms, d, t, c, valEth)
    ensures forall i :: 0 <= i < |d| ==> Sendable(d[i])
  {
    forall i | 0 <= i < |d|
      ensures Sendable(d[i])
    {
      assert OwnOne(arr[i], ms[i], d[i], t, c, valEth);
    }
  }

  // A burst that has been sent is a piece of history.
  lemma BurstOwn(poll: seq<Received>, rx: RxQueue, ms: seq<Mbuf>, d: seq<uint16>, t: Tables, c: Config, valEth: seq<Xmm>)
    requires AllRoomy(Packets(poll)) && |ms| == |d| == |poll|
    requires Addressed(d, Packets(poll), Metas(poll), rx.port, t, c)
    requires ScalarPhase(ms, Packets(poll), Metas(poll), d, valEth)
    ensures Own(CameFrom(poll, rx), ms, d, t, c, valEth)
  {
    forall i | 0 <= i < |ms|
      ensures OwnOne(CameFrom(poll, rx)[i], ms[i], d[i], t, c, valEth)
    {
      assert Left(ms[i], Packets(poll)[i], Metas(poll)[i], d[i], valEth);
    }
  }

  // What has happened so far: what arrived, in which buffers, and where it went.
  datatype Log = Log(arr: seq<Came>, ms: seq<Mbuf>, d: seq<uint16>) {
    function Then(g: Log): Log { Log(arr + g.arr, ms + g.ms, d + g.d) }
  }

  // The core has done right by its log, within its buffers; no packet came in twice.
  ghost predicate Delivering(conf: LcoreConf, l: Log, t: Tables, c: Config, valEth: seq<Xmm>)
    reads conf, conf.mTable, conf.len, l.ms, Buffers(l.ms)
  {
    && conf.Valid() && Below(conf.tx, conf.rxBurstSize)
    && Own(l.arr, l.ms, l.d, t, c, valEth) && Distinct(l.ms) && Accounts(conf.tx, l.ms, l.d)
  }

  // Receiving and forwarding one burst.
  method HandleBurst(conf: LcoreConf, poll: seq<Received>, rx: RxQueue, t: Tables, c: Config, macs: Macs,
                     ghost valEth: seq<Xmm>, ghost l: Log)
    returns (stats: TxStats, ghost g: Log)
    requires Delivering(conf, l, t, c, valEth) && macs.Match(valEth) && 1 <= conf.rxBurstSize <= MAX_PKT_BURST
    requires |poll| <= MAX_PKT_BURST && AllRoomy(Packets(poll)) && rx.port < RTE_MAX_ETHPORTS
    modifies conf`tx, conf.mTable, conf.len
    ensures g.arr == CameFrom(poll, rx) && Delivering(conf, l.Then(g), t, c, valEth)
    ensures Grown(old(conf.tx), conf.tx) && CountedSince(old(conf.tx), conf.tx, stats)
  {
    ghost var s := conf.tx;
    var vs := Packets(poll);
    var pkts := RxBurst(vs, rx);
    ghost var d;
    stats, d := NoOptSendPackets(conf, pkts, Metas(poll), rx.port, t, c, macs, valEth, vs);
    BurstOwn(poll, rx, pkts, d, t, c, valEth);
    g := Log(CameFrom(poll, rx), pkts, d);
    assert pkts[..|pkts|] == pkts;
    DeliveringThen(conf, l, g, s, t, c, valEth);
  }

  // A burst delivered since s continues the log.
  lemma DeliveringThen(conf: LcoreConf, l: Log, g: Log, s: State<Mbuf>, t: Tables, c: Config, valEth: seq<Xmm>)
    requires conf.Valid() && Below(conf.tx, conf.rxBurstSize)
    requires Own(l.arr, l.ms, l.d, t, c, valEth) && Own(g.arr, g.ms, g.d, t, c, valEth)
    requires Accounts(s, l.ms, l.d) && Delivered(s, conf.tx, g.ms, g.d)
    requires Distinct(l.ms) && Distinct(g.ms)
    requires forall i, j :: 0 <= i < |l.ms| && 0 <= j < |g.ms| ==> l.ms[i] != g.ms[j]
    ensures Delivering(conf, l.Then(g), t, c, valEth)
  {
    AccountsThen(s, conf.tx, l.ms, l.d, g.ms, g.d);
    OwnThen(l.arr, l.ms, l.d, g.arr, g.ms, g.d, t, c, valEth);
  }

  lemma ThenAssociative(h: Log, f: Log, g: Log)
    ensures h.Then(f).Then(g) == h.Then(f.Then(g))
  {
    assert (h.arr + f.arr) + g.arr == h.arr + (f.arr + g.arr);
    assert (h.ms + f.ms) + g.ms == h.ms + (f.ms + g.ms);
    assert (h.d + f.d) + g.d == h.d + (f.d + g.d);
  }

  const NO_LOG: Log := Log([], [], [])

  // Polling one queue: receive, count, send, count.
  method PollQueue(conf: LcoreConf, stat: LcoreStat, poll: seq<Received>, rx: RxQueue, t: Tables, c: Config, macs: Macs,
                   ghost valEth: seq<Xmm>, ghost l: Log)
    returns (ghost g: Log)
    requires Delivering(conf, l, t, c, valEth) && macs.Match(valEth) && 1 <= conf.rxBurstSize <= MAX_PKT_BURST
    requires stat.Counts(|l.arr|, Sent(conf.tx), Dropped(conf.tx))
    requires |poll| <= MAX_PKT_BURST && AllRoomy(Packets(poll)) && rx.port < RTE_MAX_ETHPORTS
    modifies conf`tx, conf.mTable, conf.len, stat
    ensures g.arr == CameFrom(poll, rx) && Delivering(conf, l.Then(g), t, c, valEth)
    ensures Grown(old(conf.tx), conf.tx) && stat.Counts(|l.Then(g).arr|, Sent(conf.tx), Dropped(conf.tx))
  {
    if |poll| == 0 {
      g := NO_LOG;
      assert l.Then(g) == l;
    } else {
      g := ReceiveBurst(conf, stat, poll, rx, t, c, macs, valEth, l);
    }
  }

  method ReceiveBurst(conf: LcoreConf, stat: LcoreStat, poll: seq<Received>, rx: RxQueue, t: Tables, c: Config, macs: Macs,
                      ghost valEth: seq<Xmm>, ghost l: Log)
    returns (ghost g: Log)
    requires Delivering(conf, l, t, c, valEth) && macs.Match(valEth) && 1 <= conf.rxBurstSize <= MAX_PKT_BURST
    requires stat.Counts(|l.arr|, Sent(conf.tx), Dropped(conf.tx))
    requires |poll| <= MAX_PKT_BURST && AllRoomy(Packets(poll)) && rx.port < RTE_MAX_ETHPORTS
    modifies conf`tx, conf.mTable, conf.len, stat
    ensures g.arr == CameFrom(poll, rx) && Delivering(conf, l.Then(g), t, c, valEth)
    ensures Grown(old(conf.tx), conf.tx) && stat.Counts(|l.Then(g).arr|, Sent(conf.tx), Dropped(conf.tx))
  {
    ghost var n, sent, freed := |l.arr|, Sent(conf.tx), Dropped(conf.tx);
    stat.AddRx(|poll|, n, sent, freed);
    var stats;
    stats, g := HandleBurst(conf, poll, rx, t, c, macs, valEth, l);
    stat.AddTx(stats.sent, stats.dropped, n + |poll|, sent, freed);
  }

  // The first i queues have been polled since s, after log l.
  ghost predicate Polling(conf: LcoreConf, stat: LcoreStat, polls: seq<seq<Received>>, queues: seq<RxQueue>, i: nat,
                          t: Tables, c: Config, valEth: seq<Xmm>, l: Log, g: Log, s: State<Mbuf>)
    requires i <= |polls| && i <= |queues|
    reads conf, conf.mTable, conf.len, stat, l.ms, g.ms, Buffers(l.ms + g.ms)
  {
    && Delivering(conf, l.Then(g), t, c, valEth) && Grown(s, conf.tx)
    && stat.Counts(|l.Then(g).arr|, Sent(conf.tx), Dropped(conf.tx))
    && g.arr == TurnArrivals(polls, queues, i)
  }

  method PollNext(conf: LcoreConf, stat: LcoreStat, polls: seq<seq<Received>>, queues: seq<RxQueue>, i: nat, t: Tables, c: Config,
                  macs: Macs, ghost valEth: seq<Xmm>, ghost l: Log, ghost g: Log, ghost s: State<Mbuf>)
    returns (ghost g': Log)
    requires Able(polls, queues, MAX_PKT_BURST) && i < |queues| && macs.Match(valEth)
    requires 1 <= conf.rxBurstSize <= MAX_PKT_BURST
    requires Polling(conf, stat, polls, queues, i, t, c, valEth, l, g, s)
    modifies conf`tx, conf.mTable, conf.len, stat
    ensures Polling(conf, stat, polls, queues, i + 1, t, c, valEth, l, g', s)
  {
    ghost var u := conf.tx;
    ghost var f := PollQueue(conf, stat, polls[i], queues[i], t, c, macs, valEth, l.Then(g));
    GrownThen(s, u, conf.tx);
    ThenAssociative(l, g, f);
    g' := g.Then(f);
  }

  // The receive half of a turn.
  method PollAll(conf: LcoreConf, stat: LcoreStat, polls: seq<seq<Received>>, queues: seq<RxQueue>, t: Tables, c: Config,
                 macs: Macs, ghost valEth: seq<Xmm>, ghost l: Log)
    returns (ghost g: Log)
    requires Delivering(conf, l, t, c, valEth) && macs.Match(valEth) && 1 <= conf.rxBurstSize <= MAX_PKT_BURST
    requires stat.Counts(|l.arr|, Sent(conf.tx), Dropped(conf.tx)) && Able(polls, queues, MAX_PKT_BURST)
    modifies conf`tx, conf.mTable, conf.len, stat
    ensures Polling(conf, stat, polls, queues, |queues|, t, c, valEth, l, g, old(conf.tx))
  {
    g := NO_LOG;
    assert l.Then(g) == l;
    ghost var s := conf.tx;
    for i := 0 to |queues|
      invariant Polling(conf, stat, polls, queues, i, t, c, valEth, l, g, s)
    {
      g := PollNext(conf, stat, polls, queues, i, t, c, macs, valEth, l, g, s);
    }
  }

  // The points are the drain points of the turns of run.
  ghost predicate PointsOf(pts: seq<Point<Mbuf>>, run: seq<ScalarTurn>, queues: seq<RxQueue>)
    requires Polled(run, queues)
  {
    && |pts| == |run|
    && (|run| == 0
        || (var k := |run| - 1;
            && pts[k].n == |RunArrivals(run[..k], queues)| && pts[k].drained == run[k].drain
            && PointsOf(pts[..k], run[..k], queues)))
  }

  lemma {:induction false} PointsOfAt(pts: seq<Point<Mbuf>>, run: seq<ScalarTurn>, queues: seq<RxQueue>, k: nat)
    requires Polled(run, queues) && PointsOf(pts, run, queues) && k < |run|
    ensures pts[k].n == |RunArrivals(run[..k], queues)| && pts[k].drained == run[k].drain
  {
    var m := |run| - 1;
    if k == m {
    } else {
      PointsOfAt(pts[..m], run[..m], queues, k);
      assert run[..m][..k] == run[..k];
    }
  }

  lemma PointsOfOn(pts: seq<Point<Mbuf>>, run: seq<ScalarTurn>, queues: seq<RxQueue>, pt: Point<Mbuf>, turn: ScalarTurn)
    requires Polled(run, queues) && PointsOf(pts, run, queues) && |turn.polls| == |queues|
    requires pt.n == |RunArrivals(run, queues)| && pt.drained == turn.drain
    ensures Polled(run + [turn], queues) && PointsOf(pts + [pt], run + [turn], queues)
    ensures RunArrivals(run + [turn], queues) == RunArrivals(run, queues) + TurnArrivals(turn.polls, queues, |queues|)
  {
    assert (run + [turn])[..|run|] == run && (pts + [pt])[..|pts|] == pts;
  }

  // Where a core stands after the turns of run: each packet that has arrived, in order, went
  // to its own scalar destination with its own bytes; no buffer reached the receive burst
  // size; the counters count; and every turn has a drain point.
  ghost predicate RunningScalar(conf: LcoreConf, stat: LcoreStat, run: seq<ScalarTurn>, queues: seq<RxQueue>, ports: seq<nat>,
                                t: Tables, c: Config, valEth: seq<Xmm>, l: Log, pts: seq<Point<Mbuf>>)
    reads conf, conf.mTable, conf.len, stat, l.ms, Buffers(l.ms)
  {
    && Delivering(conf, l, t, c, valEth) && stat.Counts(|l.arr|, Sent(conf.tx), Dropped(conf.tx))
    && Polled(run, queues) && l.arr == RunArrivals(run, queues)
    && PointsOf(pts, run, queues) && AllPoints(pts, l.ms, l.d, ports, conf.tx)
  }

  // One turn keeps it so.
  method TurnOn(conf: LcoreConf, stat: LcoreStat, ghost run: seq<ScalarTurn>, turn: ScalarTurn, queues: seq<RxQueue>,
                ports: seq<nat>, t: Tables, c: Config, macs: Macs, ghost valEth: seq<Xmm>, ghost l: Log,
                ghost pts: seq<Point<Mbuf>>)
    returns (ghost l': Log, ghost pts': seq<Point<Mbuf>>)
    requires RunningScalar(conf, stat, run, queues, ports, t, c, valEth, l, pts)
    requires Able(turn.polls, queues, MAX_PKT_BURST) && macs.Match(valEth)
    requires 1 <= conf.rxBurstSize <= MAX_PKT_BURST && forall i :: 0 <= i < |ports| ==> ports[i] < RTE_MAX_ETHPORTS
    modifies conf`tx, conf.mTable, conf.len, stat
    ensures RunningScalar(conf, stat, run + [turn], queues, ports, t, c, valEth, l', pts')
  {
    ghost var q := DrainTurn(conf, stat, ports, turn.drain, l.ms, l.d, pts);
    ghost var u := conf.tx;
    ghost var g := PollAll(conf, stat, turn.polls, queues, t, c, macs, valEth, l);
    PointsThen(q, l.ms, l.d, ports, u, conf.tx, g.ms, g.d);
    PointsOfOn(pts, run, queues, q[|pts|], turn);
    l', pts' := l.Then(g), q;
  }

  // lpm_main_loop without vector instructions, for every run and every link.
  method ScalarMainLoop(conf: LcoreConf, queues: seq<RxQueue>, ports: seq<nat>, t: Tables, c: Config, macs: Macs,
                        run: seq<ScalarTurn>, ghost valEth: seq<Xmm>)
    returns (stat: LcoreStat, ghost l: Log, ghost pts: seq<Point<Mbuf>>)
    requires conf.Valid() && Idle(conf.tx) && 1 <= conf.rxBurstSize <= MAX_PKT_BURST && macs.Match(valEth)
    requires forall k :: 0 <= k < |run| ==> Able(run[k].polls, queues, conf.rxBurstSize)
    requires forall i :: 0 <= i < |ports| ==> ports[i] < RTE_MAX_ETHPORTS
    modifies conf`tx, conf.mTable, conf.len
    ensures RunningScalar(conf, stat, run, queues, ports, t, c, valEth, l, pts)
  {
    stat := new LcoreStat();
    l, pts := NO_LOG, [];
    IdleAccounts(conf.tx);
    IdleEmpty(conf.tx);
    for k := 0 to |run|
      invariant RunningScalar(conf, stat, run[..k], queues, ports, t, c, valEth, l, pts)
    {
      assert Able(run[k].polls, queues, conf.rxBurstSize);
      l, pts := TurnOn(conf, stat, run[..k], run[k], queues, ports, t, c, macs, valEth, l, pts);
      OneLonger(run, k);
    }
    assert run[..|run|] == run;
  }

  // ---------------------------------------------------------------- what a run keeps

  // The three counters, modulo their width, and the buffers add up.
  lemma CountersConserved(conf: LcoreConf, stat: LcoreStat, l: Log, t: Tables, c: Config, valEth: seq<Xmm>)
    requires Delivering(conf, l, t, c, valEth) && stat.Counts(|l.arr|, Sent(conf.tx), Dropped(conf.tx))
    ensures |l.arr| == Sent(conf.tx) + Dropped(conf.tx) + Buffered(conf.tx)
    ensures stat.rx == (stat.tx as nat + stat.dropped + Buffered(conf.tx)) % TWO64
  {
    OwnSendable(l.arr, l.ms, l.d, t, c, valEth);
    CountersAddUp(conf.tx, l.ms, l.d, stat.rx, stat.tx, stat.dropped);
  }

  // Right after a full drain pass, at any turn of a run: rx = tx + dropped.
  lemma DrainPoint(conf: LcoreConf, stat: LcoreStat, run: seq<ScalarTurn>, queues: seq<RxQueue>, ports: seq<nat>,
                   t: Tables, c: Config, valEth: seq<Xmm>, l: Log, pts: seq<Point<Mbuf>>, k: nat)
    requires RunningScalar(conf, stat, run, queues, ports, t, c, valEth, l, pts) && k < |run|
    ensures pts[k].n == |RunArrivals(run[..k], queues)| && pts[k].drained == run[k].drain
    ensures Balanced(pts[k], l.d, ports, conf.tx)
  {
    OwnSendable(l.arr, l.ms, l.d, t, c, valEth);
    PointsOfAt(pts, run, queues, k);
    BalancedAt(pts, l.ms, l.d, ports, conf.tx, k);
  }

  // With nothing buffered, the counters alone add up.
  lemma CountersEmpty(conf: LcoreConf, stat: LcoreStat, l: Log, t: Tables, c: Config, valEth: seq<Xmm>)
    requires Delivering(conf, l, t, c, valEth) && stat.Counts(|l.arr|, Sent(conf.tx), Dropped(conf.tx))
    requires Buffered(conf.tx) == 0
    ensures stat.rx == (stat.tx as nat + stat.dropped) % TWO64
  {
    OwnSendable(l.arr, l.ms, l.d, t, c, valEth);
    CountersDrained(conf.tx, l.ms, l.d, stat.rx, stat.tx, stat.dropped);
  }

  // A run that ends with a covering drain and receives nothing after it has everything sent
  // or dropped.
  lemma EndsDrained(conf: LcoreConf, stat: LcoreStat, run: seq<ScalarTurn>, queues: seq<RxQueue>, ports: seq<nat>,
                    t: Tables, c: Config, valEth: seq<Xmm>, l: Log, pts: seq<Point<Mbuf>>)
    requires RunningScalar(conf, stat, run, queues, ports, t, c, valEth, l, pts) && 0 < |run| && Listed(l.d, ports)
    requires var last := run[|run| - 1]; last.drain && TurnArrivals(last.polls, queues, |queues|) == []
    ensures Buffered(conf.tx) == 0
    ensures stat.rx == (stat.tx as nat + stat.dropped) % TWO64
  {
    OwnSendable(l.arr, l.ms, l.d, t, c, valEth);
    LastPoint(run, queues, pts);
    EndsEmpty(pts, l.ms, l.d, ports, conf.tx);
    CountersEmpty(conf, stat, l, t, c, valEth);
  }

  lemma LastPoint(run: seq<ScalarTurn>, queues: seq<RxQueue>, pts: seq<Point<Mbuf>>)
    requires Polled(run, queues) && PointsOf(pts, run, queues) && 0 < |run|
    requires var last := run[|run| - 1]; last.drain && TurnArrivals(last.polls, queues, |queues|) == []
    ensures pts[|run| - 1].n == |RunArrivals(run, queues)| && pts[|run| - 1].drained
  {
    assert RunArrivals(run[..|run| - 1], queues) + [] == RunArrivals(run, queues);
  }

  // Each received buffer is in exactly one place, once.
  lemma EachOnce(conf: LcoreConf, l: Log, t: Tables, c: Config, valEth: seq<Xmm>, i: nat)
    requires Delivering(conf, l, t, c, valEth) && i < |l.ms|
    ensures var s, m := conf.tx, l.ms[i];
            Bag(s.accepted)[m] + Bag(s.rejected)[m] + multiset(s.bad)[m] + Bag(s.buf)[m] == 1
  {
    OwnSendable(l.arr, l.ms, l.d, t, c, valEth);
    OnceEach(conf.tx, l.ms, l.d, i);
  }
}
