// l3fwd/main.c: from the command line's queue parameters to the NIC's rings. Setup gives each
// core its queues, the cores run, and what was proved of one core holds of all of them.
module Forwarding {
  import opened Words
  import opened Platform
  import opened Headers
  import opened TxState
  import opened TxBuffer
  import opened LpmClassify
  import opened LcoreLoop
  import opened LpmMainLoop
  import opened LpmScalar
  import opened PortMask
  import opened QueueSetup
  import Cores
  import Scalar = LpmScalarLoop

  type Core = Cores.Core

  // The tables only name usable ports.
  ghost predicate HopsUsable(t: Tables, b: Board) {
    && (forall a: uint32 :: t.v4(a).Some? ==> t.v4(a).value < RTE_MAX_ETHPORTS && b.Usable(t.v4(a).value))
    && (forall a: seq<uint8> :: t.v6(a).Some? ==> t.v6(a).value < RTE_MAX_ETHPORTS && b.Usable(t.v6(a).value))
  }

  // The core works with what setup gives core l: its share of the receive queues, the usable
  // ports, and on each of them the transmit queue of its rank.
  ghost predicate MadeFor(ps: seq<LcoreParams>, b: Board, l: nat, core: Core) {
    && core.env.queues == Share(ps, l, |ps|) && core.env.ports == UsableBelow(b, RTE_MAX_ETHPORTS)
    && |core.conf.txQueueId| == RTE_MAX_ETHPORTS
    && forall p: nat :: p < RTE_MAX_ETHPORTS && b.Usable(p) ==> core.conf.txQueueId[p] == Rank(b.lcores, l)
  }

  ghost predicate AllMade(ps: seq<LcoreParams>, b: Board, ls: seq<nat>, cores: seq<Core>, t: Tables) {
    && |cores| == |ls|
    && forall i :: 0 <= i < |ls| ==> MadeFor(ps, b, ls[i], cores[i]) && cores[i].env.t == t
  }

  // One core of the launch.
  method LaunchOne(c: LcoreQueues, ps: seq<LcoreParams>, b: Board, l: nat, rxBurst: nat, txBurst: nat, t: Tables, valEth: seq<Xmm>)
    returns (core: Core)
    requires c.Valid() && b.Valid() && c.Shared(ps, |ps|) && c.Numbered(b, RTE_MAX_ETHPORTS) && l in b.lcores
    requires |valEth| == RTE_MAX_ETHPORTS
    ensures MadeFor(ps, b, l, core) && core.env.t == t && Cores.Fresh(core)
    ensures fresh(core.conf) && fresh(core.conf.mTable) && fresh(core.conf.len) && fresh(core.stat)
  {
    var queueId := [];
    for p := 0 to RTE_MAX_ETHPORTS
      invariant |queueId| == p && forall k :: 0 <= k < p ==> queueId[k] == c.txQueueId[l, k]
    {
      queueId := queueId + [c.txQueueId[l, p]];
    }
    var conf := new LcoreConf(rxBurst, txBurst, queueId);
    var stat := new LcoreStat();
    core := Cores.Core(conf, stat, Cores.Env(c.rxQueueList[l], c.txPortId[l], t, valEth));
  }

  lemma OneMoreMade(ps: seq<LcoreParams>, b: Board, ls: seq<nat>, cores: seq<Core>, core: Core, t: Tables)
    requires |cores| < |ls| && AllMade(ps, b, ls[..|cores|], cores, t)
    requires MadeFor(ps, b, ls[|cores|], core) && core.env.t == t
    ensures AllMade(ps, b, ls[..|cores| + 1], cores + [core], t)
  {}

  lemma OneMoreApart(cores: seq<Core>, core: Core)
    requires Cores.Apart(cores)
    requires forall i {:trigger cores[i]} :: 0 <= i < |cores| ==> Cores.Disjoint(cores[i], core)
    ensures Cores.Apart(cores + [core])
  {}

  // The main loop starts on every enabled core.
  method Launch(c: LcoreQueues, ps: seq<LcoreParams>, b: Board, ls: seq<nat>, rxBurst: nat, txBurst: nat, t: Tables, valEth: seq<Xmm>)
    returns (cores: seq<Core>)
    requires c.Valid() && b.Valid() && c.Shared(ps, |ps|) && c.Numbered(b, RTE_MAX_ETHPORTS)
    requires (forall i :: 0 <= i < |ls| ==> ls[i] in b.lcores) && |valEth| == RTE_MAX_ETHPORTS
    ensures AllMade(ps, b, ls, cores, t) && Cores.Apart(cores)
    ensures forall i :: 0 <= i < |cores| ==> Cores.Fresh(cores[i])
    ensures forall i {:trigger cores[i]} :: 0 <= i < |cores| ==>
              fresh(cores[i].conf) && fresh(cores[i].conf.mTable) && fresh(cores[i].conf.len) && fresh(cores[i].stat)
  {
    cores := [];
    for n := 0 to |ls|
      invariant AllMade(ps, b, ls[..n], cores, t) && Cores.Apart(cores)
      invariant forall i :: 0 <= i < |cores| ==> Cores.Fresh(cores[i])
      invariant forall i {:trigger cores[i]} :: 0 <= i < |cores| ==>
        fresh(cores[i].conf) && fresh(cores[i].conf.mTable) && fresh(cores[i].conf.len) && fresh(cores[i].stat)
    {
      var core := LaunchOne(c, ps, b, ls[n], rxBurst, txBurst, t, valEth);
      OneMoreMade(ps, b, ls, cores, core, t);
      OneMoreApart(cores, core);
      cores := cores + [core];
    }
    assert ls[..|ls|] == ls;
  }

  // ---------------------------------------------------------------- what setup is for

  lemma {:induction false} PolledFrom(polls: seq<Poll>, queues: seq<RxQueue>, n: nat, x: nat)
    requires n <= |polls| && n <= |queues| && x < |PollArrivals(polls, queues, n)|
    ensures PollArrivals(polls, queues, n)[x].rx in queues
  {
    var before := PollArrivals(polls, queues, n - 1);
    if x < |before| {
      PolledFrom(polls, queues, n - 1, x);
    } else {
      assert PollArrivals(polls, queues, n)[x] == FromQueue(polls[n - 1], queues[n - 1])[x - |before|];
    }
  }

  // A packet came in on one of the core's own queues.
  lemma {:induction false} ArrivedFrom(run: seq<Turn>, queues: seq<RxQueue>, x: nat)
    requires Polls(run, queues) && x < |Arrivals(run, queues)|
    ensures Arrivals(run, queues)[x].rx in queues
  {
    var k := |run| - 1;
    var before := Arrivals(run[..k], queues);
    if x < |before| {
      ArrivedFrom(run[..k], queues, x);
    } else {
      PolledFrom(run[k].polls, queues, |queues|, x - |before|);
    }
  }

  // Every packet's destination is among the ports the core drains.
  lemma Covered(ps: seq<LcoreParams>, b: Board, l: nat, core: Core, pr: Cores.Progress)
    requires b.Valid() && Acceptable(ps, b) && MadeFor(ps, b, l, core) && HopsUsable(core.env.t, b)
    requires Cores.Place(core, pr).Runs()
    ensures Listed(pr.h.dest, core.env.ports)
  {
    var t := core.env.t;
    forall x | 0 <= x < |pr.h.dest|
      ensures pr.h.dest[x] == BAD_PORT || (pr.h.dest[x] as nat) in core.env.ports
    {
      var a := pr.h.arrived[x];
      assert Goes(a.pkt, a.rx.port, t, core.env.valEth, pr.h.dest[x], pr.h.mbufs[x].data[..]);
      ArrivedFrom(pr.run, core.env.queues, x);
      var i: nat :| i < |core.env.queues| && core.env.queues[i] == a.rx;
      OnlyConfigured(ps, b, l, i);
      DestinationUsable(a.pkt, a.rx.port, t, b);
      if pr.h.dest[x] != BAD_PORT {
        var k := UsableListed(b, RTE_MAX_ETHPORTS, pr.h.dest[x]);
        assert core.env.ports[k] == pr.h.dest[x];
      }
    }
  }

  lemma HopUsable(p: Packet, portid: uint16, t: Tables, b: Board)
    requires p.Roomy() && HopsUsable(t, b) && b.Valid() && b.Usable(portid)
    ensures var hop := LpmGetDstPort(p, portid, t); hop < RTE_MAX_ETHPORTS && b.Usable(hop)
  {
    if IsIpv4Hdr(p.ptype) {
      var a := Be32(p.bytes[IPV4_DST..IPV4_DST + 4]);
      assert t.v4(a).Some? ==> t.v4(a).value < RTE_MAX_ETHPORTS && b.Usable(t.v4(a).value);
    } else if IsIpv6Hdr(p.ptype) {
      var a := p.bytes[IPV6_DST..IPV6_DST + 16];
      assert t.v6(a).Some? ==> t.v6(a).value < RTE_MAX_ETHPORTS && b.Usable(t.v6(a).value);
    }
  }

  lemma DestinationUsable(p: Packet, portid: uint16, t: Tables, b: Board)
    requires p.Roomy() && HopsUsable(t, b) && b.Valid() && b.Usable(portid)
    ensures var d := Destination(p, portid, t); d == BAD_PORT || (d < RTE_MAX_ETHPORTS && b.Usable(d))
  {
    HopUsable(p, portid, t, b);
    EitherPort(p.bytes, p.ptype, LpmGetDstPort(p, portid, t));
  }

  lemma EitherPort(f: seq<uint8>, ptype: bv32, hop: uint16)
    requires MIN_ROOM <= |f|
    ensures Rfc1812Port(f, ptype, hop) == BAD_PORT || Rfc1812Port(f, ptype, hop) == hop
  {}

  // So after every drain everything received by then has been sent or dropped.
  lemma EveryDrainSettles(ps: seq<LcoreParams>, b: Board, l: nat, core: Core, pr: Cores.Progress, k: nat)
    requires b.Valid() && Acceptable(ps, b) && MadeFor(ps, b, l, core) && HopsUsable(core.env.t, b)
    requires Cores.Place(core, pr).Runs() && k < |pr.run| && pr.run[k].drain
    ensures k < |pr.pts| && pr.pts[k].n == |Arrivals(pr.run[..k], core.env.queues)|
    ensures var pt := pr.pts[k];
            Buffered(pt.tx) == 0 && pt.n == Sent(pt.tx) + Dropped(pt.tx) && pt.rx == (pt.sent as nat + pt.dropped) % TWO64
  {
    Covered(ps, b, l, core, pr);
    DrainPoint(core.conf, core.stat, pr.run, core.env.queues, core.env.ports, core.env.valEth, core.env.t, pr.h, pr.pts, k);
  }

  // Packets of different cores came in on different receive queues.
  lemma ArrivalsApart(ps: seq<LcoreParams>, b: Board, l: nat, core: Core, pr: Cores.Progress, x: nat,
                      m: nat, other: Core, pr': Cores.Progress, y: nat)
    requires b.Valid() && Acceptable(ps, b) && l != m && MadeFor(ps, b, l, core) && MadeFor(ps, b, m, other)
    requires Cores.Place(core, pr).Runs() && x < |pr.h.arrived|
    requires Cores.Place(other, pr').Runs() && y < |pr'.h.arrived|
    ensures pr.h.arrived[x].rx != pr'.h.arrived[y].rx
  {
    ArrivedFrom(pr.run, core.env.queues, x);
    ArrivedFrom(pr'.run, other.env.queues, y);
    var rx := pr.h.arrived[x].rx;
    var i: nat :| i < |core.env.queues| && core.env.queues[i] == rx;
    OnlyConfigured(ps, b, l, i);
    var l', i' := PolledExactlyOnce(ps, b, rx.port, rx.queue);
  }

  // No other core sends on a core's queue of a port.
  lemma SoleSender(ps: seq<LcoreParams>, b: Board, ls: seq<nat>, cores: seq<Core>, t: Tables, schedule: seq<Cores.Step>,
                   prs: seq<Cores.Progress>, i: nat, p: nat)
    requires AllMade(ps, b, ls, cores, t) && ls == LcoresBelow(b.lcores, RTE_MAX_LCORE) && Cores.AllRun(cores, schedule, prs)
    requires i < |cores| && p < RTE_MAX_ETHPORTS && b.Usable(p)
    ensures cores[i].conf.tx.queueId == cores[i].conf.txQueueId && cores[i].conf.txQueueId[p] == i
    ensures Cores.Sole(Cores.Txs(cores), i, p, i as uint16)
  {
    forall j | 0 <= j < |cores|
      ensures cores[j].conf.tx.queueId == cores[j].conf.txQueueId && cores[j].conf.txQueueId[p] == j
    {
      assert Cores.Place(cores[j], prs[j]).Runs();
      assert MadeFor(ps, b, ls[j], cores[j]);
    }
  }

  // Whatever the schedule and however the cores' transmit calls interleave, queue i of a
  // usable port holds what the NIC accepted from the i-th core for that port, and no packet of
  // any other core: a subsequence, in arrival order, of that core's packets for the port.
  lemma RingOfCore(ps: seq<LcoreParams>, b: Board, ls: seq<nat>, cores: seq<Core>, t: Tables, schedule: seq<Cores.Step>,
                   prs: seq<Cores.Progress>, log: seq<Cores.NicCall>, i: nat, p: nat)
    requires AllMade(ps, b, ls, cores, t) && ls == LcoresBelow(b.lcores, RTE_MAX_LCORE) && Cores.AllRun(cores, schedule, prs)
    requires Cores.Interleaves(log, Cores.Txs(cores)) && i < |cores| <= 0x1_0000 && p < RTE_MAX_ETHPORTS && b.Usable(p)
    ensures Cores.Ring(log, p, i as uint16) == cores[i].conf.tx.accepted[p]
    ensures Subsequence(Cores.Ring(log, p, i as uint16), PacketsFor(prs[i].h.mbufs, prs[i].h.dest, p))
  {
    SoleSender(ps, b, ls, cores, t, schedule, prs, i, p);
    forall j | 0 <= j < |cores|
      ensures Consistent(cores[j].conf.tx)
    {
      assert Cores.Place(cores[j], prs[j]).Runs();
    }
    assert Cores.Place(cores[i], prs[i]).Runs();
    Cores.RingIsOneCores(log, Cores.Txs(cores), i, p, prs[i].h.mbufs, prs[i].h.dest);
  }

  // ---------------------------------------------------------------- the scalar path

  lemma {:induction false} PolledFromScalar(polls: seq<seq<Scalar.Received>>, queues: seq<RxQueue>, n: nat, x: nat)
    requires n <= |polls| && n <= |queues| && x < |Scalar.TurnArrivals(polls, queues, n)|
    ensures Scalar.TurnArrivals(polls, queues, n)[x].rx in queues
  {
    var before := Scalar.TurnArrivals(polls, queues, n - 1);
    if x < |before| {
      PolledFromScalar(polls, queues, n - 1, x);
    } else {
      assert Scalar.TurnArrivals(polls, queues, n)[x] == Scalar.CameFrom(polls[n - 1], queues[n - 1])[x - |before|];
    }
  }

  lemma {:induction false} ArrivedFromScalar(run: seq<Scalar.ScalarTurn>, queues: seq<RxQueue>, x: nat)
    requires Scalar.Polled(run, queues) && x < |Scalar.RunArrivals(run, queues)|
    ensures Scalar.RunArrivals(run, queues)[x].rx in queues
  {
    var k := |run| - 1;
    var before := Scalar.RunArrivals(run[..k], queues);
    if x < |before| {
      ArrivedFromScalar(run[..k], queues, x);
    } else {
      PolledFromScalar(run[k].polls, queues, |queues|, x - |before|);
    }
  }

  // On the scalar path the drained ports cover the destinations whatever the tables name, as
  // long as every enabled port is there.
  lemma CoveredScalar(ps: seq<LcoreParams>, b: Board, l: nat, conf: LcoreConf, stat: LcoreStat, run: seq<Scalar.ScalarTurn>,
                      t: Tables, c: Config, valEth: seq<Xmm>, log: Scalar.Log, pts: seq<Point<Mbuf>>)
    requires b.Valid() && Acceptable(ps, b)
    requires forall p: uint16 :: p < RTE_MAX_ETHPORTS && PortEnabled(c.enabledPortMask, p) ==> b.Usable(p)
    requires Scalar.RunningScalar(conf, stat, run, Share(ps, l, |ps|), UsableBelow(b, RTE_MAX_ETHPORTS), t, c, valEth, log, pts)
    ensures Listed(log.d, UsableBelow(b, RTE_MAX_ETHPORTS))
  {
    var queues, ports := Share(ps, l, |ps|), UsableBelow(b, RTE_MAX_ETHPORTS);
    forall x | 0 <= x < |log.d|
      ensures log.d[x] == BAD_PORT || log.d[x] in ports
    {
      var a := log.arr[x];
      assert Scalar.OwnOne(a, log.ms[x], log.d[x], t, c, valEth);
      ArrivedFromScalar(run, queues, x);
      var i: nat :| i < |queues| && queues[i] == a.rx;
      OnlyConfigured(ps, b, l, i);
      SimpleDestinationSendable(a.recv.pkt, a.recv.meta, a.rx.port, t, c);
      if log.d[x] != BAD_PORT {
        var k := UsableListed(b, RTE_MAX_ETHPORTS, log.d[x]);
      }
    }
  }

  // ---------------------------------------------------------------- end to end

  // The environment: any core may take a turn at any time, in which its queues yield at most
  // a burst each.
  ghost predicate Feasible(ps: seq<LcoreParams>, b: Board, schedule: seq<Cores.Step>, burst: nat) {
    forall k :: 0 <= k < |schedule| ==> FeasibleStep(ps, b, schedule[k], burst)
  }

  ghost predicate FeasibleStep(ps: seq<LcoreParams>, b: Board, step: Cores.Step, burst: nat) {
    var ls, polls := LcoresBelow(b.lcores, RTE_MAX_LCORE), step.turn.polls;
    && step.core < |ls| && |polls| == |Share(ps, ls[step.core], |ps|)|
    && forall q :: 0 <= q < |polls| ==> |polls[q]| <= burst && AllRoomy(polls[q])
  }

  // Then the cores can take their turns: setup has made sure of the ports.
  lemma StepAble(ps: seq<LcoreParams>, b: Board, step: Cores.Step, burst: nat, core: Core)
    requires b.Valid() && Acceptable(ps, b) && FeasibleStep(ps, b, step, burst) && burst <= MAX_PKT_BURST
    requires MadeFor(ps, b, LcoresBelow(b.lcores, RTE_MAX_LCORE)[step.core], core) && HopsUsable(core.env.t, b)
    ensures core.env.Able(step.turn)
  {
    var l, queues := LcoresBelow(b.lcores, RTE_MAX_LCORE)[step.core], core.env.queues;
    forall q | 0 <= q < |queues|
      ensures PortsExist(core.env.t, queues[q].port)
    {
      OnlyConfigured(ps, b, l, q);
    }
  }

  // Setup, launch and any schedule of the cores: the program refuses exactly the unacceptable
  // parameters, and otherwise every core runs by its laws, every destination is among the
  // ports its core drains, and each ring holds one core's packets.
  method SetupAndRun(ps: seq<LcoreParams>, b: Board, rxBurst: nat, txBurst: nat, t: Tables, valEth: seq<Xmm>,
                     schedule: seq<Cores.Step>)
    returns (ok: bool, cores: seq<Core>, ghost prs: seq<Cores.Progress>, ghost log: seq<Cores.NicCall>)
    requires b.Valid() && |ps| <= MAX_LCORE_PARAMS && |valEth| == RTE_MAX_ETHPORTS && HopsUsable(t, b)
    requires rxBurst <= MAX_PKT_BURST && Feasible(ps, b, schedule, rxBurst)
    ensures ok <==> Acceptable(ps, b)
    ensures ok ==> AllMade(ps, b, LcoresBelow(b.lcores, RTE_MAX_LCORE), cores, t)
    ensures ok ==> Cores.AllRun(cores, schedule, prs) && Cores.Interleaves(log, Cores.Txs(cores))
    ensures ok ==> forall i :: 0 <= i < |cores| ==> Listed(prs[i].h.dest, cores[i].env.ports)
    ensures ok ==> forall i, p: nat :: 0 <= i < |cores| && p < RTE_MAX_ETHPORTS && b.Usable(p) ==>
              i < 0x1_0000 && |cores[i].conf.tx.accepted| == RTE_MAX_ETHPORTS
              && Cores.Ring(log, p, i) == cores[i].conf.tx.accepted[p]
  {
    cores, prs, log := [], [], [];
    var c := new LcoreQueues();
    ok := c.PollResourceSetup(ps, b);
    if !ok { return; }
    var ls := LcoresBelow(b.lcores, RTE_MAX_LCORE);
    cores := Launch(c, ps, b, ls, rxBurst, txBurst, t, valEth);
    forall k | 0 <= k < |schedule|
      ensures schedule[k].core < |cores| && cores[schedule[k].core].env.Able(schedule[k].turn)
    {
      assert FeasibleStep(ps, b, schedule[k], rxBurst);
      StepAble(ps, b, schedule[k], rxBurst, cores[schedule[k].core]);
    }
    prs, log := Cores.RunCores(cores, schedule);
    forall i | 0 <= i < |cores|
      ensures Listed(prs[i].h.dest, cores[i].env.ports) && |cores[i].conf.tx.accepted| == RTE_MAX_ETHPORTS
    {
      assert Cores.Place(cores[i], prs[i]).Runs();
      Covered(ps, b, ls[i], cores[i], prs[i]);
    }
    forall i, p: nat | 0 <= i < |cores| && p < RTE_MAX_ETHPORTS && b.Usable(p)
      ensures Cores.Ring(log, p, i) == cores[i].conf.tx.accepted[p]
    {
      RingOfCore(ps, b, ls, cores, t, schedule, prs, log, i, p);
    }
  }
}
