// Several cores at once: the receive queues, transmit queues and buffers that setup gives
// each core keep every core's run its own, whatever the order in which the cores take turns.
module Cores {
  import opened Words
  import opened Platform
  import opened Headers
  import opened TxState
  import opened TxBuffer
  import opened LpmClassify
  import opened LcoreLoop
  import opened LpmMainLoop

  // What a core works with: its receive queues, the ports it drains, the lookup tables and
  // the addresses of the ports.
  datatype Env = Env(queues: seq<RxQueue>, ports: seq<nat>, t: Tables, valEth: seq<Xmm>) {
    ghost predicate Able(turn: Turn) { CanPoll(turn.polls, queues, t, MAX_PKT_BURST) }

    ghost predicate Ok() {
      |valEth| == RTE_MAX_ETHPORTS && forall i :: 0 <= i < |ports| ==> ports[i] < RTE_MAX_ETHPORTS
    }
  }

  // A core's buffers and counters, and what it works with.
  datatype Core = Core(conf: LcoreConf, stat: LcoreStat, env: Env)

  // The scheduler lets a core take a turn.
  datatype Step = Step(core: nat, turn: Turn)

  // The turns of core i, in order.
  ghost function TurnsOf(schedule: seq<Step>, i: nat): seq<Turn> {
    if |schedule| == 0 then []
    else
      var n := |schedule| - 1;
      TurnsOf(schedule[..n], i) + if schedule[n].core == i then [schedule[n].turn] else []
  }

  lemma OneTurn(schedule: seq<Step>, step: Step, j: nat)
    ensures TurnsOf(schedule + [step], j) == if step.core == j then TurnsOf(schedule, j) + [step.turn] else TurnsOf(schedule, j)
  {
    assert (schedule + [step])[..|schedule|] == schedule;
    assert TurnsOf(schedule, j) + [] == TurnsOf(schedule, j);
  }

  // The cores share no object.
  ghost predicate Apart(cores: seq<Core>) {
    forall i, j :: 0 <= i < |cores| && 0 <= j < |cores| && i != j ==> Disjoint(cores[i], cores[j])
  }

  ghost predicate Disjoint(a: Core, b: Core) {
    a.conf != b.conf && a.conf.mTable != b.conf.mTable && a.conf.len != b.conf.len && a.stat != b.stat
  }

  // How far a core has come: its turns, its history and its drain points.
  datatype Progress = Progress(run: seq<Turn>, h: History, pts: seq<Point<Mbuf>>)

  datatype Place = Place(core: Core, pr: Progress) {
    ghost predicate Runs()
      reads core.conf, core.conf.mTable, core.conf.len, core.stat, pr.h.mbufs, Buffers(pr.h.mbufs)
    {
      Running(core.conf, core.stat, pr.run, core.env.queues, core.env.ports, core.env.valEth, core.env.t, pr.h, pr.pts)
    }

    // Nothing it stands on has changed.
    twostate predicate Untouched()
      reads core.conf, core.conf.mTable, core.conf.len, core.stat, pr.h.mbufs, Buffers(pr.h.mbufs)
    {
      && unchanged(core.conf) && unchanged(core.conf.mTable) && unchanged(core.conf.len) && unchanged(core.stat)
      && forall i {:trigger pr.h.mbufs[i]} :: 0 <= i < |pr.h.mbufs| ==>
           unchanged(pr.h.mbufs[i]) && unchanged(pr.h.mbufs[i].data)
    }
  }

  // Every core has taken its turns of the schedule.
  ghost predicate AllRun(cores: seq<Core>, schedule: seq<Step>, prs: seq<Progress>)
    reads set i | 0 <= i < |cores| :: cores[i].conf, set i | 0 <= i < |cores| :: cores[i].conf.mTable
    reads set i | 0 <= i < |cores| :: cores[i].conf.len, set i | 0 <= i < |cores| :: cores[i].stat
    reads set i, k | 0 <= i < |prs| && 0 <= k < |prs[i].h.mbufs| :: prs[i].h.mbufs[k]
    reads set i, k | 0 <= i < |prs| && 0 <= k < |prs[i].h.mbufs| :: prs[i].h.mbufs[k].data
  {
    && |cores| == |prs|
    && forall i :: 0 <= i < |cores| ==> prs[i].run == TurnsOf(schedule, i) && Place(cores[i], prs[i]).Runs()
  }

  // ---------------------------------------------------------------- the rings of the NIC

  // A transmit call of some core, as the NIC sees it.
  datatype NicCall = NicCall(core: nat, call: TxCall<Mbuf>)

  // The calls of core i.
  ghost function CallsOf(log: seq<NicCall>, i: nat): seq<TxCall<Mbuf>> {
    if |log| == 0 then []
    else
      var n := |log| - 1;
      CallsOf(log[..n], i) + if log[n].core == i then [log[n].call] else []
  }

  // What the NIC has put on queue q of port p, in order.
  ghost function Ring(log: seq<NicCall>, p: nat, q: uint16): seq<Mbuf> {
    if |log| == 0 then []
    else
      var n := |log| - 1;
      Ring(log[..n], p, q)
      + if log[n].call.port == p && log[n].call.queue == q then log[n].call.Taken() else []
  }

  // Some interleaving of what the cores did, call by call.
  ghost predicate Interleaves(log: seq<NicCall>, txs: seq<State<Mbuf>>) {
    && (forall k :: 0 <= k < |log| ==> log[k].core < |txs|)
    && (forall i :: 0 <= i < |txs| ==> CallsOf(log, i) == txs[i].calls)
  }

  ghost function Txs(cores: seq<Core>): (r: seq<State<Mbuf>>)
    reads set i | 0 <= i < |cores| :: cores[i].conf
    ensures |r| == |cores| && forall i :: 0 <= i < |cores| ==> r[i] == cores[i].conf.tx
  {
    seq(|cores|, i requires 0 <= i < |cores| reads set k | 0 <= k < |cores| :: cores[k].conf => cores[i].conf.tx)
  }

  // Calls of core i, as the NIC sees them.
  ghost function Tagged(i: nat, calls: seq<TxCall<Mbuf>>): seq<NicCall> {
    if |calls| == 0 then [] else Tagged(i, calls[..|calls| - 1]) + [NicCall(i, calls[|calls| - 1])]
  }

  lemma {:induction false} TaggedCore(i: nat, calls: seq<TxCall<Mbuf>>)
    ensures forall k :: 0 <= k < |Tagged(i, calls)| ==> Tagged(i, calls)[k].core == i
  {
    if |calls| == 0 {
    } else {
      TaggedCore(i, calls[..|calls| - 1]);
    }
  }

  lemma {:induction false} TaggedCalls(log: seq<NicCall>, i: nat, more: seq<TxCall<Mbuf>>, j: nat)
    ensures CallsOf(log + Tagged(i, more), j) == CallsOf(log, j) + if j == i then more else []
    decreases |more|
  {
    if |more| == 0 {
      assert log + [] == log && CallsOf(log, j) + [] == CallsOf(log, j);
    } else {
      var n := |more| - 1;
      TaggedCalls(log, i, more[..n], j);
      Reassociate(log, Tagged(i, more[..n]), [NicCall(i, more[n])]);
      OneTagged(log + Tagged(i, more[..n]), i, CallsOf(log, j), more, j);
    }
  }

  lemma OneTagged(log: seq<NicCall>, i: nat, before: seq<TxCall<Mbuf>>, more: seq<TxCall<Mbuf>>, j: nat)
    requires |more| > 0 && CallsOf(log, j) == before + if j == i then more[..|more| - 1] else []
    ensures CallsOf(log + [NicCall(i, more[|more| - 1])], j) == before + if j == i then more else []
  {
    var most, last := more[..|more| - 1], more[|more| - 1];
    OneCall(log, NicCall(i, last), j);
    if j == i {
      Reassociate(before, most, [last]);
      assert most + [last] == more;
    }
  }

  lemma OneCall(log: seq<NicCall>, e: NicCall, j: nat)
    ensures CallsOf(log + [e], j) == if e.core == j then CallsOf(log, j) + [e.call] else CallsOf(log, j)
  {
    assert (log + [e])[..|log|] == log;
    assert CallsOf(log, j) + [] == CallsOf(log, j);
  }

  // One core has made more calls, the others none.
  lemma MoreCalls(log: seq<NicCall>, before: seq<State<Mbuf>>, after: seq<State<Mbuf>>, i: nat, more: seq<TxCall<Mbuf>>)
    requires Interleaves(log, before) && |after| == |before| && i < |after|
    requires after[i].calls == before[i].calls + more
    requires forall j :: 0 <= j < |after| && j != i ==> after[j].calls == before[j].calls
    ensures Interleaves(log + Tagged(i, more), after)
  {
    var log' := log + Tagged(i, more);
    forall k | 0 <= k < |log'|
      ensures log'[k].core < |after|
    {
      TaggedCore(i, more);
      if k >= |log| { assert log'[k] == Tagged(i, more)[k - |log|]; }
    }
    forall j | 0 <= j < |after|
      ensures CallsOf(log', j) == after[j].calls
    {
      TaggedCalls(log, i, more, j);
      assert CallsOf(log, j) + [] == CallsOf(log, j);
    }
  }

  // No core but i sends on queue q of port p.
  ghost predicate Sole(txs: seq<State<Mbuf>>, i: nat, p: nat, q: uint16) {
    forall j :: 0 <= j < |txs| && j != i ==> p < |txs[j].queueId| && txs[j].queueId[p] != q
  }

  lemma {:induction false} CallsBefore(log: seq<NicCall>, i: nat)
    requires |log| > 0
    ensures CallsOf(log[..|log| - 1], i) <= CallsOf(log, i)
  {
  }

  lemma {:induction false} OwnCallsBefore(calls: seq<TxCall<Mbuf>>, more: seq<TxCall<Mbuf>>, queueId: seq<uint16>)
    requires OwnCalls(more, queueId) && calls <= more
    ensures OwnCalls(calls, queueId)
    decreases |more|
  {
    if |calls| == |more| {
      assert calls == more;
    } else {
      assert calls <= more[..|more| - 1];
      OwnCallsBefore(calls, more[..|more| - 1], queueId);
    }
  }

  // All calls of each core name its own queues.
  ghost predicate AllOwn(log: seq<NicCall>, txs: seq<State<Mbuf>>) {
    && (forall k :: 0 <= k < |log| ==> log[k].core < |txs|)
    && (forall j :: 0 <= j < |txs| ==> OwnCalls(CallsOf(log, j), txs[j].queueId))
  }

  // A ring that only core i sends on holds what core i's calls put there.
  lemma {:induction false} RingOfOne(log: seq<NicCall>, txs: seq<State<Mbuf>>, i: nat, p: nat)
    requires AllOwn(log, txs) && i < |txs| && p < |txs[i].queueId| && Sole(txs, i, p, txs[i].queueId[p])
    ensures Ring(log, p, txs[i].queueId[p]) == Replay(CallsOf(log, i), |txs[i].queueId|).accepted[p]
  {
    if |log| == 0 {
    } else {
      var n := |log| - 1;
      var before, e := log[..n], log[n];
      forall j | 0 <= j < |txs|
        ensures OwnCalls(CallsOf(before, j), txs[j].queueId)
      {
        CallsBefore(log, j);
        OwnCallsBefore(CallsOf(before, j), CallsOf(log, j), txs[j].queueId);
      }
      RingOfOne(before, txs, i, p);
      if e.core == i {
        OwnCall(log, txs[i].queueId, p);
      } else {
        assert CallsOf(log, i) == CallsOf(before, i) + [] == CallsOf(before, i);
        OwnCall(log, txs[e.core].queueId, p);
      }
    }
  }

  // The last call, of core i on its own queues.
  lemma OwnCall(log: seq<NicCall>, queueId: seq<uint16>, p: nat)
    requires |log| > 0 && p < |queueId| && OwnCalls(CallsOf(log, log[|log| - 1].core), queueId)
    ensures var e := log[|log| - 1]; var before := log[..|log| - 1];
            && (e.call.port == p ==> e.call.queue == queueId[p])
            && Replay(CallsOf(log, e.core), |queueId|).accepted[p]
               == Replay(CallsOf(before, e.core), |queueId|).accepted[p] + if e.call.port == p then e.call.Taken() else []
  {
    var e, before := log[|log| - 1], log[..|log| - 1];
    var calls := CallsOf(log, e.core);
    assert calls == CallsOf(before, e.core) + [e.call];
    assert calls[..|calls| - 1] == CallsOf(before, e.core);
    var acc := Replay(CallsOf(before, e.core), |queueId|).accepted[p];
    assert acc + [] == acc;
  }

  // For every interleaving of the cores' transmit calls, a queue that only one core sends on
  // holds exactly what was accepted from that core for the port, which is a subsequence of the
  // core's packets for the port in the order in which they arrived.
  lemma RingIsOneCores(log: seq<NicCall>, txs: seq<State<Mbuf>>, i: nat, p: nat, ms: seq<Mbuf>, d: seq<uint16>)
    requires Interleaves(log, txs) && forall j :: 0 <= j < |txs| ==> Consistent(txs[j])
    requires i < |txs| && Accounts(txs[i], ms, d) && p < RTE_MAX_ETHPORTS && Sole(txs, i, p, txs[i].queueId[p])
    ensures Ring(log, p, txs[i].queueId[p]) == txs[i].accepted[p]
    ensures Subsequence(Ring(log, p, txs[i].queueId[p]), PacketsFor(ms, d, p))
  {
    assert Asked(0);
    assert forall j :: 0 <= j < |txs| ==> Recorded(txs[j]);
    RingOfOne(log, txs, i, p);
    Settled(txs[i], p);
    SubsequenceGrows(txs[i].accepted[p], txs[i].offered[p], [], txs[i].buf[p]);
    assert txs[i].accepted[p] + [] == txs[i].accepted[p] && [] + txs[i].buf[p] == txs[i].buf[p];
  }

  // ---------------------------------------------------------------- schedules

  // A core whose objects are left alone stays where it is.
  twostate lemma StaysPut(x: Place)
    requires old(x.Runs()) && x.Untouched()
    ensures x.Runs()
  {}

  // One core's turn is no business of the others.
  method TurnAlone(core: Core, turn: Turn, ghost cores: seq<Core>, ghost prs: seq<Progress>, ghost i: nat)
    returns (ghost pr: Progress)
    requires Apart(cores) && |prs| == |cores| && i < |cores| && core == cores[i] && core.env.Able(turn) && core.env.Ok()
    requires forall j :: 0 <= j < |cores| ==> Place(cores[j], prs[j]).Runs()
    modifies core.conf`tx, core.conf.mTable, core.conf.len, core.stat
    ensures Place(core, pr).Runs() && pr.run == prs[i].run + [turn] && old(core.conf.tx).calls <= core.conf.tx.calls
    ensures forall j :: 0 <= j < |cores| && j != i ==> Place(cores[j], prs[j]).Runs()
  {
    assert Place(core, prs[i]).Runs();
    var e, h, pts := core.env, prs[i].h, prs[i].pts;
    ghost var h', pts' := TurnOn(core.conf, core.stat, prs[i].run, turn, e.queues, e.ports, e.valEth, e.t, h, pts);
    pr := Progress(prs[i].run + [turn], h', pts');
    forall j | 0 <= j < |cores| && j != i
      ensures Place(cores[j], prs[j]).Runs()
    {
      assert Disjoint(cores[j], core);
      ghost var x := Place(cores[j], prs[j]);
      assert x.Untouched();
      assert old(x.Runs());
      StaysPut(x);
    }
  }

  lemma AllRunOn(cores: seq<Core>, schedule: seq<Step>, step: Step, prs: seq<Progress>, pr: Progress)
    requires |prs| == |cores| && step.core < |cores|
    requires forall j :: 0 <= j < |cores| ==> prs[j].run == TurnsOf(schedule, j)
    requires forall j :: 0 <= j < |cores| && j != step.core ==> Place(cores[j], prs[j]).Runs()
    requires Place(cores[step.core], pr).Runs() && pr.run == prs[step.core].run + [step.turn]
    ensures AllRun(cores, schedule + [step], prs[step.core := pr])
  {
    var prs' := prs[step.core := pr];
    forall j | 0 <= j < |cores|
      ensures prs'[j].run == TurnsOf(schedule + [step], j) && Place(cores[j], prs'[j]).Runs()
    {
      OneTurn(schedule, step, j);
    }
  }

  method TakeTurn(core: Core, cores: seq<Core>, step: Step, ghost schedule: seq<Step>, ghost prs: seq<Progress>)
    returns (ghost prs': seq<Progress>)
    requires Apart(cores) && AllRun(cores, schedule, prs)
    requires step.core < |cores| && core == cores[step.core] && core.env.Able(step.turn) && core.env.Ok()
    modifies core.conf`tx, core.conf.mTable, core.conf.len, core.stat
    ensures AllRun(cores, schedule + [step], prs') && old(core.conf.tx).calls <= core.conf.tx.calls
  {
    ghost var pr := TurnAlone(core, step.turn, cores, prs, step.core);
    AllRunOn(cores, schedule, step, prs, pr);
    prs' := prs[step.core := pr];
  }

  // And the NIC sees only that core's calls meanwhile.
  method TakeTurnLogged(core: Core, cores: seq<Core>, step: Step, ghost schedule: seq<Step>, ghost prs: seq<Progress>,
                        ghost log: seq<NicCall>)
    returns (ghost prs': seq<Progress>, ghost log': seq<NicCall>)
    requires Apart(cores) && AllRun(cores, schedule, prs) && Interleaves(log, Txs(cores))
    requires step.core < |cores| && core == cores[step.core] && core.env.Able(step.turn) && core.env.Ok()
    modifies core.conf`tx, core.conf.mTable, core.conf.len, core.stat
    ensures AllRun(cores, schedule + [step], prs') && Interleaves(log', Txs(cores))
  {
    ghost var before, calls := Txs(cores), core.conf.tx.calls;
    prs' := TakeTurn(core, cores, step, schedule, prs);
    ghost var more := Rest(calls, core.conf.tx.calls);
    log' := log + Tagged(step.core, more);
    forall j | 0 <= j < |cores| && j != step.core
      ensures Txs(cores)[j] == before[j]
    {
      assert Disjoint(cores[j], core);
    }
    MoreCalls(log, before, Txs(cores), step.core, more);
  }

  // A core that has not taken a turn yet.
  ghost predicate Fresh(core: Core)
    reads core.conf, core.conf.mTable, core.conf.len, core.stat
  {
    && core.conf.Valid() && Idle(core.conf.tx) && core.env.Ok()
    && core.stat.rx == 0 && core.stat.tx == 0 && core.stat.dropped == 0
  }

  // The schedule only names cores, and only turns they can take.
  ghost predicate Schedulable(cores: seq<Core>, schedule: seq<Step>) {
    forall k :: 0 <= k < |schedule| ==> schedule[k].core < |cores| && cores[schedule[k].core].env.Able(schedule[k].turn)
  }

  // Any number of cores, taking turns in any order; log is what the NIC sees of it.
  method RunCores(cores: seq<Core>, schedule: seq<Step>) returns (ghost prs: seq<Progress>, ghost log: seq<NicCall>)
    requires Apart(cores) && Schedulable(cores, schedule) && forall i :: 0 <= i < |cores| ==> Fresh(cores[i])
    modifies set i | 0 <= i < |cores| :: cores[i].conf, set i | 0 <= i < |cores| :: cores[i].conf.mTable
    modifies set i | 0 <= i < |cores| :: cores[i].conf.len, set i | 0 <= i < |cores| :: cores[i].stat
    ensures AllRun(cores, schedule, prs) && Interleaves(log, Txs(cores))
  {
    prs, log := seq(|cores|, _ => Progress([], NO_HISTORY, [])), [];
    forall i | 0 <= i < |cores|
      ensures Place(cores[i], prs[i]).Runs()
    {
      var e := cores[i].env;
      StartsRunning(cores[i].conf, cores[i].stat, e.queues, e.ports, e.t, e.valEth);
    }
    for k := 0 to |schedule|
      invariant AllRun(cores, schedule[..k], prs) && Interleaves(log, Txs(cores))
    {
      prs, log := TakeTurnLogged(cores[schedule[k].core], cores, schedule[k], schedule[..k], prs, log);
      OneLonger(schedule, k);
    }
    assert schedule[..|schedule|] == schedule;
  }
}
