// l3fwd/main.c: which core polls which receive queue, and which transmit queue it owns.
module QueueSetup {
  import opened Words
  import opened Platform

  const MAX_TX_QUEUE_PER_PORT: nat := RTE_MAX_LCORE
  const MAX_RX_QUEUE_PER_PORT: nat := 128
  const MAX_RX_QUEUE_PER_LCORE: nat := 16
  const MAX_LCORE_PARAMS: nat := 1024

  // struct lcore_params
  datatype LcoreParams = LcoreParams(port: uint16, queue: uint16, lcore: uint32)

  // The receive queues the first n parameters give core l, in order.
  function Share(ps: seq<LcoreParams>, l: nat, n: nat): (r: seq<RxQueue>)
    requires n <= |ps|
    ensures |r| <= n
  {
    if n == 0 then []
    else
      var r := Share(ps, l, n - 1);
      if ps[n - 1].lcore == l then r + [RxQueue(ps[n - 1].port, ps[n - 1].queue)] else r
  }

  // The queue ids the first n parameters name for a port, in order.
  function PortQueues(ps: seq<LcoreParams>, port: uint16, n: nat): (r: seq<uint16>)
    requires n <= |ps|
    ensures |r| <= n
  {
    if n == 0 then []
    else
      var r := PortQueues(ps, port, n - 1);
      if ps[n - 1].port == port then r + [ps[n - 1].queue] else r
  }

  ghost predicate InSequence(qs: seq<uint16>) {
    forall i :: 0 <= i < |qs| ==> qs[i] == i
  }

  // The first n parameters.
  ghost predicate LcoresOk(ps: seq<LcoreParams>, b: Board) {
    forall i :: 0 <= i < |ps| ==> ps[i].queue < 128 && ps[i].lcore in b.lcores
  }

  ghost predicate PortsOk(ps: seq<LcoreParams>, b: Board) {
    forall i :: 0 <= i < |ps| ==> b.Usable(ps[i].port)
  }

  ghost predicate SharesFit(ps: seq<LcoreParams>, n: nat)
    requires n <= |ps|
  {
    forall l :: 0 <= l < RTE_MAX_LCORE ==> |Share(ps, l, n)| <= 16
  }

  method CheckLcoreParams(ps: seq<LcoreParams>, b: Board) returns (ok: bool)
    ensures ok <==> LcoresOk(ps, b)
  {
    for i := 0 to |ps|
      invariant forall k :: 0 <= k < i ==> ps[k].queue < MAX_RX_QUEUE_PER_PORT && ps[k].lcore in b.lcores
    {
      if ps[i].queue >= MAX_RX_QUEUE_PER_PORT {
        return false;
      }
      if ps[i].lcore !in b.lcores {
        return false;
      }
    }
    return true;
  }

  method CheckPortConfig(ps: seq<LcoreParams>, b: Board) returns (ok: bool)
    ensures ok <==> PortsOk(ps, b)
  {
    for i := 0 to |ps|
      invariant forall k :: 0 <= k < i ==> b.Usable(ps[k].port)
    {
      if ps[i].port !in b.mask {
        return false;
      }
      if ps[i].port !in b.ports {
        return false;
      }
    }
    return true;
  }

  // A list in sequence starts in sequence.
  lemma {:induction false} PrefixInSequence(ps: seq<LcoreParams>, port: uint16, i: nat, n: nat)
    requires i <= n <= |ps| && InSequence(PortQueues(ps, port, n))
    ensures InSequence(PortQueues(ps, port, i))
  {
    if i == n {
    } else {
      var r := PortQueues(ps, port, n - 1);
      assert forall k :: 0 <= k < |r| ==> r[k] == PortQueues(ps, port, n)[k];
      PrefixInSequence(ps, port, i, n - 1);
    }
  }

  // get_port_n_rx_queues: the number of queues, or the exit when their ids are not 0, 1, 2...
  method GetPortNRxQueues(ps: seq<LcoreParams>, port: uint16) returns (r: Option<uint16>)
    requires |ps| <= MAX_LCORE_PARAMS
    ensures r.Some? <==> InSequence(PortQueues(ps, port, |ps|))
    ensures r.Some? ==> r.value == |PortQueues(ps, port, |ps|)|
  {
    var queue: int := -1;
    for i := 0 to |ps|
      invariant InSequence(PortQueues(ps, port, i)) && queue + 1 == |PortQueues(ps, port, i)|
    {
      if ps[i].port == port {
        if ps[i].queue == queue + 1 {
          queue := ps[i].queue;
        } else {
          assert PortQueues(ps, port, i + 1)[queue + 1] != queue + 1;
          if InSequence(PortQueues(ps, port, |ps|)) {
            PrefixInSequence(ps, port, i + 1, |ps|);
          }
          return None;
        }
      }
    }
    return Some(queue + 1);
  }

  // ---------------------------------------------------------------- setup

  // lcore_conf[]: per core, the receive queues it polls, the ports it sends on and its
  // transmit queue on each. And per port, the queues it is configured with.
  class LcoreQueues {
    const rxQueueList: array<seq<RxQueue>>
    const txPortId: array<seq<uint16>>
    const txQueueId: array2<uint16>
    const nRxQueue: array<uint16>
    const nTxQueue: array<nat>

    constructor ()
      ensures Valid() && Empty()
      ensures fresh(rxQueueList) && fresh(txPortId) && fresh(txQueueId) && fresh(nRxQueue) && fresh(nTxQueue)
    {
      rxQueueList := new seq<RxQueue>[RTE_MAX_LCORE](_ => []);
      txPortId := new seq<uint16>[RTE_MAX_LCORE](_ => []);
      txQueueId := new uint16[RTE_MAX_LCORE, RTE_MAX_ETHPORTS]((_, _) => 0);
      nRxQueue := new uint16[RTE_MAX_ETHPORTS](_ => 0);
      nTxQueue := new nat[RTE_MAX_ETHPORTS](_ => 0);
    }

    ghost predicate Valid() {
      && rxQueueList.Length == RTE_MAX_LCORE && txPortId.Length == RTE_MAX_LCORE
      && txQueueId.Length0 == RTE_MAX_LCORE && txQueueId.Length1 == RTE_MAX_ETHPORTS
      && nRxQueue.Length == RTE_MAX_ETHPORTS && nTxQueue.Length == RTE_MAX_ETHPORTS
      && nRxQueue as object != nTxQueue as object
    }

    ghost predicate Empty()
      requires Valid()
      reads rxQueueList, txPortId
    {
      forall l :: 0 <= l < RTE_MAX_LCORE ==> rxQueueList[l] == [] && txPortId[l] == []
    }

    // Every core holds its share of the receive queues.
    ghost predicate Shared(ps: seq<LcoreParams>, n: nat)
      requires Valid() && n <= |ps|
      reads rxQueueList
    {
      forall l :: 0 <= l < RTE_MAX_LCORE ==> rxQueueList[l] == Share(ps, l, n)
    }

    // Every enabled core sends on every usable port below n, on the queue of its rank.
    ghost predicate Numbered(b: Board, n: nat)
      requires Valid() && b.Valid() && n <= RTE_MAX_ETHPORTS
      reads txPortId, txQueueId
    {
      forall l :: l in b.lcores ==>
        && txPortId[l] == UsableBelow(b, n)
        && forall p: nat :: p < n && b.Usable(p) ==> txQueueId[l, p] == Rank(b.lcores, l)
    }

    // Every usable port below n has as many queues as are named for it, one per core to send.
    ghost predicate Configured(ps: seq<LcoreParams>, b: Board, n: nat)
      requires Valid() && n <= RTE_MAX_ETHPORTS
      reads nRxQueue, nTxQueue
    {
      forall p: nat :: p < n && b.Usable(p) ==>
        && InSequence(PortQueues(ps, p, |ps|)) && nRxQueue[p] == |PortQueues(ps, p, |ps|)|
        && nTxQueue[p] == Rank(b.lcores, RTE_MAX_LCORE)
    }

    // init_lcore_rx_queues
    method InitLcoreRxQueues(ps: seq<LcoreParams>, b: Board) returns (ok: bool)
      requires Valid() && b.Valid() && LcoresOk(ps, b)
      requires forall l :: 0 <= l < RTE_MAX_LCORE ==> rxQueueList[l] == []
      modifies rxQueueList
      ensures ok <==> SharesFit(ps, |ps|)
      ensures ok ==> Shared(ps, |ps|)
    {
      for i := 0 to |ps|
        invariant Shared(ps, i) && SharesFit(ps, i)
      {
        var lcore := ps[i].lcore;
        if |rxQueueList[lcore]| >= MAX_RX_QUEUE_PER_LCORE {
          ShareGrows(ps, lcore, i + 1, |ps|);
          assert |Share(ps, lcore, |ps|)| > MAX_RX_QUEUE_PER_LCORE;
          return false;
        }
        rxQueueList[lcore] := rxQueueList[lcore] + [RxQueue(ps[i].port, ps[i].queue)];
      }
      return true;
    }

    // One transmit queue for each enabled core, numbered in core order.
    method InitTxQueues(portid: uint16, b: Board)
      requires Valid() && b.Valid() && portid < RTE_MAX_ETHPORTS
      requires Numbered(b, portid) && b.Usable(portid)
      modifies txPortId, txQueueId
      ensures Numbered(b, portid + 1)
    {
      var queueid := 0;
      for l := 0 to RTE_MAX_LCORE
        invariant queueid == Rank(b.lcores, l)
        invariant forall k :: k in b.lcores && k < l ==>
          txPortId[k] == UsableBelow(b, portid + 1) && txQueueId[k, portid] == Rank(b.lcores, k)
        invariant forall k :: k in b.lcores && l <= k ==> txPortId[k] == UsableBelow(b, portid)
        invariant forall k, p: nat :: k in b.lcores && p < portid && b.Usable(p) ==>
          txQueueId[k, p] == Rank(b.lcores, k)
      {
        if l !in b.lcores {
          continue;
        }
        txQueueId[l, portid] := queueid;
        queueid := queueid + 1;
        txPortId[l] := txPortId[l] + [portid];
      }
    }

    // The queue assignment of l3fwd_poll_resource_setup. It succeeds exactly when the
    // parameters are acceptable, and then every core has its queues.
    method PollResourceSetup(ps: seq<LcoreParams>, b: Board) returns (ok: bool)
      requires Valid() && b.Valid() && Empty() && |ps| <= MAX_LCORE_PARAMS
      modifies rxQueueList, txPortId, txQueueId, nRxQueue, nTxQueue
      ensures ok <==> Acceptable(ps, b)
      ensures ok ==> Shared(ps, |ps|)
      ensures ok ==> Numbered(b, RTE_MAX_ETHPORTS) && Configured(ps, b, RTE_MAX_ETHPORTS)
    {
      ok := CheckLcoreParams(ps, b);
      if !ok { return; }
      ok := InitLcoreRxQueues(ps, b);
      if !ok { return; }
      ok := CheckPortConfig(ps, b);
      if !ok { return; }
      var nbLcores := CountLcores(b);
      for portid := 0 to RTE_MAX_ETHPORTS
        invariant Shared(ps, |ps|) && Numbered(b, portid) && Configured(ps, b, portid)
      {
        if !b.Usable(portid) {
          continue;
        }
        var n := GetPortNRxQueues(ps, portid);
        if n == None {
          return false;
        }
        RankGrows(b.lcores, 0, RTE_MAX_LCORE);
        nRxQueue[portid] := n.value;
        nTxQueue[portid] := CapTxQueues(nbLcores);
        InitTxQueues(portid, b);
      }
      return true;
    }
  }

  function CapTxQueues(nbLcores: nat): nat {
    if nbLcores > MAX_TX_QUEUE_PER_PORT then MAX_TX_QUEUE_PER_PORT else nbLcores
  }

  // rte_lcore_count
  method CountLcores(b: Board) returns (n: nat)
    ensures n == Rank(b.lcores, RTE_MAX_LCORE)
  {
    n := 0;
    for l := 0 to RTE_MAX_LCORE
      invariant n == Rank(b.lcores, l)
    {
      if l in b.lcores {
        n := n + 1;
      }
    }
  }

  ghost predicate Acceptable(ps: seq<LcoreParams>, b: Board) {
    && LcoresOk(ps, b) && PortsOk(ps, b) && SharesFit(ps, |ps|)
    && forall p: nat :: p < RTE_MAX_ETHPORTS && b.Usable(p) ==> InSequence(PortQueues(ps, p, |ps|))
  }

  lemma {:induction false} ShareGrows(ps: seq<LcoreParams>, l: nat, i: nat, n: nat)
    requires i <= n <= |ps|
    ensures Share(ps, l, i) <= Share(ps, l, n)
  {
    if i == n {
    } else {
      ShareGrows(ps, l, i, n - 1);
    }
  }

  // ---------------------------------------------------------------- exclusivity

  // The parameter behind an entry of a core's list.
  lemma {:induction false} ShareFrom(ps: seq<LcoreParams>, l: nat, n: nat, i: nat) returns (k: nat)
    requires n <= |ps| && i < |Share(ps, l, n)|
    ensures k < n && ps[k].lcore == l && Share(ps, l, n)[i] == RxQueue(ps[k].port, ps[k].queue)
    ensures |Share(ps, l, k)| == i
  {
    if ps[n - 1].lcore == l && i == |Share(ps, l, n - 1)| {
      k := n - 1;
    } else {
      k := ShareFrom(ps, l, n - 1, i);
    }
  }

  // The entry behind a parameter.
  lemma {:induction false} ShareOf(ps: seq<LcoreParams>, n: nat, k: nat)
    requires k < n <= |ps|
    ensures var l, i := ps[k].lcore, |Share(ps, ps[k].lcore, k)|;
            i < |Share(ps, l, n)| && Share(ps, l, n)[i] == RxQueue(ps[k].port, ps[k].queue)
  {
    var l := ps[k].lcore;
    assert Share(ps, l, k + 1)[|Share(ps, l, k)|] == RxQueue(ps[k].port, ps[k].queue);
    ShareGrows(ps, l, k + 1, n);
  }

  // The place of parameter k among the queues of its port.
  lemma {:induction false} QueueOf(ps: seq<LcoreParams>, n: nat, k: nat)
    requires k < n <= |ps|
    ensures var port, i := ps[k].port, |PortQueues(ps, ps[k].port, k)|;
            i < |PortQueues(ps, port, n)| && PortQueues(ps, port, n)[i] == ps[k].queue
  {
    if k == n - 1 {
    } else {
      QueueOf(ps, n - 1, k);
    }
  }

  // Different parameters of one port have different places.
  lemma {:induction false} QueuesApart(ps: seq<LcoreParams>, k: nat, m: nat)
    requires k < m < |ps| && ps[k].port == ps[m].port
    ensures |PortQueues(ps, ps[k].port, k)| < |PortQueues(ps, ps[m].port, m)|
  {
    if k + 1 < m {
      var port := ps[k].port;
      QueueOf(ps, m, k);
    }
  }

  // The parameter of a port's queue.
  lemma {:induction false} QueueFrom(ps: seq<LcoreParams>, port: uint16, n: nat, i: nat) returns (k: nat)
    requires n <= |ps| && i < |PortQueues(ps, port, n)|
    ensures k < n && ps[k].port == port && PortQueues(ps, port, n)[i] == ps[k].queue
  {
    if ps[n - 1].port == port && i == |PortQueues(ps, port, n - 1)| {
      k := n - 1;
    } else {
      k := QueueFrom(ps, port, n - 1, i);
    }
  }

  // Where the receive queues are in sequence, no two parameters name the same one.
  lemma NamedOnce(ps: seq<LcoreParams>, k: nat, m: nat)
    requires k < |ps| && m < |ps| && ps[k].port == ps[m].port && ps[k].queue == ps[m].queue
    requires InSequence(PortQueues(ps, ps[k].port, |ps|))
    ensures k == m
  {
    QueueOf(ps, |ps|, k);
    QueueOf(ps, |ps|, m);
    if k < m {
      QueuesApart(ps, k, m);
    } else if m < k {
      QueuesApart(ps, m, k);
    }
  }

  // Receive exclusivity: after a successful setup each configured receive queue is polled by
  // exactly one core, which polls it once.
  lemma PolledExactlyOnce(ps: seq<LcoreParams>, b: Board, p: uint16, q: uint16) returns (l: nat, i: nat)
    requires b.Valid() && Acceptable(ps, b) && b.Usable(p) && q < |PortQueues(ps, p, |ps|)|
    ensures l in b.lcores && i < |Share(ps, l, |ps|)| && Share(ps, l, |ps|)[i] == RxQueue(p, q)
    ensures forall l', i' :: 0 <= i' < |Share(ps, l', |ps|)| && Share(ps, l', |ps|)[i'] == RxQueue(p, q)
              ==> l' == l && i' == i
  {
    var k := QueueFrom(ps, p, |ps|, q);
    ShareOf(ps, |ps|, k);
    l, i := ps[k].lcore, |Share(ps, ps[k].lcore, k)|;
    forall l': nat, i' | 0 <= i' < |Share(ps, l', |ps|)| && Share(ps, l', |ps|)[i'] == RxQueue(p, q)
      ensures l' == l && i' == i
    {
      var m := ShareFrom(ps, l', |ps|, i');
      NamedOnce(ps, k, m);
    }
  }

  // And nothing else is polled.
  lemma OnlyConfigured(ps: seq<LcoreParams>, b: Board, l: nat, i: nat)
    requires b.Valid() && Acceptable(ps, b) && i < |Share(ps, l, |ps|)|
    ensures var r := Share(ps, l, |ps|)[i];
            l in b.lcores && b.Usable(r.port) && r.queue < |PortQueues(ps, r.port, |ps|)|
  {
    var k := ShareFrom(ps, l, |ps|, i);
    QueueOf(ps, |ps|, k);
  }

  // Transmit exclusivity: no two cores send on the same queue of a port, and every queue id is
  // one the port was configured with.
  lemma SentApart(c: LcoreQueues, ps: seq<LcoreParams>, b: Board, p: nat, l: nat, m: nat)
    requires c.Valid() && b.Valid() && c.Numbered(b, RTE_MAX_ETHPORTS) && c.Configured(ps, b, RTE_MAX_ETHPORTS)
    requires p < RTE_MAX_ETHPORTS && b.Usable(p) && l in b.lcores && m in b.lcores && l != m
    ensures c.txQueueId[l, p] != c.txQueueId[m, p]
    ensures c.txQueueId[l, p] < c.nTxQueue[p]
  {
    RankGrows(b.lcores, l, RTE_MAX_LCORE);
    RanksApart(b.lcores, l, m);
  }

  // A core drains exactly the usable ports, each once.
  lemma ListedExactly(c: LcoreQueues, b: Board, l: nat, p: uint16)
    requires c.Valid() && b.Valid() && c.Numbered(b, RTE_MAX_ETHPORTS) && l in b.lcores
    ensures p in c.txPortId[l] <==> b.Usable(p)
    ensures forall i, j :: 0 <= i < j < |c.txPortId[l]| ==> c.txPortId[l][i] != c.txPortId[l][j]
  {
    var ports := UsableBelow(b, RTE_MAX_ETHPORTS);
    assert c.txPortId[l] == ports;
    if b.Usable(p) {
      var i := UsableListed(b, RTE_MAX_ETHPORTS, p);
    }
  }
}
