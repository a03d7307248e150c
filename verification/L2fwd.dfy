// l2fwd/main.c: pairing ports and giving each port to a core.
module L2fwd {
  import opened Words
  import opened Platform

  const MAX_RX_QUEUE_PER_LCORE: nat := 16

  // struct port_pair_params
  datatype Pair = Pair(port0: uint16, port1: uint16) {
    function Port(i: nat): uint16 { if i == 0 then port0 else port1 }
  }

  // ---------------------------------------------------------------- pairing

  // What pairing is for: forwarding from p's destination leads back to p.
  ghost predicate Involution(dst: seq<uint16>, b: Board)
    requires |dst| == RTE_MAX_ETHPORTS && b.Valid()
  {
    forall p: nat {:trigger dst[p]} :: p < RTE_MAX_ETHPORTS && b.Usable(p) ==>
      && b.Usable(dst[p]) && dst[dst[p]] == p
  }

  ghost predicate InPair(pair: Pair, p: nat) { p == pair.port0 || p == pair.port1 }

  // Every pair's ports are usable and no port is in two pairs.
  ghost predicate PairsOk(pairs: seq<Pair>, b: Board, n: nat)
    requires n <= |pairs|
  {
    && (forall k :: 0 <= k < n ==> b.Usable(pairs[k].port0) && b.Usable(pairs[k].port1))
    && (forall j, k, p :: 0 <= j < k < n ==> !(InPair(pairs[j], p) && InPair(pairs[k], p)))
  }

  ghost predicate Paired(pairs: seq<Pair>, n: nat, p: nat)
    requires n <= |pairs|
  {
    exists k :: 0 <= k < n && InPair(pairs[k], p)
  }

  ghost function PairPorts(pairs: seq<Pair>, n: nat): set<nat>
    requires n <= |pairs|
  {
    set p: nat | p < 0x1_0000 && Paired(pairs, n, p)
  }

  lemma PairPortsOn(pairs: seq<Pair>, n: nat)
    requires n < |pairs|
    ensures PairPorts(pairs, n + 1) == PairPorts(pairs, n) + {pairs[n].port0 as nat, pairs[n].port1 as nat}
  {
    forall p: nat
      ensures Paired(pairs, n + 1, p) <==> Paired(pairs, n, p) || InPair(pairs[n], p)
    {
      if Paired(pairs, n, p) {
        var k :| 0 <= k < n && InPair(pairs[k], p);
        assert InPair(pairs[k], p);
      }
    }
  }

  // One pair's ports, or the error.
  method PairMask(pair: Pair, b: Board) returns (r: Option<set<nat>>)
    ensures r.Some? <==> b.Usable(pair.port0) && b.Usable(pair.port1)
    ensures r.Some? ==> r.value == {pair.port0 as nat, pair.port1 as nat}
  {
    var mask: set<nat> := {};
    for i := 0 to 2
      invariant i >= 1 ==> b.Usable(pair.port0)
      invariant i >= 2 ==> b.Usable(pair.port1)
      invariant mask == if i == 0 then {} else if i == 1 then {pair.port0 as nat} else {pair.port0 as nat, pair.port1 as nat}
    {
      var portid := pair.Port(i);
      if portid !in b.mask {
        return None;
      }
      if portid !in b.ports {
        return None;
      }
      mask := mask + {portid as nat};
    }
    return Some(mask);
  }

  // check_port_pair_config: the mask of the paired ports, or the error.
  method CheckPortPairConfig(pairs: seq<Pair>, b: Board) returns (r: Option<set<nat>>)
    ensures r.Some? <==> PairsOk(pairs, b, |pairs|)
    ensures r.Some? ==> r.value == PairPorts(pairs, |pairs|)
  {
    var configMask: set<nat> := {};
    for index := 0 to |pairs|
      invariant PairsOk(pairs, b, index) && configMask == PairPorts(pairs, index)
      invariant configMask <= b.mask
    {
      var pairMask := PairMask(pairs[index], b);
      if pairMask == None {
        return None;
      }
      var mask := pairMask.value;
      if configMask * mask != {} {
        ghost var p :| p in configMask * mask;
        assert Paired(pairs, index, p) && InPair(pairs[index], p);
        return None;
      }
      forall j, p | 0 <= j < index && InPair(pairs[index], p)
        ensures !InPair(pairs[j], p)
      {
        assert p in mask && (p in configMask ==> p in configMask * mask);
        assert !Paired(pairs, index, p);
      }
      PairPortsOn(pairs, index);
      configMask := configMask + mask;
    }
    assert b.mask * configMask == configMask;
    return Some(b.mask * configMask);
  }

  // The first n entries of the pair list, two to a pair, have been entered.
  ghost predicate Entered(dst: seq<uint16>, pairs: seq<Pair>, n: nat)
    requires |dst| == RTE_MAX_ETHPORTS && n <= 2 * |pairs|
    requires forall k :: 0 <= k < |pairs| ==> pairs[k].port0 < RTE_MAX_ETHPORTS && pairs[k].port1 < RTE_MAX_ETHPORTS
  {
    forall k :: 0 <= k < |pairs| ==>
      && (2 * k < n ==> dst[pairs[k].port0] == pairs[k].port1)
      && (2 * k + 1 < n ==> dst[pairs[k].port1] == pairs[k].port0)
  }

  // Entering one more half pair keeps the others: no other pair names its port.
  lemma EnterOne(dst: seq<uint16>, pairs: seq<Pair>, b: Board, idx: nat)
    requires |dst| == RTE_MAX_ETHPORTS && b.Valid() && PairsOk(pairs, b, |pairs|)
    requires idx < 2 * |pairs| && Entered(dst, pairs, idx)
    ensures var p, k := idx % 2, idx / 2;
            Entered(dst[pairs[k].Port(p) := pairs[k].Port(1 - p)], pairs, idx + 1)
  {
    var p, k := idx % 2, idx / 2;
    assert InPair(pairs[k], pairs[k].Port(p));
    forall j | 0 <= j < |pairs| && j != k
      ensures pairs[j].port0 != pairs[k].Port(p) && pairs[j].port1 != pairs[k].Port(p)
    {
      assert !InPair(pairs[j], pairs[k].Port(p));
    }
  }

  lemma EnteredInvolves(dst: seq<uint16>, pairs: seq<Pair>, b: Board)
    requires |dst| == RTE_MAX_ETHPORTS && b.Valid() && PairsOk(pairs, b, |pairs|)
    requires Entered(dst, pairs, 2 * |pairs|)
    ensures Involution(dst, b.(mask := PairPorts(pairs, |pairs|)))
  {
    var b' := b.(mask := PairPorts(pairs, |pairs|));
    forall p: nat | p < RTE_MAX_ETHPORTS && b'.Usable(p)
      ensures b'.Usable(dst[p]) && dst[dst[p]] == p
    {
      var k :| 0 <= k < |pairs| && InPair(pairs[k], p);
      assert 2 * k + 1 < 2 * |pairs|;
      assert InPair(pairs[k], dst[p]);
    }
  }

  // The index of a port's partner: neighbours in the list, a last one alone.
  function Other(i: nat, n: nat): (r: nat)
    requires i < n
    ensures r < n && (r == i || (r == i + 1 && i % 2 == 0) || (r + 1 == i && r % 2 == 0))
  {
    if i % 2 == 1 then i - 1 else if i + 1 < n then i + 1 else i
  }

  lemma OtherOther(i: nat, n: nat)
    requires i < n
    ensures Other(Other(i, n), n) == i
  {}

  // Neighbours in the list s of usable ports are paired, the first n of them.
  ghost predicate Neighbours(dst: seq<uint16>, s: seq<uint16>, n: nat)
    requires |dst| == RTE_MAX_ETHPORTS && n <= |s|
    requires forall i :: 0 <= i < |s| ==> s[i] < RTE_MAX_ETHPORTS
  {
    forall i :: 0 <= i < n ==> dst[s[i]] == s[Other(i, n)]
  }

  // All are paired but a last one of an odd number.
  ghost predicate PairedUp(dst: seq<uint16>, s: seq<uint16>)
    requires |dst| == RTE_MAX_ETHPORTS
  {
    && (forall i :: 0 <= i < |s| ==> s[i] < RTE_MAX_ETHPORTS)
    && (forall i, j :: 0 <= i < j < |s| ==> s[i] < s[j])
    && Neighbours(dst, s, |s| - |s| % 2)
  }

  // The next port waits, or is paired with the one that waits.
  lemma PairedUpOn(dst: seq<uint16>, s: seq<uint16>, p: uint16)
    requires |dst| == RTE_MAX_ETHPORTS && p < RTE_MAX_ETHPORTS && PairedUp(dst, s)
    requires forall i :: 0 <= i < |s| ==> s[i] < p
    ensures |s| % 2 == 0 ==> PairedUp(dst, s + [p])
    ensures |s| % 2 == 1 ==> PairedUp(dst[p := s[|s| - 1]][s[|s| - 1] := p], s + [p])
  {}

  // The last of an odd number is its own.
  lemma PairedUpLast(dst: seq<uint16>, s: seq<uint16>)
    requires |dst| == RTE_MAX_ETHPORTS && PairedUp(dst, s)
    ensures |s| % 2 == 0 ==> Neighbours(dst, s, |s|)
    ensures |s| % 2 == 1 ==> Neighbours(dst[s[|s| - 1] := s[|s| - 1]], s, |s|)
  {}

  lemma NeighboursInvolve(dst: seq<uint16>, b: Board)
    requires |dst| == RTE_MAX_ETHPORTS && b.Valid()
    requires var s := UsableBelow(b, RTE_MAX_ETHPORTS); Neighbours(dst, s, |s|)
    ensures Involution(dst, b)
  {
    var s := UsableBelow(b, RTE_MAX_ETHPORTS);
    forall p: nat | p < RTE_MAX_ETHPORTS && b.Usable(p)
      ensures b.Usable(dst[p]) && dst[dst[p]] == p
    {
      var i := UsableListed(b, RTE_MAX_ETHPORTS, p);
      OtherOther(i, |s|);
      assert dst[s[i]] == s[Other(i, |s|)];
    }
  }

  // ---------------------------------------------------------------- cores

  // The places of the enabled cores below l, q to a core.
  function Places(lcores: set<nat>, q: nat, l: nat): (r: nat)
  {
    if l == 0 then 0 else Places(lcores, q, l - 1) + if l - 1 in lcores then q else 0
  }

  lemma {:induction false} PlacesMeaning(lcores: set<nat>, q: nat, l: nat)
    ensures Places(lcores, q, l) == q * Rank(lcores, l)
  {
    if l == 0 {
    } else {
      PlacesMeaning(lcores, q, l - 1);
    }
  }

  // A core's places come before those of a later one, and a higher rank has more below it.
  lemma {:induction false} PlacesGrow(lcores: set<nat>, q: nat, l: nat, m: nat)
    requires l < m
    ensures Places(lcores, q, l) + (if l in lcores then q else 0) <= Places(lcores, q, m)
    ensures Rank(lcores, l) <= Rank(lcores, m)
    ensures Rank(lcores, l) < Rank(lcores, m) ==> Places(lcores, q, l) + q <= Places(lcores, q, m)
  {
    if l + 1 == m {
    } else {
      PlacesGrow(lcores, q, l, m - 1);
    }
  }

  // The ports core l polls once these are placed: the next q of the list for each enabled
  // core in turn.
  function Polled(ports: seq<uint16>, lcores: set<nat>, q: nat, l: nat): (r: seq<uint16>)
    ensures |r| <= q
  {
    if l !in lcores then []
    else
      var first := Places(lcores, q, l);
      ports[Min(first, |ports|)..Min(first + q, |ports|)]
  }

  // One port more goes to core l.
  lemma PolledOn(ports: seq<uint16>, portid: uint16, lcores: set<nat>, q: nat, l: nat, k: nat)
    requires l in lcores && Places(lcores, q, l) <= |ports| < Places(lcores, q, l) + q
    ensures Polled(ports + [portid], lcores, q, k)
            == if k == l then Polled(ports, lcores, q, l) + [portid] else Polled(ports, lcores, q, k)
  {
    if k < l {
      PlacesGrow(lcores, q, k, l);
    } else if l < k {
      PlacesGrow(lcores, q, l, k);
    }
  }

  // ---------------------------------------------------------------- setup

  datatype Outcome = NoPorts | InvalidPairs | InvalidPortmask | NotEnoughCores | Ready(nbLcores: nat)

  // The ports to forward between: those of the pairs, or those of the mask.
  ghost function Enabled(pairs: Option<seq<Pair>>, b: Board): Board {
    if pairs.Some? then b.(mask := PairPorts(pairs.value, |pairs.value|)) else b
  }

  class L2fwdConf {
    // l2fwd_dst_ports[]
    const dstPorts: array<uint16>
    // lcore_queue_conf[].rx_port_list
    const rxPortList: array<seq<uint16>>

    constructor ()
      ensures Valid() && fresh(dstPorts) && fresh(rxPortList)
      ensures forall l :: 0 <= l < RTE_MAX_LCORE ==> rxPortList[l] == []
    {
      dstPorts := new uint16[RTE_MAX_ETHPORTS](_ => 0);
      rxPortList := new seq<uint16>[RTE_MAX_LCORE](_ => []);
    }

    ghost predicate Valid() {
      dstPorts.Length == RTE_MAX_ETHPORTS && rxPortList.Length == RTE_MAX_LCORE
    }

    // Destinations from the pairs.
    method PairFromMap(pairs: seq<Pair>, b: Board)
      requires Valid() && b.Valid() && PairsOk(pairs, b, |pairs|)
      modifies dstPorts
      ensures Entered(dstPorts[..], pairs, 2 * |pairs|)
    {
      for idx := 0 to 2 * |pairs|
        invariant Entered(dstPorts[..], pairs, idx)
      {
        var p, k := idx % 2, idx / 2;
        EnterOne(dstPorts[..], pairs, b, idx);
        dstPorts[pairs[k].Port(p)] := pairs[k].Port(1 - p);
      }
    }

    // One enabled port waits, or is paired with the one that waits.
    method PairPort(portid: uint16, nbPortsInMask: nat, last: uint16, ghost s: seq<uint16>) returns (lastPort: uint16)
      requires Valid() && portid < RTE_MAX_ETHPORTS && PairedUp(dstPorts[..], s) && nbPortsInMask == |s|
      requires forall i :: 0 <= i < |s| ==> s[i] < portid
      requires |s| % 2 == 1 ==> last == s[|s| - 1]
      modifies dstPorts
      ensures PairedUp(dstPorts[..], s + [portid])
      ensures (|s| + 1) % 2 == 1 ==> lastPort == portid
    {
      lastPort := last;
      ghost var was := dstPorts[..];
      PairedUpOn(was, s, portid);
      if nbPortsInMask % 2 == 1 {
        dstPorts[portid] := lastPort;
        dstPorts[lastPort] := portid;
        ghost var half: seq<uint16> := was[portid := lastPort];
        assert dstPorts[..] == half[lastPort := portid];
      } else {
        lastPort := portid;
      }
    }

    // A last port that still waits is its own.
    method PairLast(nbPortsInMask: nat, lastPort: uint16, ghost s: seq<uint16>)
      requires Valid() && PairedUp(dstPorts[..], s) && nbPortsInMask == |s|
      requires |s| % 2 == 1 ==> lastPort == s[|s| - 1]
      modifies dstPorts
      ensures Neighbours(dstPorts[..], s, |s|)
    {
      PairedUpLast(dstPorts[..], s);
      if nbPortsInMask % 2 == 1 {
        ghost var was := dstPorts[..];
        dstPorts[lastPort] := lastPort;
        assert dstPorts[..] == was[lastPort := lastPort];
      }
    }

    // Destinations from the mask: neighbours are paired, and an odd one is its own.
    method PairFromMask(b: Board)
      requires Valid() && b.Valid()
      modifies dstPorts
      ensures var s := UsableBelow(b, RTE_MAX_ETHPORTS); Neighbours(dstPorts[..], s, |s|)
    {
      var nbPortsInMask, lastPort: uint16 := 0, 0;
      ghost var s: seq<uint16> := [];
      for portid := 0 to RTE_MAX_ETHPORTS
        invariant s == UsableBelow(b, portid) && nbPortsInMask == |s|
        invariant |s| % 2 == 1 ==> lastPort == s[|s| - 1]
        invariant PairedUp(dstPorts[..], s)
      {
        if !b.Usable(portid) {
          continue;
        }
        lastPort := PairPort(portid, nbPortsInMask, lastPort, s);
        nbPortsInMask := nbPortsInMask + 1;
        s := s + [portid];
      }
      PairLast(nbPortsInMask, lastPort, s);
    }

    // The ports each core polls.
    ghost predicate Polls(ports: seq<uint16>, lcores: set<nat>, q: nat)
      requires Valid()
      reads rxPortList
    {
      forall l :: 0 <= l < RTE_MAX_LCORE ==> rxPortList[l] == Polled(ports, lcores, q, l)
    }

    // The next core with room, or the exit when there is none.
    method FindLcore(b: Board, q: nat, from: nat, ghost ports: seq<uint16>) returns (r: Option<nat>)
      requires Valid() && b.Valid() && 0 < q && from < RTE_MAX_LCORE
      requires Places(b.lcores, q, from) <= |ports| <= Places(b.lcores, q, from + 1)
      requires Polls(ports, b.lcores, q)
      ensures r == None ==> |ports| == Places(b.lcores, q, RTE_MAX_LCORE)
      ensures r.Some? ==>
                && from <= r.value < RTE_MAX_LCORE && r.value in b.lcores
                && Places(b.lcores, q, r.value) <= |ports| < Places(b.lcores, q, r.value) + q
    {
      var rxLcoreId := from;
      while rxLcoreId !in b.lcores || |rxPortList[rxLcoreId]| == q
        invariant from <= rxLcoreId < RTE_MAX_LCORE
        invariant Places(b.lcores, q, rxLcoreId) <= |ports| <= Places(b.lcores, q, rxLcoreId + 1)
        decreases RTE_MAX_LCORE - rxLcoreId
      {
        rxLcoreId := rxLcoreId + 1;
        if rxLcoreId >= RTE_MAX_LCORE {
          return None;
        }
      }
      return Some(rxLcoreId);
    }

    // One port is appended to the list of the core found.
    method Append(b: Board, q: nat, l: nat, portid: uint16, ghost ports: seq<uint16>)
      requires Valid() && l < RTE_MAX_LCORE && l in b.lcores && q < MAX_RX_QUEUE_PER_LCORE
      requires Places(b.lcores, q, l) <= |ports| < Places(b.lcores, q, l) + q
      requires Polls(ports, b.lcores, q)
      modifies rxPortList
      ensures Polls(ports + [portid], b.lcores, q)
    {
      forall k: nat
        ensures Polled(ports + [portid], b.lcores, q, k)
                == if k == l then Polled(ports, b.lcores, q, l) + [portid] else Polled(ports, b.lcores, q, k)
      {
        PolledOn(ports, portid, b.lcores, q, l, k);
      }
      assert |rxPortList[l]| < MAX_RX_QUEUE_PER_LCORE;
      rxPortList[l] := rxPortList[l] + [portid];
    }

    // The assignment loop: first fit, q ports to a core. It fails exactly when the ports
    // outnumber the places, and otherwise uses as few cores as hold them.
    method AssignLcores(b: Board, q: nat) returns (r: Option<nat>)
      requires Valid() && b.Valid() && 1 <= q < MAX_RX_QUEUE_PER_LCORE
      requires forall l :: 0 <= l < RTE_MAX_LCORE ==> rxPortList[l] == []
      modifies rxPortList
      ensures r == None <==> |UsableBelow(b, RTE_MAX_ETHPORTS)| > q * Rank(b.lcores, RTE_MAX_LCORE)
      ensures r.Some? ==> (r.value - 1) * q < |UsableBelow(b, RTE_MAX_ETHPORTS)| <= r.value * q
      ensures r.Some? ==> Polls(UsableBelow(b, RTE_MAX_ETHPORTS), b.lcores, q)
    {
      var rxLcoreId, qconf, nbLcores := 0, None, 0;
      ghost var ports: seq<uint16> := [];
      for portid := 0 to RTE_MAX_ETHPORTS
        invariant ports == UsableBelow(b, portid)
        invariant Cursor(b.lcores, q, |ports|, rxLcoreId, qconf, nbLcores)
        invariant Polls(ports, b.lcores, q)
      {
        if !b.Usable(portid) {
          continue;
        }
        var found := FindLcore(b, q, rxLcoreId, ports);
        if found == None {
          UsableSoFar(b, portid + 1, RTE_MAX_ETHPORTS);
          PlacesMeaning(b.lcores, q, RTE_MAX_LCORE);
          return None;
        }
        if qconf != found {
          NextCore(b.lcores, q, |ports|, rxLcoreId, found.value, qconf.Some?);
          qconf := found;
          nbLcores := nbLcores + 1;
        }
        rxLcoreId := found.value;
        Append(b, q, rxLcoreId, portid, ports);
        ports := ports + [portid];
      }
      CursorBound(b.lcores, q, |ports|, rxLcoreId, qconf, nbLcores);
      return Some(nbLcores);
    }
  }

  // n ports are placed: the cores before rxLcoreId are full, it is the last one used, and
  // nbLcores of them are used.
  ghost predicate Cursor(lcores: set<nat>, q: nat, n: nat, rxLcoreId: nat, qconf: Option<nat>, nbLcores: nat) {
    && rxLcoreId < RTE_MAX_LCORE
    && Places(lcores, q, rxLcoreId) <= n <= Places(lcores, q, rxLcoreId + 1)
    && (qconf == None ==> nbLcores == 0 == n)
    && (qconf.Some? ==>
          && qconf.value == rxLcoreId && rxLcoreId in lcores
          && nbLcores == Rank(lcores, rxLcoreId) + 1 && Places(lcores, q, rxLcoreId) < n)
  }

  lemma CursorBound(lcores: set<nat>, q: nat, n: nat, rxLcoreId: nat, qconf: Option<nat>, nbLcores: nat)
    requires 0 < q && Cursor(lcores, q, n, rxLcoreId, qconf, nbLcores)
    ensures (nbLcores - 1) * q < n <= nbLcores * q
    ensures n <= q * Rank(lcores, RTE_MAX_LCORE)
  {
    PlacesBound(lcores, q, rxLcoreId);
    if qconf.Some? {
      PlacesMeaning(lcores, q, rxLcoreId);
      var r := Rank(lcores, rxLcoreId);
      assert (nbLcores - 1) * q == q * r && nbLcores * q == q * r + q;
    }
  }

  // A newly used core ranks right after the last one.
  lemma NextCore(lcores: set<nat>, q: nat, n: nat, from: nat, to: nat, used: bool)
    requires 0 < q && from <= to && to in lcores
    requires Places(lcores, q, to) <= n <= Places(lcores, q, from + 1)
    requires if used then from in lcores && from != to else n == 0
    ensures Rank(lcores, to) == if used then Rank(lcores, from) + 1 else 0
  {
    if used {
      if from + 1 < to {
        PlacesGrow(lcores, q, from + 1, to);
      }
    } else if to > 0 {
      PlacesGrow(lcores, q, 0, to);
    }
  }

  lemma PlacesBound(lcores: set<nat>, q: nat, l: nat)
    requires l < RTE_MAX_LCORE
    ensures Places(lcores, q, l + 1) <= q * Rank(lcores, RTE_MAX_LCORE)
  {
    if l + 1 < RTE_MAX_LCORE {
      PlacesGrow(lcores, q, l + 1, RTE_MAX_LCORE);
    }
    PlacesMeaning(lcores, q, RTE_MAX_LCORE);
  }

  // Every port is polled by exactly one core, once.
  lemma PolledExactlyOnce(ports: seq<uint16>, lcores: set<nat>, q: nat, i: nat) returns (l: nat, k: nat)
    requires 0 < q && i < |ports| <= q * Rank(lcores, RTE_MAX_LCORE)
    requires forall j, k :: 0 <= j < k < |ports| ==> ports[j] != ports[k]
    ensures l in lcores && l < RTE_MAX_LCORE
    ensures k < |Polled(ports, lcores, q, l)| && Polled(ports, lcores, q, l)[k] == ports[i]
    ensures forall m, j :: 0 <= j < |Polled(ports, lcores, q, m)| && Polled(ports, lcores, q, m)[j] == ports[i]
              ==> m == l && j == k
  {
    PlacesMeaning(lcores, q, RTE_MAX_LCORE);
    l := CoreOf(lcores, q, i, RTE_MAX_LCORE);
    k := i - Places(lcores, q, l);
    forall m: nat, j | 0 <= j < |Polled(ports, lcores, q, m)| && Polled(ports, lcores, q, m)[j] == ports[i]
      ensures m == l && j == k
    {
      assert ports[Places(lcores, q, m) + j] == ports[i];
      if m < l {
        PlacesGrow(lcores, q, m, l);
      } else if l < m {
        PlacesGrow(lcores, q, l, m);
      }
    }
  }

  // The core whose places include place i.
  lemma {:induction false} CoreOf(lcores: set<nat>, q: nat, i: nat, n: nat) returns (l: nat)
    requires i < Places(lcores, q, n)
    ensures l < n && l in lcores && Places(lcores, q, l) <= i < Places(lcores, q, l) + q
  {
    if i < Places(lcores, q, n - 1) {
      l := CoreOf(lcores, q, i, n - 1);
    } else {
      l := n - 1;
    }
  }

  // ---------------------------------------------------------------- main

  // The configuration part of main, in its order.
  method Configure(c: L2fwdConf, pairs: Option<seq<Pair>>, b: Board, nbPorts: nat, q: nat) returns (r: Outcome)
    requires c.Valid() && b.Valid() && 1 <= q < MAX_RX_QUEUE_PER_LCORE
    requires forall l :: 0 <= l < RTE_MAX_LCORE ==> c.rxPortList[l] == []
    modifies c.dstPorts, c.rxPortList
    ensures r == NoPorts <==> nbPorts == 0
    ensures r == InvalidPairs <==> nbPorts > 0 && pairs.Some? && !PairsOk(pairs.value, b, |pairs.value|)
    ensures r.Ready? || r == NotEnoughCores ==>
              var e := Enabled(pairs, b); var s := UsableBelow(e, RTE_MAX_ETHPORTS);
              && (forall p :: p in e.mask ==> p < nbPorts)
              && (r == NotEnoughCores <==> |s| > q * Rank(b.lcores, RTE_MAX_LCORE))
              && Involution(c.dstPorts[..], e)
    ensures r.Ready? ==>
              var e := Enabled(pairs, b); var s := UsableBelow(e, RTE_MAX_ETHPORTS);
              && (r.nbLcores - 1) * q < |s| <= r.nbLcores * q
              && c.Polls(s, b.lcores, q)
    ensures r == InvalidPortmask <==>
              && nbPorts > 0 && (pairs.Some? ==> PairsOk(pairs.value, b, |pairs.value|))
              && exists p :: p in Enabled(pairs, b).mask && p >= nbPorts
  {
    if nbPorts == 0 {
      return NoPorts;
    }
    var e := b;
    if pairs.Some? {
      var mask := CheckPortPairConfig(pairs.value, b);
      if mask == None {
        return InvalidPairs;
      }
      e := b.(mask := mask.value);
    }
    if exists p :: p in e.mask && p >= nbPorts {
      return InvalidPortmask;
    }
    if pairs.Some? {
      c.PairFromMap(pairs.value, b);
      EnteredInvolves(c.dstPorts[..], pairs.value, b);
    } else {
      c.PairFromMask(e);
      NeighboursInvolve(c.dstPorts[..], e);
    }
    var n := c.AssignLcores(e, q);
    if n == None {
      return NotEnoughCores;
    }
    return Ready(n.value);
  }
}
