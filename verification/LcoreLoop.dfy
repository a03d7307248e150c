// l3fwd/l3fwd_lpm.c: what lpm_main_loop does whichever way it looks packets up: receive
// buffers, counters, the drain, and the laws that hold at every drain point of a run.
module LcoreLoop {
  import opened Words
  import opened Platform
  import opened Headers
  import opened TxState
  import opened TxBuffer
  import opened LpmClassify
  import SendMulti

  // rte_eth_rx_burst on a queue of a port: distinct buffers not in use, holding the frames
  // off the wire.
  method RxBurst(frames: seq<Packet>, rx: RxQueue) returns (pkts: seq<Mbuf>)
    requires AllRoomy(frames)
    ensures Burst(pkts) && Shows(pkts, frames) && Distinct(pkts)
    ensures forall i {:trigger pkts[i]} :: 0 <= i < |pkts| ==> fresh(pkts[i]) && fresh(pkts[i].data)
  {
    pkts := [];
    for n := 0 to |frames|
      invariant |pkts| == n && Burst(pkts) && Shows(pkts, frames[..n]) && Distinct(pkts)
      invariant forall i {:trigger pkts[i]} :: 0 <= i < |pkts| ==> fresh(pkts[i]) && fresh(pkts[i].data)
    {
      var m := new Mbuf(frames[n].bytes, frames[n].ptype, rx.port);
      pkts := pkts + [m];
    }
    assert frames[..|frames|] == frames;
  }

  const TWO64: nat := 0x1_0000_0000_0000_0000

  // Addition on a uint64_t counter.
  function Add64(x: uint64, y: nat): uint64 {
    var s: int := x + y;
    s % TWO64
  }

  // struct lcore_stat
  class LcoreStat {
    var rx: uint64
    var tx: uint64
    var dropped: uint64

    constructor ()
      ensures rx == 0 && tx == 0 && dropped == 0
    {
      rx, tx, dropped := 0, 0, 0;
    }

    // The counters are the true counts, modulo their width.
    ghost predicate Counts(received: nat, sent: nat, freed: nat)
      reads this
    {
      && rx == received % 0x1_0000_0000_0000_0000
      && tx == sent % 0x1_0000_0000_0000_0000
      && dropped == freed % 0x1_0000_0000_0000_0000
    }

    method AddRx(n: nat, ghost received: nat, ghost sent: nat, ghost freed: nat)
      requires Counts(received, sent, freed)
      modifies this
      ensures Counts(received + n, sent, freed)
    {
      AddCounts(rx, received, n);
      rx := Add64(rx, n);
    }

    method AddTx(n: nat, m: nat, ghost received: nat, ghost sent: nat, ghost freed: nat)
      requires Counts(received, sent, freed)
      modifies this
      ensures Counts(received, sent + n, freed + m)
    {
      AddCounts(tx, sent, n);
      AddCounts(dropped, freed, m);
      tx := Add64(tx, n);
      dropped := Add64(dropped, m);
    }
  }

  lemma AddCounts(x: uint64, a: nat, y: nat)
    requires x == a % TWO64
    ensures Add64(x, y) == (a + y) % TWO64
  {
    var q := a / TWO64;
    assert a == q * TWO64 + x;
    ModPlus(x + y, q);
  }

  lemma ModPlus(x: nat, q: nat)
    ensures (x + q * TWO64) % TWO64 == x % TWO64
  {
    var k, r := x / TWO64, x % TWO64;
    assert x + q * TWO64 == (k + q) * TWO64 + r;
  }

  // One port of the drain.
  method FlushPort(conf: LcoreConf, portid: nat) returns (n: nat)
    requires conf.Valid() && portid < RTE_MAX_ETHPORTS
    modifies conf`tx, conf.len
    ensures conf.Valid() && Delivered(old(conf.tx), conf.tx, [], [])
    ensures n <= old(conf.len[portid]) == |old(conf.tx).buf[portid]|
    ensures Sent(conf.tx) == Sent(old(conf.tx)) + n
    ensures Dropped(conf.tx) == Dropped(old(conf.tx)) + old(conf.len[portid]) - n
    ensures conf.tx.buf == old(conf.tx).buf[portid := []]
  {
    ghost var t := conf.tx;
    assert conf.Holds(portid, t.buf[portid]);
    n := conf.SendBurst(conf.len[portid], portid, t.buf[portid]);
    conf.len[portid] := 0;
    conf.tx := SetBuf(conf.tx, portid, []);
    FlushDelivers(t, portid, n);
    assert conf.tx == Offer(SetBuf(t, portid, []), portid, t.buf[portid], n);
    forall p | 0 <= p < RTE_MAX_ETHPORTS && p != portid
      ensures conf.Holds(p, conf.tx.buf[p])
    {
      assert old(conf.Holds(p, t.buf[p]));
    }
    assert conf.Holds(portid, []);
  }

  // One turn of the drain loop.
  method DrainPort(conf: LcoreConf, stat: LcoreStat, portid: nat, ghost received: nat)
    requires conf.Valid() && portid < RTE_MAX_ETHPORTS
    requires stat.Counts(received, Sent(conf.tx), Dropped(conf.tx))
    modifies conf`tx, conf.len, stat
    ensures conf.Valid() && Delivered(old(conf.tx), conf.tx, [], [])
    ensures stat.Counts(received, Sent(conf.tx), Dropped(conf.tx))
    ensures conf.tx.buf == old(conf.tx).buf[portid := []]
  {
    ghost var t := conf.tx;
    var l := conf.len[portid];
    assert conf.Holds(portid, t.buf[portid]);
    if l == 0 {
      SendMulti.NothingDelivered(t);
      return;
    }
    var sent := FlushPort(conf, portid);
    stat.AddTx(sent, l - sent, received, Sent(t), Dropped(t));
  }

  // The buffers once the first n listed ports are drained.
  ghost function Emptied(buf: seq<seq<Mbuf>>, ports: seq<nat>, n: nat): (r: seq<seq<Mbuf>>)
    requires n <= |ports| && |buf| == RTE_MAX_ETHPORTS && forall i :: 0 <= i < |ports| ==> ports[i] < RTE_MAX_ETHPORTS
    ensures |r| == |buf|
  {
    if n == 0 then buf else Emptied(buf, ports, n - 1)[ports[n - 1] := []]
  }

  lemma {:induction false} EmptiedMeaning(buf: seq<seq<Mbuf>>, ports: seq<nat>, n: nat)
    requires n <= |ports| && |buf| == RTE_MAX_ETHPORTS && forall i :: 0 <= i < |ports| ==> ports[i] < RTE_MAX_ETHPORTS
    ensures forall p :: 0 <= p < RTE_MAX_ETHPORTS ==>
              Emptied(buf, ports, n)[p] == if p in ports[..n] then [] else buf[p]
    ensures ports[..|ports|] == ports
  {
    if n == 0 {
    } else {
      EmptiedMeaning(buf, ports, n - 1);
      assert ports[..n] == ports[..n - 1] + [ports[n - 1]];
    }
  }

  // The drain of the transmit buffers.
  method Drain(conf: LcoreConf, stat: LcoreStat, ports: seq<nat>, ghost received: nat)
    requires conf.Valid() && forall i :: 0 <= i < |ports| ==> ports[i] < RTE_MAX_ETHPORTS
    requires stat.Counts(received, Sent(conf.tx), Dropped(conf.tx))
    modifies conf`tx, conf.len, stat
    ensures conf.Valid() && Delivered(old(conf.tx), conf.tx, [], [])
    ensures stat.Counts(received, Sent(conf.tx), Dropped(conf.tx))
    ensures conf.tx.buf == Emptied(old(conf.tx).buf, ports, |ports|)
  {
    ghost var s := conf.tx;
    SendMulti.NothingDelivered(s);
    for i := 0 to |ports|
      invariant conf.Valid() && Delivered(s, conf.tx, [], [])
      invariant stat.Counts(received, Sent(conf.tx), Dropped(conf.tx))
      invariant conf.tx.buf == Emptied(s.buf, ports, i)
    {
      ghost var t := conf.tx;
      DrainPort(conf, stat, ports[i], received);
      NothingThen(s, t, conf.tx, [], []);
    }
  }

  // ---------------------------------------------------------------- laws of a run

  ghost predicate Listed(dest: seq<uint16>, ports: seq<nat>) {
    forall i :: 0 <= i < |dest| ==> dest[i] == BAD_PORT || (dest[i] as nat) in ports
  }

  ghost predicate Drained<T>(s: State<T>, ports: seq<nat>)
    requires Sized(s)
  {
    forall p :: 0 <= p < RTE_MAX_ETHPORTS && p in ports ==> s.buf[p] == []
  }

  // Three 64-bit counters of n packets received.
  ghost predicate Counted<T>(n: nat, s: State<T>, rx: uint64, tx: uint64, dropped: uint64) {
    rx == n % TWO64 && tx == Sent(s) % TWO64 && dropped == Dropped(s) % TWO64
  }

  // The counters, modulo their width, and the buffers add up.
  lemma CountersAddUp<T>(s: State<T>, ms: seq<T>, d: seq<uint16>, rx: uint64, tx: uint64, dropped: uint64)
    requires Consistent(s) && Accounts(s, ms, d) && forall i :: 0 <= i < |d| ==> Sendable(d[i])
    requires Counted(|ms|, s, rx, tx, dropped)
    ensures |ms| == Sent(s) + Dropped(s) + Buffered(s)
    ensures rx == (tx as nat + dropped + Buffered(s)) % TWO64
  {
    AccountsOwned(s, ms, d);
    ModPlus(tx as nat + dropped + Buffered(s), Sent(s) / TWO64 + Dropped(s) / TWO64);
  }

  // With nothing buffered, the counters alone add up.
  lemma CountersDrained<T>(s: State<T>, ms: seq<T>, d: seq<uint16>, rx: uint64, tx: uint64, dropped: uint64)
    requires Consistent(s) && Accounts(s, ms, d) && forall i :: 0 <= i < |d| ==> Sendable(d[i])
    requires Counted(|ms|, s, rx, tx, dropped) && Buffered(s) == 0
    ensures rx == (tx as nat + dropped) % TWO64
  {
    CountersAddUp(s, ms, d, rx, tx, dropped);
    WithoutBuffers(rx, tx, dropped, Buffered(s));
  }

  lemma WithoutBuffers(rx: uint64, tx: uint64, dropped: uint64, buffered: nat)
    requires rx == (tx as nat + dropped + buffered) % TWO64 && buffered == 0
    ensures rx == (tx as nat + dropped) % TWO64
  {}

  // The drain point of a turn: how many packets had been received, whether a drain was due,
  // and what the core and its counters held right after it.
  datatype Point<T> = Point(n: nat, drained: bool, tx: State<T>, rx: uint64, sent: uint64, dropped: uint64)

  // The point lies on the run that received ms, with destinations d, and is now in state last.
  ghost predicate PointOk<T>(pt: Point<T>, ms: seq<T>, d: seq<uint16>, ports: seq<nat>, last: State<T>) {
    && pt.n <= |ms| == |d|
    && Consistent(pt.tx) && Accounts(pt.tx, ms[..pt.n], d[..pt.n]) && Grown(pt.tx, last)
    && Counted(pt.n, pt.tx, pt.rx, pt.sent, pt.dropped)
    && (pt.drained ==> Drained(pt.tx, ports))
  }

  // The points of a run follow one another: each was reached by way of the one before it.
  ghost predicate AllPoints<T>(pts: seq<Point<T>>, ms: seq<T>, d: seq<uint16>, ports: seq<nat>, last: State<T>) {
    |pts| == 0
    || (var k := |pts| - 1; var pt := pts[k];
        PointOk(pt, ms, d, ports, last) && AllPoints(pts[..k], ms[..pt.n], d[..pt.n], ports, pt.tx))
  }

  lemma {:induction false} PointAt<T>(pts: seq<Point<T>>, ms: seq<T>, d: seq<uint16>, ports: seq<nat>, last: State<T>, k: nat)
    requires AllPoints(pts, ms, d, ports, last) && k < |pts|
    ensures PointOk(pts[k], ms, d, ports, last)
  {
    var m := |pts| - 1;
    if k == m {
    } else {
      var n := pts[m].n;
      PointAt(pts[..m], ms[..n], d[..n], ports, pts[m].tx, k);
      PointThen(pts[k], ms[..n], d[..n], ports, pts[m].tx, last, ms[n..], d[n..]);
      assert ms[..n] + ms[n..] == ms && d[..n] + d[n..] == d;
    }
  }

  lemma PointsThen<T>(pts: seq<Point<T>>, ms: seq<T>, d: seq<uint16>, ports: seq<nat>, s: State<T>, t: State<T>,
                      ms2: seq<T>, d2: seq<uint16>)
    requires AllPoints(pts, ms, d, ports, s) && Grown(s, t) && |ms| == |d| && |ms2| == |d2|
    ensures AllPoints(pts, ms + ms2, d + d2, ports, t)
  {
    if |pts| > 0 {
      var pt := pts[|pts| - 1];
      PointThen(pt, ms, d, ports, s, t, ms2, d2);
      assert (ms + ms2)[..pt.n] == ms[..pt.n] && (d + d2)[..pt.n] == d[..pt.n];
    }
  }

  lemma PointThen<T>(pt: Point<T>, ms: seq<T>, d: seq<uint16>, ports: seq<nat>, s: State<T>, t: State<T>,
                     ms2: seq<T>, d2: seq<uint16>)
    requires PointOk(pt, ms, d, ports, s) && Grown(s, t) && |ms2| == |d2|
    ensures PointOk(pt, ms + ms2, d + d2, ports, t)
  {
    assert (ms + ms2)[..pt.n] == ms[..pt.n] && (d + d2)[..pt.n] == d[..pt.n];
    GrownThen(pt.tx, s, t);
  }

  lemma PointsStill<T>(pts: seq<Point<T>>, ms: seq<T>, d: seq<uint16>, ports: seq<nat>, s: State<T>, t: State<T>)
    requires AllPoints(pts, ms, d, ports, s) && Grown(s, t) && |ms| == |d|
    ensures AllPoints(pts, ms, d, ports, t)
  {
    PointsThen(pts, ms, d, ports, s, t, [], []);
    assert ms + [] == ms && d + [] == d;
  }

  // A new point, for all that has come in.
  lemma PointsOn<T>(pts: seq<Point<T>>, pt: Point<T>, ms: seq<T>, d: seq<uint16>, ports: seq<nat>)
    requires AllPoints(pts, ms, d, ports, pt.tx) && pt.n == |ms| && Consistent(pt.tx) && Accounts(pt.tx, ms, d)
    requires Counted(pt.n, pt.tx, pt.rx, pt.sent, pt.dropped) && (pt.drained ==> Drained(pt.tx, ports))
    ensures AllPoints(pts + [pt], ms, d, ports, pt.tx)
  {
    assert (pts + [pt])[..|pts|] == pts && ms[..pt.n] == ms && d[..pt.n] == d;
  }

  ghost predicate Balanced<T>(pt: Point<T>, d: seq<uint16>, ports: seq<nat>, last: State<T>) {
    && pt.n == Sent(pt.tx) + Dropped(pt.tx) + Buffered(pt.tx) && pt.n <= |d|
    && pt.rx == (pt.sent as nat + pt.dropped + Buffered(pt.tx)) % TWO64
    && (pt.drained && Listed(d[..pt.n], ports)
        ==> Buffered(pt.tx) == 0 && pt.rx == (pt.sent as nat + pt.dropped) % TWO64)
    && Sent(pt.tx) <= Sent(last) && Dropped(pt.tx) <= Dropped(last)
  }

  // The conservation law at a drain point, of the core's state and of its counters then: what
  // had come in was sent, dropped or buffered; nothing was buffered after a drain that covers
  // the destinations so far; and what had been sent or dropped then still is.
  lemma PointBalanced<T>(pt: Point<T>, ms: seq<T>, d: seq<uint16>, ports: seq<nat>, last: State<T>)
    requires PointOk(pt, ms, d, ports, last) && Consistent(last) && forall i :: 0 <= i < |d| ==> Sendable(d[i])
    ensures Balanced(pt, d, ports, last)
  {
    CountersAddUp(pt.tx, ms[..pt.n], d[..pt.n], pt.rx, pt.sent, pt.dropped);
    if pt.drained && Listed(d[..pt.n], ports) {
      DrainedConserved(pt.tx, ms[..pt.n], d[..pt.n], ports);
      WithoutBuffers(pt.rx, pt.sent, pt.dropped, Buffered(pt.tx));
    }
    GrownCounts(pt.tx, last);
  }

  // The same of any point of a run.
  lemma BalancedAt<T>(pts: seq<Point<T>>, ms: seq<T>, d: seq<uint16>, ports: seq<nat>, last: State<T>, k: nat)
    requires AllPoints(pts, ms, d, ports, last) && k < |pts|
    requires Consistent(last) && |ms| == |d| && forall i :: 0 <= i < |d| ==> Sendable(d[i])
    ensures Balanced(pts[k], d, ports, last)
  {
    PointAt(pts, ms, d, ports, last, k);
    PointBalanced(pts[k], ms, d, ports, last);
  }

  // When nothing has come in since a covering drain, nothing is buffered now.
  lemma NothingSince<T>(pt: Point<T>, ms: seq<T>, d: seq<uint16>, ports: seq<nat>, last: State<T>)
    requires PointOk(pt, ms, d, ports, last) && pt.n == |ms| && pt.drained && Listed(d, ports)
    requires Consistent(last) && Accounts(last, ms, d) && forall i :: 0 <= i < |d| ==> Sendable(d[i])
    ensures Buffered(last) == 0
  {
    assert ms[..pt.n] == ms && d[..pt.n] == d;
    forall p | 0 <= p < RTE_MAX_ETHPORTS
      ensures last.buf[p] == []
    {
      if p !in ports {
        PacketsForNone(ms, d, p);
        assert pt.tx.offered[p] + pt.tx.buf[p] == [];
      }
      assert pt.tx.buf[p] == [];
      LogsGrow(pt.tx, last, p);
      assert pt.tx.offered[p] + [] == pt.tx.offered[p];
      assert pt.tx.offered[p] == last.offered[p] + last.buf[p] && pt.tx.offered[p] <= last.offered[p];
    }
    EmptyBag(last.buf);
  }

  // A run whose last point is a covering drain with nothing received after it.
  lemma EndsEmpty<T>(pts: seq<Point<T>>, ms: seq<T>, d: seq<uint16>, ports: seq<nat>, last: State<T>)
    requires |pts| > 0 && AllPoints(pts, ms, d, ports, last)
    requires var pt := pts[|pts| - 1]; pt.n == |ms| && pt.drained
    requires Listed(d, ports) && Consistent(last) && Accounts(last, ms, d) && forall i :: 0 <= i < |d| ==> Sendable(d[i])
    ensures Buffered(last) == 0
  {
    PointAt(pts, ms, d, ports, last, |pts| - 1);
    NothingSince(pts[|pts| - 1], ms, d, ports, last);
  }

  // The drain, if it is due.
  method DrainIfDue(conf: LcoreConf, stat: LcoreStat, ports: seq<nat>, due: bool,
                    ghost ms: seq<Mbuf>, ghost d: seq<uint16>, ghost pts: seq<Point<Mbuf>>)
    requires conf.Valid() && Accounts(conf.tx, ms, d) && AllPoints(pts, ms, d, ports, conf.tx)
    requires stat.Counts(|ms|, Sent(conf.tx), Dropped(conf.tx))
    requires forall i :: 0 <= i < |ports| ==> ports[i] < RTE_MAX_ETHPORTS
    modifies conf`tx, conf.len, stat
    ensures conf.Valid() && Accounts(conf.tx, ms, d) && Grown(old(conf.tx), conf.tx)
    ensures stat.Counts(|ms|, Sent(conf.tx), Dropped(conf.tx))
    ensures AllPoints(pts, ms, d, ports, conf.tx) && (due ==> Drained(conf.tx, ports))
    ensures forall p :: 0 <= p < RTE_MAX_ETHPORTS ==> |conf.tx.buf[p]| <= |old(conf.tx).buf[p]|
  {
    if due {
      ghost var s := conf.tx;
      Drain(conf, stat, ports, |ms|);
      EmptiedMeaning(s.buf, ports, |ports|);
      AccountsStill(s, conf.tx, ms, d);
      PointsStill(pts, ms, d, ports, s, conf.tx);
    }
  }

  // The point right after it.
  method DrainTurn(conf: LcoreConf, stat: LcoreStat, ports: seq<nat>, due: bool,
                   ghost ms: seq<Mbuf>, ghost d: seq<uint16>, ghost pts: seq<Point<Mbuf>>)
    returns (ghost pts': seq<Point<Mbuf>>)
    requires conf.Valid() && Accounts(conf.tx, ms, d) && AllPoints(pts, ms, d, ports, conf.tx)
    requires stat.Counts(|ms|, Sent(conf.tx), Dropped(conf.tx))
    requires forall i :: 0 <= i < |ports| ==> ports[i] < RTE_MAX_ETHPORTS
    modifies conf`tx, conf.len, stat
    ensures conf.Valid() && Accounts(conf.tx, ms, d) && Grown(old(conf.tx), conf.tx)
    ensures stat.Counts(|ms|, Sent(conf.tx), Dropped(conf.tx))
    ensures pts' == pts + [Point(|ms|, due, conf.tx, stat.rx, stat.tx, stat.dropped)]
    ensures AllPoints(pts', ms, d, ports, conf.tx)
    ensures forall p :: 0 <= p < RTE_MAX_ETHPORTS ==> |conf.tx.buf[p]| <= |old(conf.tx).buf[p]|
  {
    DrainIfDue(conf, stat, ports, due, ms, d, pts);
    ghost var pt := Point(|ms|, due, conf.tx, stat.rx, stat.tx, stat.dropped);
    PointsOn(pts, pt, ms, d, ports);
    pts' := pts + [pt];
  }
}
