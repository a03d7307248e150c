// l3fwd/l3fwd.h and l3fwd/l3fwd_common.h: one logical core's transmit buffers and the
// operations that fill and flush them.
module TxBuffer {
  import opened Words
  import opened Headers
  import opened TxState

  // struct l3fwd_tx_stats
  datatype TxStats = TxStats(sent: uint32, dropped: uint32)

  class LcoreConf {
    const rxBurstSize: nat
    const txBurstSize: nat
    const txQueueId: seq<uint16>
    // tx_mbufs[port].m_table and tx_mbufs[port].len
    const mTable: array2<Mbuf?>
    const len: array<uint16>
    // what this core has sent, freed and kept, packet by packet
    ghost var tx: State<Mbuf>

    constructor (rxBurst: nat, txBurst: nat, queueId: seq<uint16>)
      requires |queueId| == RTE_MAX_ETHPORTS
      ensures Valid() && fresh(this) && fresh(mTable) && fresh(len)
      ensures rxBurstSize == rxBurst && txBurstSize == txBurst && txQueueId == queueId
      ensures Idle(tx)
    {
      rxBurstSize, txBurstSize, txQueueId := rxBurst, txBurst, queueId;
      mTable := new Mbuf?[RTE_MAX_ETHPORTS, MAX_PKT_BURST]((_, _) => null);
      len := new uint16[RTE_MAX_ETHPORTS](_ => 0);
      var none: seq<seq<Mbuf>> := seq(RTE_MAX_ETHPORTS, _ => []);
      tx := State(none, none, none, none, [], queueId, []);
    }

    ghost predicate Shaped() {
      && mTable.Length0 == RTE_MAX_ETHPORTS && mTable.Length1 == MAX_PKT_BURST
      && len.Length == RTE_MAX_ETHPORTS
    }

    // The first n slots of the port's table hold ms.
    ghost predicate Row(port: nat, ms: seq<Mbuf>)
      reads mTable
    {
      && port < mTable.Length0 && |ms| <= mTable.Length1
      && forall i :: 0 <= i < |ms| ==> mTable[port, i] == ms[i]
    }

    // The port's arrays hold exactly the packets ms, and there is room for one more.
    ghost predicate Holds(port: nat, ms: seq<Mbuf>)
      requires port < len.Length
      reads mTable, len
    {
      len[port] == |ms| < MAX_PKT_BURST && Row(port, ms)
    }

    // The record is kept for this core's transmit queues.
    ghost predicate Wired()
      reads this
    {
      Sized(tx) && tx.queueId == txQueueId
    }

    // The arrays hold exactly the buffered packets, and no buffer is full.
    ghost predicate Stored()
      reads this, mTable, len
    {
      && Shaped() && Wired()
      && forall p :: 0 <= p < RTE_MAX_ETHPORTS ==> Holds(p, tx.buf[p])
    }

    ghost predicate Valid()
      reads this, mTable, len
    {
      Stored() && Consistent(tx)
    }

    // rte_eth_tx_burst on a queue of a port: the NIC takes any number of leading packets.
    method TxBurst(port: nat, queueid: uint16, num: nat, ghost ms: seq<Mbuf>) returns (n: nat)
      requires Sized(tx) && port < RTE_MAX_ETHPORTS && num == |ms|
      modifies `tx
      ensures n <= num
      ensures tx == old(tx).(offered := old(tx).offered[port := old(tx).offered[port] + ms],
                             accepted := old(tx).accepted[port := old(tx).accepted[port] + ms[..n]],
                             calls := old(tx).calls + [TxCall(port, queueid, ms, n)])
    {
      n :| 0 <= n <= num;
      tx := tx.(offered := tx.offered[port := tx.offered[port] + ms],
                accepted := tx.accepted[port := tx.accepted[port] + ms[..n]],
                calls := tx.calls + [TxCall(port, queueid, ms, n)]);
    }

    // rte_pktmbuf_free of a packet the NIC refused.
    method FreeRejected(port: nat, m: Mbuf)
      requires Sized(tx) && port < RTE_MAX_ETHPORTS
      modifies `tx
      ensures tx == old(tx).(rejected := old(tx).rejected[port := old(tx).rejected[port] + [m]])
    {
      tx := tx.(rejected := tx.rejected[port := tx.rejected[port] + [m]]);
    }

    // Offers num packets of ms and frees, one by one, those the NIC leaves.
    method OfferAndFree(port: nat, ms: seq<Mbuf>) returns (sent: nat)
      requires Wired() && port < RTE_MAX_ETHPORTS
      modifies `tx
      ensures sent <= |ms| && tx == Offer(old(tx), port, ms, sent)
    {
      sent := TxBurst(port, txQueueId[port], |ms|, ms);
      NoneFreedYet(old(tx), port, ms, sent);
      var n := sent;
      while n < |ms|
        invariant sent <= n <= |ms|
        invariant tx == OfferFreed(old(tx), port, ms, sent, n)
      {
        FreeRejected(port, ms[n]);
        FreeOneMore(old(tx), port, ms, sent, n);
        n := n + 1;
      }
    }

    // send_burst: offer the first n slots of the port's table.
    method SendBurst(n: nat, port: nat, ghost ms: seq<Mbuf>) returns (sent: nat)
      requires Shaped() && Wired() && port < RTE_MAX_ETHPORTS
      requires n == |ms| && Row(port, ms)
      modifies `tx
      ensures sent <= n && tx == Offer(old(tx), port, ms, sent)
    {
      var queueid := txQueueId[port];
      sent := TxBurst(port, queueid, n, ms);
      NoneFreedYet(old(tx), port, ms, sent);
      var ret := sent;
      while ret < n
        invariant sent <= ret <= n
        invariant tx == OfferFreed(old(tx), port, ms, sent, ret)
      {
        FreeRejected(port, mTable[port, ret]);
        FreeOneMore(old(tx), port, ms, sent, ret);
        ret := ret + 1;
      }
    }

    // The first c slots from to on hold the packets of m from position from on, and no
    // other slot of the table has changed since it was tab.
    ghost predicate Copied(tab: (int, int) -> Mbuf?, port: nat, to: nat, m: seq<Mbuf>, from: nat, c: nat)
      reads mTable
    {
      && Shaped() && to + c <= MAX_PKT_BURST && from + c <= |m|
      && forall p, i :: 0 <= p < RTE_MAX_ETHPORTS && 0 <= i < MAX_PKT_BURST ==>
           mTable[p, i] == if p == port && to <= i < to + c then m[from + (i - to)] else tab(p, i)
    }

    // One copy statement and its increment of j.
    method CopyOne(port: nat, to: nat, m: seq<Mbuf>, from: nat, j0: nat, ghost tab: (int, int) -> Mbuf?)
      returns (j: nat)
      requires port < RTE_MAX_ETHPORTS && Copied(tab, port, to, m, from, j0)
      requires to + j0 < MAX_PKT_BURST && from + j0 < |m|
      modifies mTable
      ensures j == j0 + 1 && Copied(tab, port, to, m, from, j)
    {
      mTable[port, to + j0] := m[from + j0];
      j := j0 + 1;
    }

    // The unrolled copy loop entered through its switch. The entry jumps past the loop
    // test, so a count of zero copies four packets.
    method DuffCopy(port: nat, to: nat, m: seq<Mbuf>, from: nat, n: nat, ghost tab: (int, int) -> Mbuf?)
      requires port < RTE_MAX_ETHPORTS && Copied(tab, port, to, m, from, 0)
      requires var c := if n == 0 then FWDSTEP else n;
               to + c <= MAX_PKT_BURST && from + c <= |m|
      modifies mTable
      ensures Copied(tab, port, to, m, from, if n == 0 then FWDSTEP else n)
    {
      ghost var c := if n == 0 then FWDSTEP else n;
      var entry := n % FWDSTEP;
      var j := 0;
      if entry == 0 {
        j := CopyOne(port, to, m, from, j, tab);
      }
      if entry == 0 || entry == 3 {
        j := CopyOne(port, to, m, from, j, tab);
      }
      if entry != 1 {
        j := CopyOne(port, to, m, from, j, tab);
      }
      j := CopyOne(port, to, m, from, j, tab);
      ghost var rounds := (c - j) / FWDSTEP;
      while j < n
        invariant 0 <= rounds && j + FWDSTEP * rounds == c && (n == 0 ==> rounds == 0)
        invariant Copied(tab, port, to, m, from, j)
      {
        j := CopyOne(port, to, m, from, j, tab);
        j := CopyOne(port, to, m, from, j, tab);
        j := CopyOne(port, to, m, from, j, tab);
        j := CopyOne(port, to, m, from, j, tab);
        rounds := rounds - 1;
      }
    }

    // A positive number of packets copied behind the l packets already in the table.
    method CopyIn(port: nat, l: nat, m: seq<Mbuf>, from: nat, n: nat, ghost pre: seq<Mbuf>)
      requires Shaped() && port < RTE_MAX_ETHPORTS
      requires 0 < n && l + n <= MAX_PKT_BURST && from + n <= |m|
      requires |pre| == l && Row(port, pre)
      modifies mTable
      ensures Row(port, pre + m[from..from + n])
      ensures forall p, i :: 0 <= p < RTE_MAX_ETHPORTS && 0 <= i < MAX_PKT_BURST && p != port
                             ==> mTable[p, i] == old(mTable[p, i])
    {
      ghost var tab := (p, i) => if 0 <= p < RTE_MAX_ETHPORTS && 0 <= i < MAX_PKT_BURST then old(mTable[p, i]) else null;
      DuffCopy(port, l, m, from, n, tab);
    }

    // The part of send_packetsx4 that goes through the buffer.
    method SendThroughBuffer(port: nat, m: seq<Mbuf>) returns (stats: TxStats, ghost took: nat)
      requires Stored() && port < RTE_MAX_ETHPORTS && 1 <= |m| <= MAX_PKT_BURST
      modifies `tx, mTable, len
      ensures Stored()
      ensures took <= MAX_PKT_BURST && tx == Enqueue(old(tx), port, m, MAX_PKT_BURST, took)
      ensures stats == if |old(tx).buf[port]| + |m| < MAX_PKT_BURST then TxStats(0, 0)
                       else TxStats(took, MAX_PKT_BURST - took)
    {
      ghost var s, all := tx, tx.buf[port] + m;
      assert Holds(port, s.buf[port]);
      var num, l := |m|, len[port];
      var n := l + num;
      n := if n > MAX_PKT_BURST then MAX_PKT_BURST - l else num;
      CopyIn(port, l, m, 0, n, s.buf[port]);
      l := l + n;
      assert s.buf[port] + m[0..n] == all[..l];
      took, stats := 0, TxStats(0, 0);
      ghost var rest := all;
      if l == MAX_PKT_BURST {
        rest := all[MAX_PKT_BURST..];
        took, stats, l := Flush(port, m, n, all[..MAX_PKT_BURST]);
        assert m[n..] == rest;
      } else {
        assert all[..l] == all;
      }
      len[port] := l;
      tx := SetBuf(tx, port, rest);
      assert Holds(port, rest);
      forall p | 0 <= p < RTE_MAX_ETHPORTS && p != port
        ensures Holds(p, tx.buf[p])
      {
        assert old(Holds(p, s.buf[p]));
      }
    }

    // Offers a full table and starts it again with the packets that did not fit.
    method Flush(port: nat, m: seq<Mbuf>, n: nat, ghost full: seq<Mbuf>)
      returns (sent: nat, stats: TxStats, l: nat)
      requires Shaped() && Wired() && port < RTE_MAX_ETHPORTS
      requires |full| == MAX_PKT_BURST && Row(port, full)
      requires n <= |m| <= MAX_PKT_BURST
      modifies `tx, mTable
      ensures sent <= MAX_PKT_BURST && stats == TxStats(sent, MAX_PKT_BURST - sent)
      ensures tx == Offer(old(tx), port, full, sent)
      ensures l == |m| - n && Row(port, m[n..])
      ensures forall p, i :: 0 <= p < RTE_MAX_ETHPORTS && 0 <= i < MAX_PKT_BURST && p != port
                             ==> mTable[p, i] == old(mTable[p, i])
    {
      sent := SendBurst(MAX_PKT_BURST, port, full);
      stats := TxStats(sent, MAX_PKT_BURST - sent);
      l := |m| - n;
      if l != 0 {
        CopyIn(port, 0, m, n, l, []);
        assert [] + m[n..n + l] == m[n..];
      }
    }

    // send_packetsx4. Its answer: the packets the NIC took, and those freed.
    method SendPacketsx4(port: nat, m: seq<Mbuf>) returns (stats: TxStats, ghost took: nat)
      requires Valid() && port < RTE_MAX_ETHPORTS && 1 <= |m| <= MAX_PKT_BURST
      modifies `tx, mTable, len
      ensures Valid()
      ensures took <= if SendsDirectly(old(tx), port, m, txBurstSize) then |m| else MAX_PKT_BURST
      ensures tx == Sendx4(old(tx), port, m, txBurstSize, took)
      ensures SentOrBuffered(old(tx), tx, port, m, txBurstSize, took)
      ensures Sent(tx) == Sent(old(tx)) + stats.sent
      ensures Dropped(tx) == Dropped(old(tx)) + stats.dropped
    {
      ghost var s := tx;
      assert Holds(port, s.buf[port]);
      if |m| >= txBurstSize && len[port] == 0 {
        var sent := OfferAndFree(port, m);
        took, stats := sent, TxStats(sent, |m| - sent);
      } else {
        stats, took := SendThroughBuffer(port, m);
      }
      Sendx4Consistent(s, port, m, txBurstSize, took);
      Sendx4Counts(s, port, m, txBurstSize, took);
      Sendx4Exactly(s, port, m, txBurstSize, took);
    }

    // send_single_packet: buffer one packet and offer the buffer when it reaches the
    // receive burst size.
    method SendSinglePacket(m: Mbuf, port: nat) returns (sent: nat)
      requires Valid() && port < RTE_MAX_ETHPORTS
      requires 1 <= rxBurstSize <= MAX_PKT_BURST && |tx.buf[port]| < rxBurstSize
      modifies `tx, mTable, len
      ensures Valid() && sent <= rxBurstSize
      ensures tx == Enqueue(old(tx), port, [m], rxBurstSize, sent)
      ensures |old(tx).buf[port]| + 1 < rxBurstSize ==> sent == 0 && tx.calls == old(tx).calls
      ensures tx.buf[port] == if |old(tx).buf[port]| + 1 < rxBurstSize then old(tx).buf[port] + [m] else []
    {
      ghost var s, all := tx, tx.buf[port] + [m];
      assert Holds(port, s.buf[port]);
      var l := len[port];
      mTable[port, l] := m;
      l := l + 1;
      assert Row(port, all);
      sent := 0;
      ghost var rest := all;
      if l == rxBurstSize {
        sent := SendBurst(rxBurstSize, port, all);
        l, rest := 0, [];
      }
      len[port] := l;
      tx := SetBuf(tx, port, rest);
      assert all[..|all|] == all;
      EnqueueDelivers(s, port, [m], [port as uint16], rxBurstSize, sent);
      EnqueueExactly(s, port, m, rxBurstSize, sent);
      forall p | 0 <= p < RTE_MAX_ETHPORTS
        ensures Holds(p, tx.buf[p])
      {
        assert p != port ==> tx.buf[p] == s.buf[p] && old(Holds(p, s.buf[p]));
      }
    }
  }
}
