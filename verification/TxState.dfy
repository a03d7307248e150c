// What a logical core's transmit side has done so far, as values, and the laws every
// transmit operation keeps.
module TxState {
  import opened Words

  // A call to rte_eth_tx_burst: the queue it names, the packets offered, and how many of them
  // the NIC took.
  datatype TxCall<T> = TxCall(port: nat, queue: uint16, asked: seq<T>, took: nat) {
    ghost function Taken(): seq<T> { if took <= |asked| then asked[..took] else asked }
    ghost function Refused(): seq<T> { if took <= |asked| then asked[took..] else [] }
  }

  // Per port: the buffered packets, everything offered to the NIC in order, what the NIC
  // accepted and what was freed because it did not; the packets freed for BAD_PORT; and the
  // core's transmit queue on each port with every call it made.
  datatype State<T> = State(
    buf: seq<seq<T>>, offered: seq<seq<T>>, accepted: seq<seq<T>>, rejected: seq<seq<T>>,
    bad: seq<T>, queueId: seq<uint16>, calls: seq<TxCall<T>>)

  ghost predicate Sized<T>(s: State<T>) {
    |s.buf| == |s.offered| == |s.accepted| == |s.rejected| == |s.queueId| == RTE_MAX_ETHPORTS
  }

  ghost function Empties<T>(n: nat): (r: seq<seq<T>>)
    ensures |r| == n && forall p :: 0 <= p < n ==> r[p] == []
  {
    if n == 0 then [] else Empties(n - 1) + [[]]
  }

  // What a list of calls comes to, for n ports.
  datatype Logs<T> = Logs(offered: seq<seq<T>>, accepted: seq<seq<T>>, rejected: seq<seq<T>>)

  ghost function Replay<T>(calls: seq<TxCall<T>>, n: nat): (r: Logs<T>)
    ensures |r.offered| == |r.accepted| == |r.rejected| == n
  {
    if |calls| == 0 then Logs(Empties(n), Empties(n), Empties(n))
    else
      var r, c := Replay(calls[..|calls| - 1], n), calls[|calls| - 1];
      if c.port < n then
        Logs(r.offered[c.port := r.offered[c.port] + c.asked],
             r.accepted[c.port := r.accepted[c.port] + c.Taken()],
             r.rejected[c.port := r.rejected[c.port] + c.Refused()])
      else r
  }

  // Every call names the core's own queue of a port, and took no more than was offered.
  ghost predicate OwnCalls<T>(calls: seq<TxCall<T>>, queueId: seq<uint16>) {
    |calls| == 0
    || (var c := calls[|calls| - 1];
        && OwnCalls(calls[..|calls| - 1], queueId)
        && c.port < |queueId| && c.queue == queueId[c.port] && c.took <= |c.asked|)
  }

  // Nothing has happened yet.
  ghost predicate Idle<T>(s: State<T>) {
    && Sized(s) && s.bad == [] && s.calls == []
    && forall p :: 0 <= p < RTE_MAX_ETHPORTS ==>
         s.buf[p] == [] && s.offered[p] == [] && s.accepted[p] == [] && s.rejected[p] == []
  }

  // a is a subsequence of b.
  ghost predicate Subsequence<T>(a: seq<T>, b: seq<T>)
    decreases |b|
  {
    || a == []
    || (b != [] && Subsequence(a, b[..|b| - 1]))
    || (b != [] && a[|a| - 1] == b[|b| - 1] && Subsequence(a[..|a| - 1], b[..|b| - 1]))
  }

  // The logs are what the calls come to, and every call went to one of the core's queues.
  ghost predicate Recorded<T>(s: State<T>) {
    && Sized(s) && OwnCalls(s.calls, s.queueId)
    && Logs(s.offered, s.accepted, s.rejected) == Replay(s.calls, |s.queueId|)
  }

  // Recorded, closed: the calls stay out of the proofs that do not look into them.
  ghost predicate Consistent<T>(s: State<T>) {
    Sized(s) && forall k {:trigger Asked(k)} :: Asked(k) ==> Recorded(s)
  }

  // So every offered packet was either accepted or freed, never both, and the NIC saw the
  // accepted ones in the order they were offered.
  lemma {:induction false} ReplaySettles<T>(calls: seq<TxCall<T>>, n: nat, p: nat)
    requires p < n
    ensures var r := Replay(calls, n);
            && multiset(r.offered[p]) == multiset(r.accepted[p]) + multiset(r.rejected[p])
            && Subsequence(r.accepted[p], r.offered[p])
  {
    if |calls| == 0 {
    } else {
      var r, c := Replay(calls[..|calls| - 1], n), calls[|calls| - 1];
      ReplaySettles(calls[..|calls| - 1], n, p);
      assert c.asked == c.Taken() + c.Refused();
      SubsequenceGrows(r.accepted[p], r.offered[p], c.Taken(), c.Refused());
      SettledStep(r.offered[p], r.accepted[p], r.rejected[p], c.Taken(), c.Refused());
    }
  }

  lemma SettledStep<T>(o: seq<T>, a: seq<T>, r: seq<T>, x: seq<T>, y: seq<T>)
    requires multiset(o) == multiset(a) + multiset(r)
    ensures multiset(o + (x + y)) == multiset(a + x) + multiset(r + y)
  {}

  lemma Settled<T>(s: State<T>, p: nat)
    requires Consistent(s) && p < RTE_MAX_ETHPORTS
    ensures multiset(s.offered[p]) == multiset(s.accepted[p]) + multiset(s.rejected[p])
    ensures Subsequence(s.accepted[p], s.offered[p])
  {
    assert Asked(0);
    ReplaySettles(s.calls, |s.queueId|, p);
  }

  // ---------------------------------------------------------------- operations

  // rte_eth_tx_burst takes the first n of ms; the caller frees the others.
  ghost function Offer<T>(s: State<T>, p: nat, ms: seq<T>, n: nat): (r: State<T>)
    requires Sized(s) && p < RTE_MAX_ETHPORTS && n <= |ms|
    ensures Sized(r)
  {
    s.(offered := s.offered[p := s.offered[p] + ms],
       accepted := s.accepted[p := s.accepted[p] + ms[..n]],
       rejected := s.rejected[p := s.rejected[p] + ms[n..]],
       calls := s.calls + [TxCall(p, s.queueId[p], ms, n)])
  }

  // Offer, with only the refused packets up to position k freed so far.
  ghost function OfferFreed<T>(s: State<T>, p: nat, ms: seq<T>, n: nat, k: nat): (r: State<T>)
    requires Sized(s) && p < RTE_MAX_ETHPORTS && n <= k <= |ms|
    ensures Sized(r)
    ensures k == |ms| ==> r == Offer(s, p, ms, n)
  {
    assert ms[n..|ms|] == ms[n..];
    s.(offered := s.offered[p := s.offered[p] + ms],
       accepted := s.accepted[p := s.accepted[p] + ms[..n]],
       rejected := s.rejected[p := s.rejected[p] + ms[n..k]],
       calls := s.calls + [TxCall(p, s.queueId[p], ms, n)])
  }

  lemma NoneFreedYet<T>(s: State<T>, p: nat, ms: seq<T>, n: nat)
    requires Sized(s) && p < RTE_MAX_ETHPORTS && n <= |ms|
    ensures OfferFreed(s, p, ms, n, n)
            == s.(offered := s.offered[p := s.offered[p] + ms],
                  accepted := s.accepted[p := s.accepted[p] + ms[..n]],
                  calls := s.calls + [TxCall(p, s.queueId[p], ms, n)])
  {
    assert s.rejected[p] + ms[n..n] == s.rejected[p];
    assert s.rejected[p := s.rejected[p]] == s.rejected;
  }

  ghost function SetBuf<T>(s: State<T>, p: nat, ms: seq<T>): (r: State<T>)
    requires Sized(s) && p < RTE_MAX_ETHPORTS
    ensures Sized(r)
  {
    s.(buf := s.buf[p := ms])
  }

  // Appends ms to the buffer of p and, once cap packets are there, offers the first cap.
  ghost function Enqueue<T>(s: State<T>, p: nat, ms: seq<T>, cap: nat, n: nat): (r: State<T>)
    requires Sized(s) && p < RTE_MAX_ETHPORTS
    requires n <= cap
    ensures Sized(r)
  {
    var all := s.buf[p] + ms;
    if |all| < cap then SetBuf(s, p, all)
    else Offer(SetBuf(s, p, all[cap..]), p, all[..cap], n)
  }

  // send_packetsx4: with an empty buffer and direct or more packets, offer them at once;
  // otherwise go through the buffer. n is what the NIC takes, if it is asked.
  ghost function Sendx4<T>(s: State<T>, p: nat, ms: seq<T>, direct: nat, n: nat): (r: State<T>)
    requires Sized(s) && p < RTE_MAX_ETHPORTS
    requires n <= |ms| <= MAX_PKT_BURST || (n <= MAX_PKT_BURST && !SendsDirectly(s, p, ms, direct))
    ensures Sized(r)
  {
    if SendsDirectly(s, p, ms, direct) then Offer(s, p, ms, n)
    else Enqueue(s, p, ms, MAX_PKT_BURST, n)
  }

  ghost predicate SendsDirectly<T>(s: State<T>, p: nat, ms: seq<T>, direct: nat)
    requires Sized(s) && p < RTE_MAX_ETHPORTS
  {
    |ms| >= direct && s.buf[p] == []
  }

  // ---------------------------------------------------------------- laws

  // The packets of ms whose destination is p, in arrival order.
  function PacketsFor<T>(ms: seq<T>, d: seq<uint16>, p: int): (r: seq<T>)
    requires |ms| == |d|
    ensures |r| <= |ms|
  {
    if |ms| == 0 then []
    else
      var n := |ms| - 1;
      PacketsFor(ms[..n], d[..n], p) + if d[n] == p then [ms[n]] else []
  }

  // What has happened stays: t continues s, on the same queues.
  ghost predicate Grown<T>(s: State<T>, t: State<T>) {
    s.queueId == t.queueId && s.calls <= t.calls && s.bad <= t.bad
  }

  // From s to t: for each port, offered ++ buffered has grown by exactly the port's
  // packets in arrival order, exactly the BAD_PORT packets were freed as bad, and nothing
  // that had happened before was undone.
  ghost predicate Delivered<T>(s: State<T>, t: State<T>, ms: seq<T>, d: seq<uint16>) {
    && |ms| == |d| && Sized(s) && Sized(t) && Grown(s, t)
    && t.bad == s.bad + PacketsFor(ms, d, BAD_PORT)
    && forall p :: 0 <= p < RTE_MAX_ETHPORTS ==>
         t.offered[p] + t.buf[p] == s.offered[p] + s.buf[p] + PacketsFor(ms, d, p)
  }

  // Since the start: per port, offered ++ buffered are exactly the port's packets of
  // everything received, in arrival order, and exactly the BAD_PORT packets were freed as bad.
  ghost predicate Accounts<T>(t: State<T>, ms: seq<T>, d: seq<uint16>) {
    && |ms| == |d| && Sized(t)
    && t.bad == PacketsFor(ms, d, BAD_PORT)
    && forall p :: 0 <= p < RTE_MAX_ETHPORTS ==> t.offered[p] + t.buf[p] == PacketsFor(ms, d, p)
  }

  lemma IdleAccounts<T>(s: State<T>)
    requires Idle(s)
    ensures Accounts(s, [], [])
  {}

  // A delivery extends the account.
  lemma AccountsThen<T>(t: State<T>, u: State<T>, ms1: seq<T>, d1: seq<uint16>, ms2: seq<T>, d2: seq<uint16>)
    requires Accounts(t, ms1, d1) && Delivered(t, u, ms2, d2)
    ensures Accounts(u, ms1 + ms2, d1 + d2)
  {
    PacketsForAppend(ms1, d1, ms2, d2, BAD_PORT);
    forall p | 0 <= p < RTE_MAX_ETHPORTS
      ensures u.offered[p] + u.buf[p] == PacketsFor(ms1 + ms2, d1 + d2, p)
    {
      PacketsForAppend(ms1, d1, ms2, d2, p);
    }
  }

  lemma AccountsStill<T>(t: State<T>, u: State<T>, ms: seq<T>, d: seq<uint16>)
    requires Accounts(t, ms, d) && Delivered(t, u, [], [])
    ensures Accounts(u, ms, d)
  {
    AccountsThen(t, u, ms, d, [], []);
    assert ms + [] == ms && d + [] == d;
  }

  lemma {:induction false} PacketsForAppend<T>(
    ms1: seq<T>, d1: seq<uint16>, ms2: seq<T>, d2: seq<uint16>, p: int)
    requires |ms1| == |d1| && |ms2| == |d2|
    ensures PacketsFor(ms1 + ms2, d1 + d2, p) == PacketsFor(ms1, d1, p) + PacketsFor(ms2, d2, p)
  {
    if |ms2| == 0 {
      assert ms1 + ms2 == ms1 && d1 + d2 == d1;
    } else {
      var n := |ms2| - 1;
      var m := |ms1| + n;
      PacketsForAppend(ms1, d1, ms2[..n], d2[..n], p);
      assert (ms1 + ms2)[..m] == ms1 + ms2[..n] && (d1 + d2)[..m] == d1 + d2[..n];
    }
  }

  // Delivery composes: bursts one after the other deliver like their concatenation.
  lemma DeliveredThen<T>(s: State<T>, t: State<T>, u: State<T>,
                         ms1: seq<T>, d1: seq<uint16>, ms2: seq<T>, d2: seq<uint16>)
    requires Delivered(s, t, ms1, d1) && Delivered(t, u, ms2, d2)
    ensures Delivered(s, u, ms1 + ms2, d1 + d2)
  {
    GrownThen(s, t, u);
    PacketsForAppend(ms1, d1, ms2, d2, BAD_PORT);
    forall p | 0 <= p < RTE_MAX_ETHPORTS
      ensures u.offered[p] + u.buf[p] == s.offered[p] + s.buf[p] + PacketsFor(ms1 + ms2, d1 + d2, p)
    {
      PacketsForAppend(ms1, d1, ms2, d2, p);
    }
  }

  lemma GrownThen<T>(s: State<T>, t: State<T>, u: State<T>)
    requires Grown(s, t) && Grown(t, u)
    ensures Grown(s, u)
  {}

  // More calls continue every port's logs.
  lemma {:induction false} ReplayGrows<T>(calls: seq<TxCall<T>>, more: seq<TxCall<T>>, n: nat, p: nat)
    requires calls <= more && p < n
    ensures Replay(calls, n).offered[p] <= Replay(more, n).offered[p]
    ensures Replay(calls, n).accepted[p] <= Replay(more, n).accepted[p]
    ensures Replay(calls, n).rejected[p] <= Replay(more, n).rejected[p]
    decreases |more|
  {
    if |calls| == |more| {
      assert calls == more;
    } else {
      assert calls <= more[..|more| - 1];
      ReplayGrows(calls, more[..|more| - 1], n, p);
    }
  }

  lemma LogsGrow<T>(s: State<T>, t: State<T>, p: nat)
    requires Grown(s, t) && Consistent(s) && Consistent(t) && p < RTE_MAX_ETHPORTS
    ensures s.offered[p] <= t.offered[p] && s.accepted[p] <= t.accepted[p] && s.rejected[p] <= t.rejected[p]
  {
    assert Asked(0);
    ReplayGrows(s.calls, t.calls, |s.queueId|, p);
  }

  // Delivering nothing more changes nothing.
  lemma NothingThen<T>(s: State<T>, t: State<T>, u: State<T>, ms: seq<T>, d: seq<uint16>)
    requires Delivered(s, t, ms, d) && Delivered(t, u, [], [])
    ensures Delivered(s, u, ms, d)
  {
    DeliveredThen(s, t, u, ms, d, [], []);
    assert ms + [] == ms && d + [] == d;
  }

  // A uniform burst is all for its own port.
  lemma {:induction false} PacketsForUniform<T>(ms: seq<T>, d: seq<uint16>, q: uint16, p: int)
    requires |ms| == |d| && forall i :: 0 <= i < |d| ==> d[i] == q
    ensures PacketsFor(ms, d, p) == if p == q then ms else []
  {
    if |ms| == 0 {
    } else {
      var n := |ms| - 1;
      PacketsForUniform(ms[..n], d[..n], q, p);
      assert ms == ms[..n] + [ms[n]];
    }
  }

  lemma {:induction false} SubsequenceGrows<T>(a: seq<T>, b: seq<T>, x: seq<T>, y: seq<T>)
    requires Subsequence(a, b)
    ensures Subsequence(a + x, b + (x + y))
    decreases |x| + |y|
  {
    var c := b + (x + y);
    if |y| > 0 {
      SubsequenceGrows(a, b, x, y[..|y| - 1]);
      assert c[..|c| - 1] == b + (x + y[..|y| - 1]);
    } else if |x| > 0 {
      SubsequenceGrows(a, b, x[..|x| - 1], y);
      assert c[..|c| - 1] == b + (x[..|x| - 1] + y);
      assert (a + x)[..|a + x| - 1] == a + x[..|x| - 1];
    } else {
      assert a + x == a && c == b;
    }
  }

  lemma FreeOneMore<T>(s: State<T>, p: nat, ms: seq<T>, n: nat, k: nat)
    requires Sized(s) && p < RTE_MAX_ETHPORTS && n <= k < |ms|
    ensures var t := OfferFreed(s, p, ms, n, k);
            OfferFreed(s, p, ms, n, k + 1) == t.(rejected := t.rejected[p := t.rejected[p] + [ms[k]]])
  {
    assert ms[n..k] + [ms[k]] == ms[n..k + 1];
    assert s.rejected[p] + ms[n..k] + [ms[k]] == s.rejected[p] + ms[n..k + 1];
  }

  lemma OfferConsistent<T>(s: State<T>, p: nat, ms: seq<T>, n: nat)
    requires Consistent(s) && p < RTE_MAX_ETHPORTS && n <= |ms|
    ensures Consistent(Offer(s, p, ms, n))
  {
    assert Asked(0);
    assert Offer(s, p, ms, n).calls[..|s.calls|] == s.calls;
  }

  // Whatever the NIC accepts, an enqueue delivers exactly its packets and leaves less
  // than cap behind.
  lemma EnqueueDelivers<T>(s: State<T>, p: nat, ms: seq<T>, d: seq<uint16>, cap: nat, n: nat)
    requires Consistent(s) && p < RTE_MAX_ETHPORTS && n <= cap
    requires |s.buf[p]| < cap && |ms| <= cap
    requires |d| == |ms| && forall i :: 0 <= i < |d| ==> d[i] == p
    ensures var t := Enqueue(s, p, ms, cap, n);
            && Delivered(s, t, ms, d) && Consistent(t)
            && |t.buf[p]| < cap
            && forall q :: 0 <= q < RTE_MAX_ETHPORTS && q != p ==> t.buf[q] == s.buf[q]
  {
    EnqueueConsistent(s, p, ms, cap, n);
    EnqueueOrder(s, p, ms, cap, n);
    PortDelivers(s, Enqueue(s, p, ms, cap, n), p, ms, d);
  }

  lemma EnqueueConsistent<T>(s: State<T>, p: nat, ms: seq<T>, cap: nat, n: nat)
    requires Consistent(s) && p < RTE_MAX_ETHPORTS && n <= cap
    ensures Consistent(Enqueue(s, p, ms, cap, n))
  {
    var all := s.buf[p] + ms;
    if |all| >= cap {
      OfferConsistent(SetBuf(s, p, all[cap..]), p, all[..cap], n);
    }
  }

  lemma EnqueueOrder<T>(s: State<T>, p: nat, ms: seq<T>, cap: nat, n: nat)
    requires Sized(s) && p < RTE_MAX_ETHPORTS && n <= cap && |s.buf[p]| < cap && |ms| <= cap
    ensures var t := Enqueue(s, p, ms, cap, n);
            && t.offered[p] + t.buf[p] == s.offered[p] + s.buf[p] + ms && |t.buf[p]| < cap
            && t.bad == s.bad
            && forall q :: 0 <= q < RTE_MAX_ETHPORTS && q != p ==> t.offered[q] == s.offered[q] && t.buf[q] == s.buf[q]
  {
    var t := Enqueue(s, p, ms, cap, n);
    var all := s.buf[p] + ms;
    if |all| >= cap {
      assert all[..cap] + all[cap..] == all;
      assert t.offered[p] + t.buf[p] == s.offered[p] + (all[..cap] + all[cap..]);
    }
    assert t.offered[p] + t.buf[p] == s.offered[p] + (s.buf[p] + ms);
  }

  // A change at one port only, by packets that are all for it, is a delivery.
  lemma PortDelivers<T>(s: State<T>, t: State<T>, p: nat, ms: seq<T>, d: seq<uint16>)
    requires Sized(s) && Sized(t) && Grown(s, t) && p < RTE_MAX_ETHPORTS && t.bad == s.bad
    requires |d| == |ms| && forall i :: 0 <= i < |d| ==> d[i] == p
    requires t.offered[p] + t.buf[p] == s.offered[p] + s.buf[p] + ms
    requires forall q :: 0 <= q < RTE_MAX_ETHPORTS && q != p ==> t.offered[q] == s.offered[q] && t.buf[q] == s.buf[q]
    ensures Delivered(s, t, ms, d)
  {
    PacketsForUniform(ms, d, p, BAD_PORT);
    assert s.bad + [] == s.bad;
    forall q | 0 <= q < RTE_MAX_ETHPORTS
      ensures t.offered[q] + t.buf[q] == s.offered[q] + s.buf[q] + PacketsFor(ms, d, q)
    {
      PacketsForUniform(ms, d, p, q);
      assert s.offered[q] + s.buf[q] + [] == s.offered[q] + s.buf[q];
    }
  }

  // With nothing buffered, an immediate offer delivers.
  lemma OfferDelivers<T>(s: State<T>, p: nat, ms: seq<T>, d: seq<uint16>, n: nat)
    requires Consistent(s) && p < RTE_MAX_ETHPORTS && n <= |ms| && s.buf[p] == []
    requires |d| == |ms| && forall i :: 0 <= i < |d| ==> d[i] == p
    ensures Delivered(s, Offer(s, p, ms, n), ms, d) && Consistent(Offer(s, p, ms, n))
  {
    OfferConsistent(s, p, ms, n);
    PortDelivers(s, Offer(s, p, ms, n), p, ms, d);
  }

  // send_packetsx4 delivers exactly its packets, whatever the NIC accepts.
  lemma Sendx4Delivers<T>(s: State<T>, p: nat, ms: seq<T>, d: seq<uint16>, direct: nat, n: nat)
    requires Consistent(s) && p < RTE_MAX_ETHPORTS && |ms| <= MAX_PKT_BURST
    requires n <= if SendsDirectly(s, p, ms, direct) then |ms| else MAX_PKT_BURST
    requires |s.buf[p]| < MAX_PKT_BURST
    requires |d| == |ms| && forall i :: 0 <= i < |d| ==> d[i] == p
    ensures var t := Sendx4(s, p, ms, direct, n);
            && Delivered(s, t, ms, d) && Consistent(t)
            && |t.buf[p]| < MAX_PKT_BURST
            && forall q :: 0 <= q < RTE_MAX_ETHPORTS && q != p ==> t.buf[q] == s.buf[q]
  {
    if SendsDirectly(s, p, ms, direct) {
      OfferDelivers(s, p, ms, d, n);
    } else {
      EnqueueDelivers(s, p, ms, d, MAX_PKT_BURST, n);
    }
  }

  // What send_packetsx4 did, in plain terms. When nothing is buffered and there are direct or
  // more packets, they are all offered in one call and nothing is buffered. Otherwise they
  // join the buffer: below MAX_PKT_BURST packets no call is made; from there on the first
  // MAX_PKT_BURST are offered in one call and the others stay. n is what the NIC takes.
  ghost predicate SentOrBuffered<T>(s: State<T>, t: State<T>, p: nat, ms: seq<T>, direct: nat, n: nat)
    requires Sized(s) && Sized(t) && p < RTE_MAX_ETHPORTS
  {
    var all := s.buf[p] + ms;
    && (forall q :: 0 <= q < RTE_MAX_ETHPORTS && q != p ==> t.buf[q] == s.buf[q] && t.offered[q] == s.offered[q])
    && (if |s.buf[p]| == 0 && |ms| >= direct then
          t.buf[p] == [] && t.offered[p] == s.offered[p] + ms && t.calls == s.calls + [TxCall(p, s.queueId[p], ms, n)]
        else if |all| < 512 then
          t.buf[p] == all && t.offered[p] == s.offered[p] && t.calls == s.calls
        else
          && t.buf[p] == all[512..] && t.offered[p] == s.offered[p] + all[..512]
          && t.calls == s.calls + [TxCall(p, s.queueId[p], all[..512], n)])
  }

  lemma Sendx4Exactly<T>(s: State<T>, p: nat, ms: seq<T>, direct: nat, n: nat)
    requires Sized(s) && p < RTE_MAX_ETHPORTS && |ms| <= MAX_PKT_BURST
    requires n <= if SendsDirectly(s, p, ms, direct) then |ms| else MAX_PKT_BURST
    ensures SentOrBuffered(s, Sendx4(s, p, ms, direct, n), p, ms, direct, n)
  {}

  // And send_single_packet, whose threshold is cap: no call below it, one call for all at it.
  lemma EnqueueExactly<T>(s: State<T>, p: nat, m: T, cap: nat, n: nat)
    requires Sized(s) && p < RTE_MAX_ETHPORTS && |s.buf[p]| < cap && n <= cap
    ensures var t := Enqueue(s, p, [m], cap, n);
            && (forall q :: 0 <= q < RTE_MAX_ETHPORTS && q != p ==> t.buf[q] == s.buf[q] && t.offered[q] == s.offered[q])
            && (if |s.buf[p]| + 1 < cap then
                  t.buf[p] == s.buf[p] + [m] && t.offered[p] == s.offered[p] && t.calls == s.calls
                else
                  && t.buf[p] == [] && t.offered[p] == s.offered[p] + (s.buf[p] + [m])
                  && t.calls == s.calls + [TxCall(p, s.queueId[p], s.buf[p] + [m], n)])
  {
    var all := s.buf[p] + [m];
    if |all| == cap {
      assert all[..cap] == all && all[cap..] == [];
    }
  }

  lemma Sendx4Consistent<T>(s: State<T>, p: nat, ms: seq<T>, direct: nat, n: nat)
    requires Consistent(s) && p < RTE_MAX_ETHPORTS && |ms| <= MAX_PKT_BURST && |s.buf[p]| < MAX_PKT_BURST
    requires n <= if SendsDirectly(s, p, ms, direct) then |ms| else MAX_PKT_BURST
    ensures Consistent(Sendx4(s, p, ms, direct, n))
  {
    Sendx4Delivers(s, p, ms, seq(|ms|, _ => p as uint16), direct, n);
  }

  // ---------------------------------------------------------------- ownership

  ghost function Bag<T>(ss: seq<seq<T>>): multiset<T> {
    if ss == [] then multiset{} else multiset(ss[0]) + Bag(ss[1..])
  }

  ghost function Total<T>(ss: seq<seq<T>>): nat {
    if ss == [] then 0 else |ss[0]| + Total(ss[1..])
  }

  lemma {:induction false} BagSize<T>(ss: seq<seq<T>>)
    ensures |Bag(ss)| == Total(ss)
  {
    if ss == [] {
    } else {
      BagSize(ss[1..]);
    }
  }

  // One port's packets more, one bag's packets more.
  lemma {:induction false} BagAppend<T>(ss: seq<seq<T>>, p: nat, x: seq<T>)
    requires p < |ss|
    ensures Bag(ss[p := ss[p] + x]) == Bag(ss) + multiset(x)
    ensures Total(ss[p := ss[p] + x]) == Total(ss) + |x|
  {
    var tt := ss[p := ss[p] + x];
    if p == 0 {
      assert tt[1..] == ss[1..];
    } else {
      BagAppend(ss[1..], p - 1, x);
      assert tt[1..] == ss[1..][p - 1 := ss[1..][p - 1] + x];
    }
  }

  // Ports whose packets add up give bags that add up.
  lemma {:induction false} BagSum<T>(x: seq<seq<T>>, y: seq<seq<T>>, a: seq<seq<T>>, b: seq<seq<T>>)
    requires |x| == |y| == |a| == |b|
    requires forall p :: 0 <= p < |x| ==> multiset(x[p]) + multiset(y[p]) == multiset(a[p]) + multiset(b[p])
    ensures Bag(x) + Bag(y) == Bag(a) + Bag(b)
  {
    if |x| == 0 {
      assert x == y == a == b;
    } else {
      forall p | 0 <= p < |x[1..]|
        ensures multiset(x[1..][p]) + multiset(y[1..][p]) == multiset(a[1..][p]) + multiset(b[1..][p])
      {
        assert x[1..][p] == x[p + 1] && y[1..][p] == y[p + 1];
      }
      BagSum(x[1..], y[1..], a[1..], b[1..]);
      Interchange(multiset(x[0]), Bag(x[1..]), multiset(y[0]), Bag(y[1..]));
      Interchange(multiset(a[0]), Bag(a[1..]), multiset(b[0]), Bag(b[1..]));
    }
  }

  lemma Interchange<T>(a: multiset<T>, b: multiset<T>, c: multiset<T>, d: multiset<T>)
    ensures (a + b) + (c + d) == (a + c) + (b + d)
  {}

  // A destination the send walk can handle.
  predicate Sendable(d: uint16) { d < RTE_MAX_ETHPORTS || d == BAD_PORT }

  // per holds, port by port, the packets of the burst (ms, d).
  ghost predicate PerPort<T>(per: seq<seq<T>>, ms: seq<T>, d: seq<uint16>) {
    |ms| == |d| && forall p :: 0 <= p < |per| ==> per[p] == PacketsFor(ms, d, p)
  }

  lemma PacketsForSnoc<T>(ms: seq<T>, d: seq<uint16>, m: T, q: uint16, p: int)
    requires |ms| == |d|
    ensures PacketsFor(ms + [m], d + [q], p)
            == if p == q then PacketsFor(ms, d, p) + [m] else PacketsFor(ms, d, p)
  {
    assert (ms + [m])[..|ms|] == ms && (d + [q])[..|d|] == d;
    assert PacketsFor(ms, d, p) + [] == PacketsFor(ms, d, p);
  }

  // The shares before the last packet (m, q) of a burst.
  lemma PerPortBefore<T>(per: seq<seq<T>>, ms: seq<T>, d: seq<uint16>, m: T, q: uint16)
    returns (before: seq<seq<T>>)
    requires |ms| == |d| && PerPort(per, ms + [m], d + [q])
    requires q < |per| || q == BAD_PORT
    ensures |before| == |per| && PerPort(before, ms, d)
    ensures if q < |per| then per == before[q := before[q] + [m]] else before == per
  {
    before := if q < |per| then per[q := PacketsFor(ms, d, q)] else per;
    forall p | 0 <= p < |before|
      ensures before[p] == PacketsFor(ms, d, p)
      ensures per[p] == if p == q then before[p] + [m] else before[p]
    {
      PacketsForSnoc(ms, d, m, q, p);
    }
  }

  // Splitting a burst by destination loses and duplicates nothing.
  lemma {:induction false} SplitKeepsAll<T>(ms: seq<T>, d: seq<uint16>, per: seq<seq<T>>)
    requires |per| == RTE_MAX_ETHPORTS && PerPort(per, ms, d)
    requires forall i :: 0 <= i < |d| ==> Sendable(d[i])
    ensures Bag(per) + multiset(PacketsFor(ms, d, BAD_PORT)) == multiset(ms)
    decreases |ms|
  {
    if |ms| == 0 {
      EmptyBag(per);
    } else {
      var n := |ms| - 1;
      var ms', d', m, q := ms[..n], d[..n], ms[n], d[n];
      assert ms == ms' + [m] && d == d' + [q];
      PacketsForSnoc(ms', d', m, q, BAD_PORT);
      var before := PerPortBefore(per, ms', d', m, q);
      SplitKeepsAll(ms', d', before);
      if q < |per| {
        BagAppend(before, q, [m]);
        OneMoreShared(Bag(before), PacketsFor(ms', d', BAD_PORT), ms', m);
      } else {
        OneMoreBad(Bag(before), PacketsFor(ms', d', BAD_PORT), ms', m);
      }
    }
  }

  lemma OneMoreShared<T>(b: multiset<T>, bad: seq<T>, ms: seq<T>, m: T)
    requires b + multiset(bad) == multiset(ms)
    ensures b + multiset([m]) + multiset(bad) == multiset(ms + [m])
  {}

  lemma OneMoreBad<T>(b: multiset<T>, bad: seq<T>, ms: seq<T>, m: T)
    requires b + multiset(bad) == multiset(ms)
    ensures b + multiset(bad + [m]) == multiset(ms + [m])
  {}

  lemma {:induction false} EmptyBag<T>(ss: seq<seq<T>>)
    requires forall p :: 0 <= p < |ss| ==> ss[p] == []
    ensures Bag(ss) == multiset{} && Total(ss) == 0
  {
    if ss == [] {
    } else {
      EmptyBag(ss[1..]);
    }
  }

  // Every packet the transmit side is answerable for: accepted by the NIC, freed after a
  // refusal, freed for BAD_PORT, or still buffered.
  ghost function Owned<T>(s: State<T>): multiset<T> {
    Bag(s.accepted) + Bag(s.rejected) + multiset(s.bad) + Bag(s.buf)
  }

  lemma OwnedByOffer<T>(s: State<T>)
    requires Consistent(s)
    ensures Bag(s.accepted) + Bag(s.rejected) == Bag(s.offered)
  {
    forall p | 0 <= p < RTE_MAX_ETHPORTS
      ensures multiset(s.offered[p]) == multiset(s.accepted[p]) + multiset(s.rejected[p])
    {
      Settled(s, p);
    }
    BagPlus(s.offered, s.accepted, s.rejected);
  }

  // Exactly-once ownership: a delivery adds each of its packets to exactly one of the
  // four places, once, and moves nothing in from elsewhere.
  lemma OwnedExactlyOnce<T>(s: State<T>, t: State<T>, ms: seq<T>, d: seq<uint16>)
    requires Consistent(s) && Consistent(t) && Delivered(s, t, ms, d)
    requires forall i :: 0 <= i < |d| ==> Sendable(d[i])
    ensures Owned(t) == Owned(s) + multiset(ms)
  {
    var per := seq(RTE_MAX_ETHPORTS, p requires 0 <= p < RTE_MAX_ETHPORTS => PacketsFor(ms, d, p));
    var grown := seq(RTE_MAX_ETHPORTS, p requires 0 <= p < RTE_MAX_ETHPORTS => s.buf[p] + per[p]);
    OfferedGrows(s, t, ms, d, per, grown);
    SplitKeepsAll(ms, d, per);
    OwnedByOffer(s);
    OwnedByOffer(t);
    AddUp(Bag(t.offered), Bag(t.buf), Bag(s.offered), Bag(s.buf), Bag(per),
          multiset(s.bad), multiset(PacketsFor(ms, d, BAD_PORT)), multiset(ms));
    assert multiset(t.bad) == multiset(s.bad) + multiset(PacketsFor(ms, d, BAD_PORT));
    assert Owned(t) == Bag(t.offered) + multiset(t.bad) + Bag(t.buf);
    assert Owned(s) == Bag(s.offered) + multiset(s.bad) + Bag(s.buf);
  }

  lemma AddUp<T>(to: multiset<T>, tb: multiset<T>, so: multiset<T>, sb: multiset<T>,
                 per: multiset<T>, bad: multiset<T>, more: multiset<T>, all: multiset<T>)
    requires to + tb == so + sb + per
    requires per + more == all
    ensures to + (bad + more) + tb == so + bad + sb + all
  {
    assert to + (bad + more) + tb == (to + tb) + (bad + more);
    assert (so + sb + per) + (bad + more) == so + bad + sb + (per + more);
  }

  lemma Regroup<T>(a: seq<T>, b: seq<T>, c: seq<T>, d: seq<T>, e: seq<T>)
    requires a + b == c + d + e
    ensures multiset(a) + multiset(b) == multiset(c) + multiset(d + e)
  {
    assert c + d + e == c + (d + e);
    assert multiset(a + b) == multiset(c + (d + e));
  }

  lemma PortGrows<T>(s: State<T>, t: State<T>, ms: seq<T>, d: seq<uint16>, p: nat)
    requires Delivered(s, t, ms, d) && p < RTE_MAX_ETHPORTS
    ensures multiset(t.offered[p]) + multiset(t.buf[p])
            == multiset(s.offered[p]) + multiset(s.buf[p] + PacketsFor(ms, d, p))
  {
    Regroup(t.offered[p], t.buf[p], s.offered[p], s.buf[p], PacketsFor(ms, d, p));
  }

  lemma PortsGrow<T>(s: State<T>, t: State<T>, ms: seq<T>, d: seq<uint16>, per: seq<seq<T>>, grown: seq<seq<T>>)
    requires Delivered(s, t, ms, d) && |per| == RTE_MAX_ETHPORTS && PerPort(per, ms, d)
    requires |grown| == |per| && forall p :: 0 <= p < |per| ==> grown[p] == s.buf[p] + per[p]
    ensures forall p :: 0 <= p < |per| ==>
              multiset(t.offered[p]) + multiset(t.buf[p]) == multiset(s.offered[p]) + multiset(grown[p])
    ensures forall p :: 0 <= p < |per| ==> multiset(grown[p]) == multiset(s.buf[p]) + multiset(per[p])
  {
    forall p | 0 <= p < |per|
      ensures multiset(t.offered[p]) + multiset(t.buf[p]) == multiset(s.offered[p]) + multiset(grown[p])
    {
      PortGrows(s, t, ms, d, p);
    }
  }

  // Over all ports together, offered and buffered packets grow by the per-port packets.
  lemma OfferedGrows<T>(s: State<T>, t: State<T>, ms: seq<T>, d: seq<uint16>,
                        per: seq<seq<T>>, grown: seq<seq<T>>)
    requires Delivered(s, t, ms, d) && |per| == RTE_MAX_ETHPORTS && PerPort(per, ms, d)
    requires |grown| == |per| && forall p :: 0 <= p < |per| ==> grown[p] == s.buf[p] + per[p]
    ensures Bag(t.offered) + Bag(t.buf) == Bag(s.offered) + Bag(s.buf) + Bag(per)
  {
    PortsGrow(s, t, ms, d, per, grown);
    BagSum(t.offered, t.buf, s.offered, grown);
    BagPlus(grown, s.buf, per);
  }

  lemma {:induction false} BagPlus<T>(x: seq<seq<T>>, a: seq<seq<T>>, b: seq<seq<T>>)
    requires |x| == |a| == |b|
    requires forall p :: 0 <= p < |x| ==> multiset(x[p]) == multiset(a[p]) + multiset(b[p])
    ensures Bag(x) == Bag(a) + Bag(b)
  {
    var none := seq(|x|, _ => []);
    EmptyBag(none);
    BagSum(x, none, a, b);
  }

  ghost function Sent<T>(s: State<T>): nat { Total(s.accepted) }
  ghost function Dropped<T>(s: State<T>): nat { Total(s.rejected) + |s.bad| }
  ghost function Buffered<T>(s: State<T>): nat { Total(s.buf) }

  // Conservation: what came in is sent, dropped or buffered.
  lemma Conserved<T>(s: State<T>, t: State<T>, ms: seq<T>, d: seq<uint16>)
    requires Consistent(s) && Consistent(t) && Delivered(s, t, ms, d)
    requires forall i :: 0 <= i < |d| ==> Sendable(d[i])
    ensures Sent(t) + Dropped(t) + Buffered(t) == Sent(s) + Dropped(s) + Buffered(s) + |ms|
  {
    OwnedExactlyOnce(s, t, ms, d);
    OwnedSize(s);
    OwnedSize(t);
    assert |Owned(t)| == |Owned(s)| + |multiset(ms)|;
  }

  lemma OwnedSize<T>(s: State<T>)
    ensures |Owned(s)| == Sent(s) + Dropped(s) + Buffered(s)
  {
    BagSize(s.accepted);
    BagSize(s.rejected);
    BagSize(s.buf);
  }

  lemma OfferCounts<T>(s: State<T>, p: nat, ms: seq<T>, n: nat)
    requires Sized(s) && p < RTE_MAX_ETHPORTS && n <= |ms|
    ensures var t := Offer(s, p, ms, n);
            Sent(t) == Sent(s) + n && Dropped(t) == Dropped(s) + |ms| - n
  {
    BagAppend(s.accepted, p, ms[..n]);
    BagAppend(s.rejected, p, ms[n..]);
  }

  // What send_packetsx4 adds to the two counters.
  lemma Sendx4Counts<T>(s: State<T>, p: nat, ms: seq<T>, direct: nat, n: nat)
    requires Sized(s) && p < RTE_MAX_ETHPORTS && |ms| <= MAX_PKT_BURST
    requires n <= if SendsDirectly(s, p, ms, direct) then |ms| else MAX_PKT_BURST
    ensures var t := Sendx4(s, p, ms, direct, n);
            var asked := if SendsDirectly(s, p, ms, direct) then |ms|
                         else if |s.buf[p]| + |ms| < MAX_PKT_BURST then 0 else MAX_PKT_BURST;
            if asked == 0 then Sent(t) == Sent(s) && Dropped(t) == Dropped(s)
            else Sent(t) == Sent(s) + n && Dropped(t) == Dropped(s) + asked - n
  {
    if SendsDirectly(s, p, ms, direct) {
      OfferCounts(s, p, ms, n);
    } else {
      var all := s.buf[p] + ms;
      if |all| >= MAX_PKT_BURST {
        OfferCounts(SetBuf(s, p, all[MAX_PKT_BURST..]), p, all[..MAX_PKT_BURST], n);
      }
    }
  }

  // Offering a port's whole buffer delivers nothing new and keeps everything owned.
  lemma FlushDelivers<T>(s: State<T>, p: nat, n: nat)
    requires Consistent(s) && p < RTE_MAX_ETHPORTS && n <= |s.buf[p]|
    ensures var t := Offer(SetBuf(s, p, []), p, s.buf[p], n);
            && Delivered(s, t, [], []) && Consistent(t)
            && Sent(t) == Sent(s) + n && Dropped(t) == Dropped(s) + |s.buf[p]| - n
  {
    var s' := SetBuf(s, p, []);
    OfferConsistent(s', p, s.buf[p], n);
    OfferCounts(s', p, s.buf[p], n);
    var t := Offer(s', p, s.buf[p], n);
    PortDelivers(s, t, p, [], []);
  }

  lemma {:induction false} PacketsForNone<T>(ms: seq<T>, d: seq<uint16>, p: int)
    requires |ms| == |d| && forall i :: 0 <= i < |d| ==> d[i] != p
    ensures PacketsFor(ms, d, p) == []
  {
    if |ms| == 0 {
    } else {
      PacketsForNone(ms[..|ms| - 1], d[..|d| - 1], p);
    }
  }

  lemma IdleOwnsNothing<T>(queueId: seq<uint16>) returns (e: State<T>)
    requires |queueId| == RTE_MAX_ETHPORTS
    ensures Idle(e) && e.queueId == queueId && Consistent(e) && Owned(e) == multiset{}
    ensures Sent(e) == 0 && Dropped(e) == 0 && Buffered(e) == 0
  {
    var none: seq<seq<T>> := seq(RTE_MAX_ETHPORTS, _ => []);
    EmptyBag(none);
    e := State(none, none, none, none, [], queueId, []);
  }

  // Exactly-once ownership since the start: the packets received are exactly those
  // accepted, freed or buffered, each as often as it was received.
  lemma AccountsOwned<T>(t: State<T>, ms: seq<T>, d: seq<uint16>)
    requires Consistent(t) && Accounts(t, ms, d) && forall i :: 0 <= i < |d| ==> Sendable(d[i])
    ensures Owned(t) == multiset(ms)
    ensures Sent(t) + Dropped(t) + Buffered(t) == |ms|
  {
    var e := IdleOwnsNothing<T>(t.queueId);
    IdleDelivered(e, t, ms, d);
    OwnedExactlyOnce(e, t, ms, d);
    Conserved(e, t, ms, d);
  }

  lemma IdleDelivered<T>(e: State<T>, t: State<T>, ms: seq<T>, d: seq<uint16>)
    requires Idle(e) && e.queueId == t.queueId && Accounts(t, ms, d)
    ensures Delivered(e, t, ms, d)
  {}

  // Right after a drain pass nothing is buffered, and what came in is sent or dropped,
  // when every destination is among the drained ports.
  lemma DrainedConserved<T>(s: State<T>, ms: seq<T>, d: seq<uint16>, ports: seq<nat>)
    requires Consistent(s) && Accounts(s, ms, d)
    requires forall i :: 0 <= i < |d| ==> d[i] == BAD_PORT || (d[i] < RTE_MAX_ETHPORTS && d[i] in ports)
    requires forall p :: 0 <= p < RTE_MAX_ETHPORTS && p in ports ==> s.buf[p] == []
    ensures Buffered(s) == 0 && Sent(s) + Dropped(s) == |ms|
  {
    forall p | 0 <= p < RTE_MAX_ETHPORTS
      ensures s.buf[p] == []
    {
      if p !in ports {
        PacketsForNone(ms, d, p);
        assert s.offered[p] + s.buf[p] == [];
      }
    }
    EmptyBag(s.buf);
    AccountsOwned(s, ms, d);
  }

  // An idle state has sent, dropped and buffered nothing.
  lemma IdleEmpty<T>(s: State<T>)
    requires Idle(s)
    ensures Sent(s) == 0 && Dropped(s) == 0 && Buffered(s) == 0 && Consistent(s)
  {
    EmptyBag(s.accepted);
    EmptyBag(s.rejected);
    EmptyBag(s.buf);
  }

  // What a one-packet enqueue adds to the two counters.
  lemma EnqueueCounts<T>(s: State<T>, p: nat, m: T, cap: nat, n: nat)
    requires Sized(s) && p < RTE_MAX_ETHPORTS && n <= cap && |s.buf[p]| < cap
    ensures var t := Enqueue(s, p, [m], cap, n);
            if |s.buf[p]| + 1 < cap then Sent(t) == Sent(s) && Dropped(t) == Dropped(s)
            else Sent(t) == Sent(s) + n && Dropped(t) == Dropped(s) + cap - n
  {
    var all := s.buf[p] + [m];
    if |all| >= cap {
      OfferCounts(SetBuf(s, p, all[cap..]), p, all[..cap], n);
    }
  }

  lemma {:induction false} TotalGrows<T>(a: seq<seq<T>>, b: seq<seq<T>>)
    requires |a| == |b| && forall p :: 0 <= p < |a| ==> a[p] <= b[p]
    ensures Total(a) <= Total(b)
  {
    if a == [] {
    } else {
      TotalGrows(a[1..], b[1..]);
    }
  }

  // What was sent or dropped stays so.
  lemma GrownCounts<T>(s: State<T>, t: State<T>)
    requires Grown(s, t) && Consistent(s) && Consistent(t)
    ensures Sent(s) <= Sent(t) && Dropped(s) <= Dropped(t)
  {
    forall p | 0 <= p < RTE_MAX_ETHPORTS
      ensures s.accepted[p] <= t.accepted[p] && s.rejected[p] <= t.rejected[p]
    {
      LogsGrow(s, t, p);
    }
    TotalGrows(s.accepted, t.accepted);
    TotalGrows(s.rejected, t.rejected);
  }

  // ---------------------------------------------------------------- distinct packets

  ghost predicate Distinct<T>(ms: seq<T>) {
    forall i, j :: 0 <= i < j < |ms| ==> ms[i] != ms[j]
  }

  lemma {:induction false} DistinctOnce<T>(ms: seq<T>, i: nat)
    requires Distinct(ms) && i < |ms|
    ensures multiset(ms)[ms[i]] == 1
  {
    var n := |ms| - 1;
    assert ms == ms[..n] + [ms[n]];
    if i < n {
      DistinctOnce(ms[..n], i);
    } else {
      assert ms[n] !in ms[..n];
    }
  }

  // Each packet received is in exactly one of the four places, once.
  lemma OnceEach<T>(s: State<T>, ms: seq<T>, d: seq<uint16>, i: nat)
    requires Consistent(s) && Accounts(s, ms, d) && forall j :: 0 <= j < |d| ==> Sendable(d[j])
    requires Distinct(ms) && i < |ms|
    ensures Bag(s.accepted)[ms[i]] + Bag(s.rejected)[ms[i]] + multiset(s.bad)[ms[i]] + Bag(s.buf)[ms[i]] == 1
  {
    AccountsOwned(s, ms, d);
    DistinctOnce(ms, i);
    assert Owned(s)[ms[i]] == 1;
  }
}
