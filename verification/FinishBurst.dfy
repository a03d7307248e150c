// l3fwd/l3fwd_sse.h, first half of send_packets_multi: finish each packet's header and
// group the burst by final destination, four packets at a time and then one by one.
module FinishBurst {
  import opened Words
  import opened Sse
  import opened Headers
  import opened PktGroup

  // The life of one packet in the burst: as received with the hop the lookup gave it,
  // after the address store of a block, and as it leaves with its final destination.
  datatype Frame = Frame(bytes: seq<uint8>, ptype: bv32, hop: uint16,
                         mid: seq<uint8>, out: seq<uint8>, port: uint16)

  // f is what the code makes of its received bytes. valEth holds, per port, the MAC
  // addresses to write.
  ghost predicate Right(f: Frame, valEth: seq<Xmm>) {
    && MIN_ROOM <= |f.bytes| && f.hop < |valEth| == RTE_MAX_ETHPORTS
    && f.mid == Store16(f.bytes, Blend16(f.bytes[..16], valEth[f.hop], MASK_ETH))
    && f.out == Forwarded(f.bytes, f.ptype, valEth[f.hop])
    && f.port == Rfc1812Port(f.bytes, f.ptype, f.hop)
  }

  // All frames are right. Closed, so that a frame's bytes enter a proof on demand only.
  ghost predicate AllRight(fr: seq<Frame>, valEth: seq<Xmm>) {
    forall k {:trigger Asked(k)} :: Asked(k) ==> forall i {:trigger fr[i]} :: 0 <= i < |fr| ==> Right(fr[i], valEth)
  }

  lemma RightAt(fr: seq<Frame>, valEth: seq<Xmm>, i: nat)
    requires AllRight(fr, valEth) && i < |fr|
    ensures Right(fr[i], valEth)
    ensures fr[i].hop < |valEth| && fr[i].port != NEVER_USED
  {
    assert Asked(0);
  }

  lemma OneMoreRight(fr: seq<Frame>, f: Frame, valEth: seq<Xmm>)
    requires AllRight(fr, valEth) && Right(f, valEth)
    ensures AllRight(fr + [f], valEth)
  {
    forall i | 0 <= i < |fr|
      ensures Right(fr[i], valEth)
    {
      RightAt(fr, valEth, i);
    }
  }

  // d holds the final destinations.
  ghost predicate Ports(d: seq<uint16>, fr: seq<Frame>) {
    |d| == |fr| && forall i {:trigger fr[i]} :: 0 <= i < |fr| ==> d[i] == fr[i].port
  }

  // The packet is still as received.
  ghost predicate Untouched(m: Mbuf, dp: uint16, f: Frame)
    reads m, m.data
  {
    m.data[..] == f.bytes && m.packetType == f.ptype && dp == f.hop
  }

  // The packet has its new addresses but not yet its RFC 1812 work.
  ghost predicate Rewritten(m: Mbuf, dp: uint16, f: Frame)
    reads m, m.data
  {
    m.data[..] == f.mid && m.packetType == f.ptype && dp == f.hop
  }

  // The packet has its final bytes and destination.
  ghost predicate Finished(m: Mbuf, dp: uint16, f: Frame)
    reads m, m.data
  {
    m.data[..] == f.out && m.packetType == f.ptype && dp == f.port
  }

  // The first a packets are finished, those up to b rewritten, the others untouched. Closed.
  ghost predicate Phase(pkts: seq<Mbuf>, dst: array<uint16>, fr: seq<Frame>, a: nat, b: nat)
    reads dst, pkts, Buffers(pkts)
  {
    && a <= b <= |pkts| == |fr| <= dst.Length
    && forall k {:trigger Asked(k)} :: Asked(k) ==>
         && (forall i {:trigger pkts[i]} :: 0 <= i < a ==> Finished(pkts[i], dst[i], fr[i]))
         && (forall i {:trigger pkts[i]} :: a <= i < b ==> Rewritten(pkts[i], dst[i], fr[i]))
         && (forall i {:trigger pkts[i]} :: b <= i < |pkts| ==> Untouched(pkts[i], dst[i], fr[i]))
  }

  // The first j packets are finished and the others untouched.
  ghost predicate Progress(pkts: seq<Mbuf>, dst: array<uint16>, fr: seq<Frame>, j: nat)
    reads dst, pkts, Buffers(pkts)
  {
    Phase(pkts, dst, fr, j, j)
  }

  method StoreXmm(a: array<uint8>, x: Xmm)
    requires 16 <= a.Length
    modifies a
    ensures a[..] == Store16(old(a[..]), x)
  {
    forall i | 0 <= i < 16 { a[i] := x[i]; }
  }

  // process_packet
  method ProcessPacket(pkts: seq<Mbuf>, dst: array<uint16>, j: nat, valEth: seq<Xmm>, ghost fr: seq<Frame>)
    requires Burst(pkts) && j < |pkts| && Progress(pkts, dst, fr, j) && AllRight(fr, valEth)
    modifies pkts[j].data, dst
    ensures Progress(pkts, dst, fr, j + 1)
  {
    var m := pkts[j];
    ghost var f := fr[j];
    RightAt(fr, valEth, j);
    assert Asked(0);
    assert Untouched(m, dst[j], f);
    var te := m.data[..16];
    var ve := valEth[dst[j]];
    Rfc1812Process(m, dst, j);
    StoreXmm(m.data, Blend16(te, ve, MASK_ETH));
    PositionIndependent(f.bytes, f.ptype, ve, f.hop);
    assert m.data[..] == FinishInTail(f.bytes, f.ptype, ve);
    assert Finished(m, dst[j], f);
  }

  // The registers hold the packet's first bytes and the addresses of its hop. Closed.
  ghost predicate Loaded(te: Xmm, ve: Xmm, f: Frame, valEth: seq<Xmm>) {
    forall k {:trigger Asked(k)} :: Asked(k) ==> Right(f, valEth) && te == f.bytes[..16] && ve == valEth[f.hop]
  }

  method StoreOne(pkts: seq<Mbuf>, dst: array<uint16>, valEth: seq<Xmm>, te: Xmm, ve: Xmm,
                  ghost fr: seq<Frame>, ghost a: nat, b: nat)
    requires Burst(pkts) && b < |pkts| && Phase(pkts, dst, fr, a, b)
    requires Loaded(te, ve, fr[b], valEth)
    modifies Buffers(pkts)
    ensures Phase(pkts, dst, fr, a, b + 1)
  {
    assert Asked(0);
    assert Untouched(pkts[b], dst[b], fr[b]);
    StoreXmm(pkts[b].data, Blend16(te, ve, MASK_ETH));
    assert Rewritten(pkts[b], dst[b], fr[b]);
  }

  method Rfc1812One(pkts: seq<Mbuf>, dst: array<uint16>, ghost valEth: seq<Xmm>,
                    ghost fr: seq<Frame>, a: nat, ghost b: nat)
    requires Burst(pkts) && a < b && Phase(pkts, dst, fr, a, b) && AllRight(fr, valEth)
    modifies Buffers(pkts), dst
    ensures Phase(pkts, dst, fr, a + 1, b)
  {
    ghost var f := fr[a];
    RightAt(fr, valEth, a);
    assert Asked(0);
    assert Rewritten(pkts[a], dst[a], f);
    Rfc1812Process(pkts[a], dst, a);
    PositionIndependent(f.bytes, f.ptype, valEth[f.hop], f.hop);
    assert Finished(pkts[a], dst[a], f);
  }

  // One pair of loads of processx4_step3.
  method LoadOne(pkts: seq<Mbuf>, dst: array<uint16>, valEth: seq<Xmm>, i: nat, ghost j: nat, ghost fr: seq<Frame>)
    returns (te: Xmm, ve: Xmm)
    requires Burst(pkts) && j <= i < |pkts| && Progress(pkts, dst, fr, j) && AllRight(fr, valEth)
    ensures Loaded(te, ve, fr[i], valEth)
  {
    assert Asked(0);
    RightAt(fr, valEth, i);
    assert Untouched(pkts[i], dst[i], fr[i]);
    te, ve := pkts[i].data[..16], valEth[dst[i]];
  }

  // The loads of processx4_step3.
  method LoadFour(pkts: seq<Mbuf>, dst: array<uint16>, j: nat, valEth: seq<Xmm>, ghost fr: seq<Frame>)
    returns (te: seq<Xmm>, ve: seq<Xmm>)
    requires Burst(pkts) && j + FWDSTEP <= |pkts| && Progress(pkts, dst, fr, j) && AllRight(fr, valEth)
    ensures |te| == |ve| == FWDSTEP && forall i :: 0 <= i < 4 ==> Loaded(te[i], ve[i], fr[j + i], valEth)
  {
    var te0, ve0 := LoadOne(pkts, dst, valEth, j, j, fr);
    var te1, ve1 := LoadOne(pkts, dst, valEth, j + 1, j, fr);
    var te2, ve2 := LoadOne(pkts, dst, valEth, j + 2, j, fr);
    var te3, ve3 := LoadOne(pkts, dst, valEth, j + 3, j, fr);
    te, ve := [te0, te1, te2, te3], [ve0, ve1, ve2, ve3];
  }

  // Its blends and stores.
  method StoreFour(pkts: seq<Mbuf>, dst: array<uint16>, j: nat, valEth: seq<Xmm>, te: seq<Xmm>, ve: seq<Xmm>, ghost fr: seq<Frame>)
    requires Burst(pkts) && j + FWDSTEP <= |pkts| && Progress(pkts, dst, fr, j)
    requires |te| == |ve| == FWDSTEP && forall i :: 0 <= i < 4 ==> Loaded(te[i], ve[i], fr[j + i], valEth)
    modifies Buffers(pkts)
    ensures Phase(pkts, dst, fr, j, j + 4)
  {
    StoreOne(pkts, dst, valEth, te[0], ve[0], fr, j, j);
    StoreOne(pkts, dst, valEth, te[1], ve[1], fr, j, j + 1);
    StoreOne(pkts, dst, valEth, te[2], ve[2], fr, j, j + 2);
    StoreOne(pkts, dst, valEth, te[3], ve[3], fr, j, j + 3);
  }

  // processx4_step3: the stores for all four packets, then RFC 1812 for all four.
  method Processx4Step3(pkts: seq<Mbuf>, dst: array<uint16>, j: nat, valEth: seq<Xmm>, ghost fr: seq<Frame>)
    requires Burst(pkts) && j + FWDSTEP <= |pkts| && Progress(pkts, dst, fr, j) && AllRight(fr, valEth)
    modifies Buffers(pkts), dst
    ensures Progress(pkts, dst, fr, j + FWDSTEP)
  {
    var te, ve := LoadFour(pkts, dst, j, valEth, fr);
    StoreFour(pkts, dst, j, valEth, te, ve, fr);
    Rfc1812One(pkts, dst, valEth, fr, j, j + 4);
    Rfc1812One(pkts, dst, valEth, fr, j + 1, j + 4);
    Rfc1812One(pkts, dst, valEth, fr, j + 2, j + 4);
    Rfc1812One(pkts, dst, valEth, fr, j + 3, j + 4);
  }

  // ---------------------------------------------------------------- grouping

  // Where the scalar tail stands: nothing grouped yet, or the first j packets grouped.
  ghost predicate Tail(d: seq<uint16>, j: nat, pn: seq<uint16>, lp: nat, dlp: uint16) {
    && j <= |d|
    && if j == 0 then lp == MAX_PKT_BURST && dlp == NEVER_USED
       else Live(d, j, pn, lp) && dlp == d[j - 1]
  }

  // One step of the tail: finish packet j, then count it.
  method TailStep(pkts: seq<Mbuf>, dst: array<uint16>, pnum: array<uint16>, valEth: seq<Xmm>,
                  j0: nat, lp0: nat, dlp0: uint16, ghost fr: seq<Frame>, ghost d: seq<uint16>)
    returns (j: nat, lp: nat, dlp: uint16)
    requires Ports(d, fr) && AllRight(fr, valEth)
    requires Burst(pkts) && j0 < |pkts| <= MAX_PKT_BURST && Progress(pkts, dst, fr, j0)
    requires pnum.Length == MAX_PKT_BURST + 1 && dst != pnum
    requires Tail(d, j0, pnum[..], lp0, dlp0)
    modifies Buffers(pkts), dst, pnum
    ensures j == j0 + 1 && Progress(pkts, dst, fr, j)
    ensures Tail(d, j, pnum[..], lp, dlp)
  {
    ghost var g := Group(pnum[..], lp0, dlp0);
    ProcessPacket(pkts, dst, j0, valEth, fr);
    RightAt(fr, valEth, j0);
    assert Asked(0);
    assert Finished(pkts[j0], dst[j0], fr[j0]);
    dlp, lp := GroupPortStepAt(dlp0, dst, lp0, pnum, j0);
    j := j0 + 1;
    TailOn(d, dst[..], j0, g, Group(pnum[..], lp, dlp));
  }

  lemma TailOn(d: seq<uint16>, dcp: seq<uint16>, j: nat, g: Group, r: Group)
    requires j < |d| <= MAX_PKT_BURST && j < |dcp| && dcp[j] == d[j] && d[j] != NEVER_USED
    requires |g.pn| == MAX_PKT_BURST + 1 && g.lp < |g.pn| && Tail(d, j, g.pn, g.lp, g.dlp)
    requires r == GroupPortStep(g, dcp, j)
    ensures Tail(d, j + 1, r.pn, r.lp, r.dlp)
  {
    assert r == GroupPortStep(g, d, j);
    if j > 0 {
      LiveStep(d, j, g);
    } else {
      assert IsRun(d, 1, 0, r.pn[0]);
    }
  }

  // Finished packets have their final destinations in dst.
  lemma FinalSoFar(pkts: seq<Mbuf>, dst: array<uint16>, fr: seq<Frame>, j: nat)
    requires Progress(pkts, dst, fr, j)
    ensures forall i :: 0 <= i < j ==> dst[i] == fr[i].port
  {
    assert Asked(0);
    forall i | 0 <= i < j
      ensures dst[i] == fr[i].port
    {
      assert Finished(pkts[i], dst[i], fr[i]);
    }
  }

  // Eight destinations from dst; those below upto are final.
  method LoadPorts(dst: array<uint16>, at: nat, ghost d: seq<uint16>, ghost upto: nat) returns (v: Vec)
    requires at + 8 <= dst.Length && upto <= dst.Length && upto <= |d|
    requires forall i :: 0 <= i < upto ==> dst[i] == d[i]
    ensures forall i :: 0 <= i < 8 && at + i < upto ==> v[i] == d[at + i]
  {
    v := LoadU(dst[..], at);
  }

  // Before the block at j: three of the previous block's packets are grouped with their
  // successors, and dp1 has the previous block's destinations.
  ghost predicate BlockState(d: seq<uint16>, j: nat, pn: seq<uint16>, lp: nat, dp1: Vec) {
    FWDSTEP <= j && Live(d, j - 3, pn, lp) && Lanes(dp1, d, j - FWDSTEP)
  }

  // The body of the block loop.
  method NextBlock(pkts: seq<Mbuf>, dst: array<uint16>, pnum: array<uint16>, valEth: seq<Xmm>,
                   j0: nat, lp0: nat, dp: Vec, ghost fr: seq<Frame>, ghost d: seq<uint16>)
    returns (j: nat, lp: nat, dp1: Vec)
    requires Burst(pkts) && j0 + FWDSTEP <= |pkts| <= MAX_PKT_BURST
    requires Progress(pkts, dst, fr, j0) && Ports(d, fr) && AllRight(fr, valEth)
    requires dst.Length == MAX_PKT_BURST + 2 * FWDSTEP && pnum.Length == MAX_PKT_BURST + 1 && dst != pnum
    requires BlockState(d, j0, pnum[..], lp0, dp)
    modifies Buffers(pkts), dst, pnum
    ensures j == j0 + FWDSTEP && Progress(pkts, dst, fr, j)
    ensures BlockState(d, j, pnum[..], lp, dp1)
  {
    j := j0 + FWDSTEP;
    Processx4Step3(pkts, dst, j0, valEth, fr);
    FinalSoFar(pkts, dst, fr, j);
    var dp2;
    dp2, dp1 := LoadBlock(dst, j0, d);
    lp := PortGroupx4(pnum, j0 - FWDSTEP, lp0, dp, dp2, d);
  }

  // The destinations of the block at j0: shifted by one for the comparison, and its own.
  method LoadBlock(dst: array<uint16>, j0: nat, ghost d: seq<uint16>) returns (dp2: Vec, dp1: Vec)
    requires FWDSTEP <= j0 && j0 + FWDSTEP <= |d| <= MAX_PKT_BURST && dst.Length == MAX_PKT_BURST + 2 * FWDSTEP
    requires forall i :: 0 <= i < j0 + FWDSTEP ==> dst[i] == d[i]
    ensures Lanes(dp2, d, j0 - FWDSTEP + 1) && Lanes(dp1, d, j0)
  {
    // the last three of the block before and the first of this one come first
    dp2 := LoadPorts(dst, j0 - FWDSTEP + 1, d, j0 + FWDSTEP);
    // moved down three lanes, the register starts with this block
    dp1 := ShiftRightLanes(dp2, FWDSTEP - 1);
    assert forall i :: 0 <= i < 4 ==> dp1[i] == dp2[i + 3];
  }

  // The last block, with its last destination repeated and the repetition taken back.
  method LastBlock(pnum: array<uint16>, k: nat, lp0: nat, dp1: Vec, ghost d: seq<uint16>)
    returns (lp: nat)
    requires k <= |d| <= MAX_PKT_BURST && pnum.Length == MAX_PKT_BURST + 1
    requires BlockState(d, k, pnum[..], lp0, dp1)
    modifies pnum
    ensures Live(d, k, pnum[..], lp)
  {
    // each of the four gets its successor, the last one itself
    var dp2 := ShuffleLo16(dp1, 0xf9);
    ghost var r := d[..k] + [d[k - 1]];
    assert forall i :: 0 <= i < k ==> r[i] == d[i];
    assert Lanes(dp1, r, k - FWDSTEP);
    assert dp2[0] == dp1[1] && dp2[1] == dp1[2] && dp2[2] == dp1[3] && dp2[3] == dp1[3];
    assert Lanes(dp2, r, k - FWDSTEP + 1);
    LivePrefix(d, r, k - 3, pnum[..], lp0);
    lp := PortGroupx4(pnum, k - FWDSTEP, lp0, dp1, dp2, r);
    RepeatedHead(d, k, pnum[..], lp);
    Unrepeat(d, k, pnum[..], lp);
    pnum[lp] := pnum[lp] - 1;
  }

  lemma OneIsLive(d: seq<uint16>, pn: seq<uint16>)
    requires 1 <= |d| <= MAX_PKT_BURST && |pn| == MAX_PKT_BURST + 1 && pn[0] == 1
    ensures Live(d, 1, pn, 0)
  {}

  // The first block: its destinations are loaded and its first counter started.
  method FirstBlock(pkts: seq<Mbuf>, dst: array<uint16>, pnum: array<uint16>, valEth: seq<Xmm>,
                    ghost fr: seq<Frame>, ghost d: seq<uint16>)
    returns (lp: nat, dp1: Vec)
    requires Burst(pkts) && FWDSTEP <= |pkts| <= MAX_PKT_BURST
    requires Progress(pkts, dst, fr, 0) && Ports(d, fr) && AllRight(fr, valEth)
    requires dst.Length == MAX_PKT_BURST + 2 * FWDSTEP && pnum.Length == MAX_PKT_BURST + 1 && dst != pnum
    modifies Buffers(pkts), dst, pnum
    ensures Progress(pkts, dst, fr, FWDSTEP)
    ensures BlockState(d, FWDSTEP, pnum[..], lp, dp1)
  {
    lp := 0;
    pnum[lp] := 1;
    OneIsLive(d, pnum[..]);
    Processx4Step3(pkts, dst, 0, valEth, fr);
    FinalSoFar(pkts, dst, fr, FWDSTEP);
    // the lower half has the destinations of the first block
    dp1 := LoadPorts(dst, 0, d, FWDSTEP);
  }

  // The blocks after the first.
  method BlockLoop(pkts: seq<Mbuf>, dst: array<uint16>, pnum: array<uint16>, valEth: seq<Xmm>,
                   k: nat, ghost blocks: nat, lp0: nat, dp0: Vec, ghost fr: seq<Frame>, ghost d: seq<uint16>)
    returns (lp: nat, dp1: Vec)
    requires Burst(pkts) && k <= |pkts| <= MAX_PKT_BURST && k == 4 * blocks && 0 < blocks
    requires Progress(pkts, dst, fr, FWDSTEP) && Ports(d, fr) && AllRight(fr, valEth)
    requires dst.Length == MAX_PKT_BURST + 2 * FWDSTEP && pnum.Length == MAX_PKT_BURST + 1 && dst != pnum
    requires BlockState(d, FWDSTEP, pnum[..], lp0, dp0)
    modifies Buffers(pkts), dst, pnum
    ensures Progress(pkts, dst, fr, k)
    ensures BlockState(d, k, pnum[..], lp, dp1)
  {
    lp, dp1 := lp0, dp0;
    var j := FWDSTEP;
    ghost var left := blocks - 1;
    while j != k
      invariant 0 <= left && j + 4 * left == k && FWDSTEP <= j
      invariant Progress(pkts, dst, fr, j)
      invariant BlockState(d, j, pnum[..], lp, dp1)
      decreases left
    {
      j, lp, dp1 := NextBlock(pkts, dst, pnum, valEth, j, lp, dp1, fr, d);
      left := left - 1;
    }
  }

  // The blocks of four: after them the first k packets are finished and grouped.
  method GroupBlocks(pkts: seq<Mbuf>, dst: array<uint16>, pnum: array<uint16>, valEth: seq<Xmm>,
                     k: nat, ghost blocks: nat, ghost fr: seq<Frame>, ghost d: seq<uint16>)
    returns (lp: nat, dlp: uint16)
    requires Burst(pkts) && k <= |pkts| <= MAX_PKT_BURST && k == 4 * blocks && 0 < blocks
    requires Progress(pkts, dst, fr, 0) && Ports(d, fr) && AllRight(fr, valEth)
    requires dst.Length == MAX_PKT_BURST + 2 * FWDSTEP && pnum.Length == MAX_PKT_BURST + 1 && dst != pnum
    modifies Buffers(pkts), dst, pnum
    ensures Progress(pkts, dst, fr, k)
    ensures Tail(d, k, pnum[..], lp, dlp)
  {
    var dp1;
    lp, dp1 := FirstBlock(pkts, dst, pnum, valEth, fr, d);
    lp, dp1 := BlockLoop(pkts, dst, pnum, valEth, k, blocks, lp, dp1, fr, d);
    lp := LastBlock(pnum, k, lp, dp1, d);
    FinalSoFar(pkts, dst, fr, k);
    dlp := dst[k - 1];
  }

  // The last one to three packets.
  method GroupTail(pkts: seq<Mbuf>, dst: array<uint16>, pnum: array<uint16>, valEth: seq<Xmm>,
                   j0: nat, rest: nat, lp0: nat, dlp0: uint16, ghost fr: seq<Frame>, ghost d: seq<uint16>)
    requires Ports(d, fr) && AllRight(fr, valEth)
    requires Burst(pkts) && j0 + rest == |pkts| <= MAX_PKT_BURST && rest < FWDSTEP
    requires Progress(pkts, dst, fr, j0)
    requires pnum.Length == MAX_PKT_BURST + 1 && dst != pnum
    requires Tail(d, j0, pnum[..], lp0, dlp0)
    modifies Buffers(pkts), dst, pnum
    ensures Progress(pkts, dst, fr, |pkts|)
    ensures Counted(d, |pkts|, pnum[..])
  {
    var j, lp, dlp := j0, lp0, dlp0;
    if rest == 3 {
      j, lp, dlp := TailStep(pkts, dst, pnum, valEth, j, lp, dlp, fr, d);
    }
    if rest >= 2 {
      j, lp, dlp := TailStep(pkts, dst, pnum, valEth, j, lp, dlp, fr, d);
    }
    if rest >= 1 {
      j, lp, dlp := TailStep(pkts, dst, pnum, valEth, j, lp, dlp, fr, d);
    }
  }

  // The first half of send_packets_multi. Grouping is exact: every packet is finished and
  // at every run head of the final destinations pnum has the length of the maximal run.
  method FinishAndGroup(pkts: seq<Mbuf>, dst: array<uint16>, pnum: array<uint16>, valEth: seq<Xmm>,
                        ghost fr: seq<Frame>, ghost d: seq<uint16>)
    requires Burst(pkts) && |pkts| <= MAX_PKT_BURST
    requires Progress(pkts, dst, fr, 0) && Ports(d, fr) && AllRight(fr, valEth)
    requires dst.Length == MAX_PKT_BURST + 2 * FWDSTEP && pnum.Length == MAX_PKT_BURST + 1 && dst != pnum
    modifies Buffers(pkts), dst, pnum
    ensures Progress(pkts, dst, fr, |pkts|)
    ensures dst[..|pkts|] == d
    ensures Counted(d, |pkts|, pnum[..])
  {
    var nbRx := |pkts|;
    var j, lp, dlp := 0, MAX_PKT_BURST, NEVER_USED;
    var k := nbRx - nbRx % FWDSTEP;
    if k != 0 {
      lp, dlp := GroupBlocks(pkts, dst, pnum, valEth, k, nbRx / FWDSTEP, fr, d);
      j := k;
    }
    GroupTail(pkts, dst, pnum, valEth, j, nbRx % FWDSTEP, lp, dlp, fr, d);
    FinalSoFar(pkts, dst, fr, nbRx);
  }
}
