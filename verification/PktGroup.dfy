// common/pkt_group.h and common/sse/port_group.h: grouping consecutive equal
// destinations, one element or four elements at a time.
module PktGroup {
  import opened Words
  import opened Sse

  // ---------------------------------------------------------------- runs

  // h starts a run of equal values in d.
  predicate IsHead(d: seq<uint16>, h: int) {
    0 <= h < |d| && (h == 0 || d[h - 1] != d[h])
  }

  // Among the first n values of d, the run that starts at h has exactly c members.
  ghost predicate IsRun(d: seq<uint16>, n: int, h: int, c: int) {
    && 0 <= h < h + c <= n <= |d|
    && (forall i :: h <= i < h + c ==> d[i] == d[h])
    && (h + c < n ==> d[h + c] != d[h])
  }

  // Every run head of the first n values of d has its run length in pn.
  // The other slots of pn mean nothing.
  ghost predicate Counted(d: seq<uint16>, n: nat, pn: seq<uint16>) {
    && n <= |d| && n <= |pn|
    && forall h {:trigger IsRun(d, n, h, pn[h])} :: 0 <= h < n && IsHead(d, h) ==> IsRun(d, n, h, pn[h])
  }

  // Counted, and lp is the head of the last, still growing, run.
  ghost predicate Live(d: seq<uint16>, n: nat, pn: seq<uint16>, lp: nat) {
    && Counted(d, n, pn)
    && lp < n && IsHead(d, lp) && lp + pn[lp] == n
  }

  // ---------------------------------------------------------------- scalar form

  // Addition on a uint16_t lvalue.
  function Add16(x: uint16, y: int): uint16 {
    var s: int := x + y;
    s % 0x1_0000
  }

  // GROUP_PORT_STEP on values: slots, live pointer and its destination.
  datatype Group = Group(pn: seq<uint16>, lp: nat, dlp: uint16)

  function GroupPortStep(g: Group, dcp: seq<uint16>, idx: nat): (r: Group)
    requires idx < |dcp| && idx < |g.pn| && g.lp < |g.pn|
    ensures |r.pn| == |g.pn| && r.lp < |r.pn|
  {
    if g.dlp == dcp[idx] then
      g.(pn := g.pn[g.lp := Add16(g.pn[g.lp], 1)])
    else
      Group(g.pn[idx := 1], idx, dcp[idx])
  }

  // One scalar step keeps Live.
  lemma LiveStep(d: seq<uint16>, n: nat, g: Group)
    requires Live(d, n, g.pn, g.lp) && g.dlp == d[n - 1]
    requires n < |d| && n < |g.pn| && n < 0xFFFF
    ensures var r := GroupPortStep(g, d, n); Live(d, n + 1, r.pn, r.lp) && r.dlp == d[n]
  {
    var r := GroupPortStep(g, d, n);
    assert IsRun(d, n, g.lp, g.pn[g.lp]);
    forall h | 0 <= h < n + 1 && IsHead(d, h)
      ensures IsRun(d, n + 1, h, r.pn[h])
    {
      if h < n {
        assert IsRun(d, n, h, g.pn[h]);
      }
    }
  }

  // ---------------------------------------------------------------- gptbl

  datatype GptblEntry = GptblEntry(pnum: uint64, idx: nat, lpv: uint16)

  const GRPMSK: nat := 15

  // Bit i of the index says that element i equals element i + 1.
  function Gptbl(v: nat): GptblEntry
    requires v <= GRPMSK
  {
    match v
    case 0 => GptblEntry(0x0001000100010001, 4, 0)
    case 1 => GptblEntry(0x0001000100010002, 4, 1)
    case 2 => GptblEntry(0x0001000100020001, 4, 0)
    case 3 => GptblEntry(0x0001000100020003, 4, 2)
    case 4 => GptblEntry(0x0001000200010001, 4, 0)
    case 5 => GptblEntry(0x0001000200010002, 4, 1)
    case 6 => GptblEntry(0x0001000200030001, 4, 0)
    case 7 => GptblEntry(0x0001000200030004, 4, 3)
    case 8 => GptblEntry(0x0002000100010001, 3, 0)
    case 9 => GptblEntry(0x0002000100010002, 3, 1)
    case 10 => GptblEntry(0x0002000100020001, 3, 0)
    case 11 => GptblEntry(0x0002000100020003, 3, 2)
    case 12 => GptblEntry(0x0002000300010001, 2, 0)
    case 13 => GptblEntry(0x0002000300010002, 2, 1)
    case 14 => GptblEntry(0x0002000300040001, 1, 0)
    case _ => GptblEntry(0x0002000300040005, 0, 4)
  }

  // Lane i of a 64-bit store on a little-endian machine.
  function Lane(x: uint64, i: nat): uint16
    requires i < 4
  {
    match i
    case 0 => x % 0x1_0000
    case 1 => x / 0x1_0000 % 0x1_0000
    case 2 => x / 0x1_0000_0000 % 0x1_0000
    case _ => x / 0x1_0000_0000_0000
  }

  function B(b: bool): nat { if b then 1 else 0 }

  // What the sixteen entries mean: the addition to the live counter is the number of
  // leading equalities, slot i gets one more than the equalities that start at i, and
  // the live pointer moves to the first element of the block's last run.
  lemma GptblMeaning(e0: bool, e1: bool, e2: bool, e3: bool)
    ensures var t := Gptbl(B(e0) + 2 * B(e1) + 4 * B(e2) + 8 * B(e3));
            var q3 := B(e3);
            var q2 := if e2 then 1 + q3 else 0;
            var q1 := if e1 then 1 + q2 else 0;
            var q0 := if e0 then 1 + q1 else 0;
            && t.lpv == q0
            && Lane(t.pnum, 0) == 1 + q0 && Lane(t.pnum, 1) == 1 + q1
            && Lane(t.pnum, 2) == 1 + q2 && Lane(t.pnum, 3) == 1 + q3
            && t.idx == if !e3 then 4 else if !e2 then 3 else if !e1 then 2 else if !e0 then 1 else 0
  {
    var v := B(e0) + 2 * B(e1) + 4 * B(e2) + 8 * B(e3);
    match v
    case 0 => case 1 => case 2 => case 3 => case 4 => case 5 => case 6 => case 7 =>
    case 8 => case 9 => case 10 => case 11 => case 12 => case 13 => case 14 => case _ =>
  }

  // ---------------------------------------------------------------- four at a time

  // The comparison mask of a block: which of its elements equal their successor.
  function Mask(dp1: Vec, dp2: Vec): nat {
    var eq := CmpEq16(dp1, dp2);
    MoveMaskPs(UnpackLo16(eq, eq))
  }

  // The low four lanes of v are the elements of d from b on.
  ghost predicate Lanes(v: Vec, d: seq<uint16>, b: nat) {
    b + 4 <= |d| && forall i :: 0 <= i < 4 ==> v[i] == d[b + i]
  }

  lemma MaskBits(d: seq<uint16>, b: nat, dp1: Vec, dp2: Vec)
    requires Lanes(dp1, d, b) && Lanes(dp2, d, b + 1)
    ensures Mask(dp1, dp2) == B(d[b] == d[b + 1]) + 2 * B(d[b + 1] == d[b + 2])
                              + 4 * B(d[b + 2] == d[b + 3]) + 8 * B(d[b + 3] == d[b + 4])
  {
    var eq := CmpEq16(dp1, dp2);
    forall i | 0 <= i < 4
      ensures SignBit(eq[i]) == B(d[b + i] == d[b + i + 1])
    {
      assert dp1[i] == d[b + i] && dp2[i] == d[b + 1 + i];
    }
    assert d[b + 0] == d[b] && d[b + 0 + 1] == d[b + 1];
  }

  // The run of block element i, c elements long, seen from the whole array.
  ghost predicate BlockRun(d: seq<uint16>, b: nat, i: nat, c: nat) {
    && b + i + c <= b + 5 <= |d| && 1 <= c
    && (forall k :: b + i <= k < b + i + c ==> d[k] == d[b + i])
    && (i + c < 5 ==> d[b + i + c] != d[b + i])
  }

  // The overlapping writes never damage a counter that matters. p1 is pn after the live
  // counter has grown by the block's leading equalities; q is p1, or p1 with the five
  // slots from b on overwritten. Either way four more elements are counted and the live
  // pointer is the head of the last run.
  lemma LiveBlock(d: seq<uint16>, b: nat, pn: seq<uint16>, lp: nat, p1: seq<uint16>,
                  c: seq<nat>, q: seq<uint16>, lq: nat)
    requires b + 5 <= |d| && b + 5 <= |pn| && b + 5 <= 0xFFFF
    requires Live(d, b + 1, pn, lp)
    requires |c| == 5 && forall i :: 0 <= i < 5 ==> BlockRun(d, b, i, c[i])
    requires p1 == pn[lp := Add16(pn[lp], c[0] as int - 1)]
    requires if c[0] == 5 then q == p1 && lq == lp
             else && |q| == |p1| && q[..b] == p1[..b]
                  && (forall i :: 0 <= i < 5 ==> q[b + i] == c[i])
                  && b <= lq < b + 5 && lq + c[lq - b] == b + 5 && IsHead(d, lq)
    ensures Live(d, b + 5, q, lq)
  {
    assert IsRun(d, b + 1, lp, pn[lp]);
    assert BlockRun(d, b, 0, c[0]);
    forall h | 0 <= h < b + 5 && IsHead(d, h)
      ensures IsRun(d, b + 5, h, q[h])
    {
      if h <= b {
        assert IsRun(d, b + 1, h, pn[h]);
        if h == b {
          assert lp == b;
        } else {
          assert c[0] != 5 ==> q[h] == q[..b][h] == p1[h];
        }
      } else {
        assert c[0] != 5;
        assert BlockRun(d, b, h - b, c[h - b]);
        assert q[b + (h - b)] == c[h - b];
      }
    }
  }

  // The lengths, within the block at b, of the runs that start at its five elements.
  lemma BlockRuns(d: seq<uint16>, b: nat) returns (c: seq<nat>)
    requires b + 5 <= |d|
    ensures |c| == 5 && c[4] == 1
    ensures c[3] == 1 + B(d[b + 3] == d[b + 4])
    ensures c[2] == if d[b + 2] == d[b + 3] then 1 + c[3] else 1
    ensures c[1] == if d[b + 1] == d[b + 2] then 1 + c[2] else 1
    ensures c[0] == if d[b] == d[b + 1] then 1 + c[1] else 1
    ensures forall i :: 0 <= i < 5 ==> BlockRun(d, b, i, c[i])
  {
    var c3 := 1 + B(d[b + 3] == d[b + 4]);
    var c2 := if d[b + 2] == d[b + 3] then 1 + c3 else 1;
    var c1 := if d[b + 1] == d[b + 2] then 1 + c2 else 1;
    var c0 := if d[b] == d[b + 1] then 1 + c1 else 1;
    c := [c0, c1, c2, c3, 1];
    assert BlockRun(d, b, 4, 1);
    assert BlockRun(d, b, 3, c3);
    assert BlockRun(d, b, 2, c2);
    assert BlockRun(d, b, 1, c1);
    assert BlockRun(d, b, 0, c0);
  }

  // A table entry says what the block's five runs say.
  ghost predicate Describes(t: GptblEntry, c: seq<nat>) {
    && |c| == 5
    && t.lpv + 1 == c[0]
    && (forall i :: 0 <= i < 4 ==> Lane(t.pnum, i) == c[i])
    && t.idx <= 4 && t.idx + c[t.idx] == 5
  }

  // The stores of port_groupx4 with entry t; full says the mask is GRPMSK.
  method ApplyEntry(pnum: array<uint16>, pn: nat, lp0: nat, t: GptblEntry, full: bool,
                    ghost d: seq<uint16>, ghost c: seq<nat>)
    returns (lp: nat)
    requires pn + 5 <= pnum.Length <= 0xFFFF && pn + 5 <= |d|
    requires Describes(t, c) && c[4] == 1 && full == (c[0] == 5)
    requires forall i :: 0 <= i < 5 ==> BlockRun(d, pn, i, c[i])
    requires !full ==> IsHead(d, pn + t.idx)
    requires Live(d, pn + 1, pnum[..], lp0)
    modifies pnum
    ensures Live(d, pn + 5, pnum[..], lp)
    ensures forall i :: 0 <= i < pnum.Length && i != lp0 && !(pn <= i < pn + 5)
                        ==> pnum[i] == old(pnum[i])
  {
    lp := lp0;
    pnum[lp] := Add16(pnum[lp], t.lpv);
    ghost var p1 := pnum[..];
    if !full {
      pnum[pn], pnum[pn + 1], pnum[pn + 2], pnum[pn + 3] :=
        Lane(t.pnum, 0), Lane(t.pnum, 1), Lane(t.pnum, 2), Lane(t.pnum, 3);
      pnum[pn + FWDSTEP] := 1;
      lp := pn + t.idx;
    }
    LiveBlock(d, pn, old(pnum[..]), lp0, p1, c, pnum[..], lp);
  }

  // port_groupx4: pn is the block's offset in pnum; pointers are slot numbers.
  method PortGroupx4(pnum: array<uint16>, pn: nat, lp0: nat, dp1: Vec, dp2: Vec,
                     ghost d: seq<uint16>)
    returns (lp: nat)
    requires pn + 5 <= pnum.Length <= 0xFFFF
    requires Lanes(dp1, d, pn) && Lanes(dp2, d, pn + 1)
    requires Live(d, pn + 1, pnum[..], lp0)
    modifies pnum
    ensures Live(d, pn + 5, pnum[..], lp)
    ensures forall i :: 0 <= i < pnum.Length && i != lp0 && !(pn <= i < pn + 5)
                        ==> pnum[i] == old(pnum[i])
  {
    var v := Mask(dp1, dp2);
    MaskBits(d, pn, dp1, dp2);
    ghost var c := EntryDescribes(d, pn, v);
    lp := ApplyEntry(pnum, pn, lp0, Gptbl(v), v == GRPMSK, d, c);
  }

  lemma EntryDescribes(d: seq<uint16>, b: nat, v: nat) returns (c: seq<nat>)
    requires b + 5 <= |d|
    requires v == B(d[b] == d[b + 1]) + 2 * B(d[b + 1] == d[b + 2])
                  + 4 * B(d[b + 2] == d[b + 3]) + 8 * B(d[b + 3] == d[b + 4])
    ensures |c| == 5 && c[4] == 1 && forall i :: 0 <= i < 5 ==> BlockRun(d, b, i, c[i])
    ensures v <= GRPMSK && Describes(Gptbl(v), c) && (v == GRPMSK <==> c[0] == 5)
    ensures v != GRPMSK ==> IsHead(d, b + Gptbl(v).idx)
  {
    c := BlockRuns(d, b);
    GptblMeaning(d[b] == d[b + 1], d[b + 1] == d[b + 2], d[b + 2] == d[b + 3], d[b + 3] == d[b + 4]);
  }

  // Live looks at the first n values only.
  lemma LivePrefix(d: seq<uint16>, d': seq<uint16>, n: nat, pn: seq<uint16>, lp: nat)
    requires Live(d, n, pn, lp) && n <= |d'| && d[..n] == d'[..n]
    ensures Live(d', n, pn, lp)
  {
    assert forall i :: 0 <= i < n ==> d[i] == d[..n][i] == d'[i];
    forall h | 0 <= h < n && IsHead(d', h)
      ensures IsRun(d', n, h, pn[h])
    {
      assert IsHead(d, h) && IsRun(d, n, h, pn[h]);
    }
  }

  // Taking back what the repeated last destination added to the live counter.
  lemma Unrepeat(d: seq<uint16>, n: nat, pn: seq<uint16>, lp: nat)
    requires 1 <= n <= |d|
    requires var r := d[..n] + [d[n - 1]]; Live(r, n + 1, pn, lp) && lp < n
    ensures pn[lp] >= 1 && Live(d, n, pn[lp := pn[lp] - 1], lp)
  {
    var r := d[..n] + [d[n - 1]];
    var q := pn[lp := pn[lp] - 1];
    assert forall i :: 0 <= i < n ==> r[i] == d[i];
    forall h | 0 <= h < n && IsHead(d, h)
      ensures IsRun(d, n, h, q[h])
    {
      assert IsHead(r, h) && IsRun(r, n + 1, h, pn[h]) && IsRun(r, n + 1, lp, pn[lp]);
      if h < lp {
        assert r[lp - 1] != r[lp];
      }
    }
  }

  // The last run of a sequence whose last value is repeated starts before the repetition.
  lemma RepeatedHead(d: seq<uint16>, n: nat, pn: seq<uint16>, lp: nat)
    requires 1 <= n <= |d|
    requires Live(d[..n] + [d[n - 1]], n + 1, pn, lp)
    ensures lp < n
  {}

  // The values the scalar form starts from when no block came before it.
  const NEVER_USED: uint16 := BAD_PORT - 1

  // GROUP_PORT_STEP on the arrays: the destination, its counter's slot and the slots.
  method GroupPortStepAt(dlp0: uint16, dcp: array<uint16>, lp0: nat, pn: array<uint16>, idx: nat)
    returns (dlp: uint16, lp: nat)
    requires dcp != pn && idx < dcp.Length && idx < pn.Length && lp0 < pn.Length
    modifies pn
    ensures Group(pn[..], lp, dlp) == GroupPortStep(Group(old(pn[..]), lp0, dlp0), dcp[..], idx)
  {
    dlp, lp := dlp0, lp0;
    if dlp == dcp[idx] {
      pn[lp] := Add16(pn[lp], 1);
    } else {
      dlp := dcp[idx];
      lp := idx;
      pn[lp] := 1;
    }
  }

  // ---------------------------------------------------------------- scalar reference

  // The scalar form alone, folded over the first n destinations of a burst, on slots that
  // start with whatever pn0 holds.
  function ScalarGroup(d: seq<uint16>, n: nat, pn0: seq<uint16>): (r: Group)
    requires n <= |d| && n <= MAX_PKT_BURST && |pn0| == MAX_PKT_BURST + 1
    ensures |r.pn| == |pn0| && r.lp < |r.pn|
  {
    if n == 0 then Group(pn0, MAX_PKT_BURST, NEVER_USED)
    else GroupPortStep(ScalarGroup(d, n - 1, pn0), d, n - 1)
  }

  lemma {:induction false} ScalarLive(d: seq<uint16>, n: nat, pn0: seq<uint16>)
    requires 1 <= n <= |d| && n <= MAX_PKT_BURST && |pn0| == MAX_PKT_BURST + 1
    requires d[0] != NEVER_USED
    ensures var g := ScalarGroup(d, n, pn0); Live(d, n, g.pn, g.lp) && g.dlp == d[n - 1]
  {
    if n == 1 {
      var g := ScalarGroup(d, 1, pn0);
      assert ScalarGroup(d, 0, pn0) == Group(pn0, MAX_PKT_BURST, NEVER_USED);
      assert IsRun(d, 1, 0, g.pn[0]);
    } else {
      ScalarLive(d, n - 1, pn0);
      LiveStep(d, n - 1, ScalarGroup(d, n - 1, pn0));
    }
  }

  // The four-at-a-time form refines the scalar one: at every run head, any slots with
  // Counted agree with the scalar fold.
  lemma AgreesWithScalar(d: seq<uint16>, n: nat, pn: seq<uint16>, pn0: seq<uint16>, h: nat)
    requires n <= |d| && n <= MAX_PKT_BURST && |pn0| == MAX_PKT_BURST + 1
    requires Counted(d, n, pn) && h < n && IsHead(d, h) && d[0] != NEVER_USED
    ensures pn[h] == ScalarGroup(d, n, pn0).pn[h]
  {
    ScalarLive(d, n, pn0);
    var q := ScalarGroup(d, n, pn0).pn;
    assert IsRun(d, n, h, pn[h]) && IsRun(d, n, h, q[h]);
  }

  // While no destination has moved the pointer, slot 0 keeps what it held.
  lemma {:induction false} ReservedSkipsSlot0(d: seq<uint16>, n: nat, pn0: seq<uint16>)
    requires n <= |d| && n <= MAX_PKT_BURST && |pn0| == MAX_PKT_BURST + 1
    requires |d| > 0 && d[0] == NEVER_USED
    ensures var g := ScalarGroup(d, n, pn0);
            g.lp != 0 && g.pn[0] == pn0[0] && (n <= 1 ==> g.dlp == NEVER_USED)
  {
    if n == 0 {
    } else {
      ReservedSkipsSlot0(d, n - 1, pn0);
    }
  }

  // The scalar form groups d correctly on slots that start as pn0.
  ghost predicate ScalarRight(d: seq<uint16>, pn0: seq<uint16>)
    requires |d| <= MAX_PKT_BURST && |pn0| == MAX_PKT_BURST + 1
  {
    Counted(d, |d|, ScalarGroup(d, |d|, pn0).pn)
  }

  lemma Zeroes() returns (pn0: seq<uint16>)
    ensures |pn0| == MAX_PKT_BURST + 1 && pn0[0] == 0
  {
    pn0 := seq(MAX_PKT_BURST + 1, _ => 0);
  }

  lemma ReservedFails(d: seq<uint16>, pn0: seq<uint16>)
    requires 0 < |d| <= MAX_PKT_BURST && |pn0| == MAX_PKT_BURST + 1
    requires d[0] == NEVER_USED && pn0[0] == 0
    ensures !ScalarRight(d, pn0)
  {
    ReservedSkipsSlot0(d, |d|, pn0);
    var pn := ScalarGroup(d, |d|, pn0).pn;
    assert IsHead(d, 0) && !IsRun(d, |d|, 0, pn[0]);
  }

  // Without a block before it the scalar form is right, whatever the slots held, exactly
  // when the first destination is not the reserved value BAD_PORT - 1.
  lemma ReservedExactly(d: seq<uint16>)
    requires 0 < |d| <= MAX_PKT_BURST
    ensures (forall pn0: seq<uint16> :: |pn0| == MAX_PKT_BURST + 1 ==> ScalarRight(d, pn0))
            <==> d[0] != 0xFFFE
  {
    if d[0] == NEVER_USED {
      var zeroes := Zeroes();
      ReservedFails(d, zeroes);
    } else {
      forall pn0: seq<uint16> | |pn0| == MAX_PKT_BURST + 1
        ensures ScalarRight(d, pn0)
      {
        ScalarLive(d, |d|, pn0);
      }
    }
  }

  // ---------------------------------------------------------------- the walk

  // The run heads below n, in order.
  function RunHeads(d: seq<uint16>, n: nat): seq<nat>
    requires n <= |d|
  {
    if n == 0 then []
    else RunHeads(d, n - 1) + if IsHead(d, n - 1) then [n - 1] else []
  }

  // Where the group that starts at the i-th head ends.
  function GroupEnd(r: seq<nat>, i: nat, n: nat): nat
    requires i < |r|
  {
    if i + 1 < |r| then r[i + 1] else n
  }

  // They are exactly the run heads, in increasing order.
  lemma {:induction false} RunHeadsExact(d: seq<uint16>, n: nat)
    requires n <= |d|
    ensures var r := RunHeads(d, n);
            && (forall h :: h in r <==> 0 <= h < n && IsHead(d, h))
            && (forall i, j :: 0 <= i < j < |r| ==> r[i] < r[j])
            && (0 < n ==> |r| > 0 && r[0] == 0)
  {
    if n == 0 {
    } else {
      var q := RunHeads(d, n - 1);
      RunHeadsExact(d, n - 1);
      forall i | 0 <= i < |q|
        ensures q[i] < n - 1
      {
        assert q[i] in q;
      }
    }
  }

  // Between two heads, and after the last, lies a run: the groups tile the burst.
  lemma {:induction false} RunHeadsTile(d: seq<uint16>, n: nat, i: nat)
    requires n <= |d| && i < |RunHeads(d, n)|
    ensures var r := RunHeads(d, n); IsRun(d, n, r[i], GroupEnd(r, i, n) - r[i])
  {
    if n == 0 {
    } else {
      var q := RunHeads(d, n - 1);
      RunHeadsExact(d, n - 1);
      if i < |q| {
        RunHeadsTile(d, n - 1, i);
        assert i + 1 == |q| ==> d[n - 2] == d[q[i]];
      }
    }
  }

  // A run has no head inside it.
  lemma {:induction false} RunHeadsStep(d: seq<uint16>, h: nat, c: nat)
    requires IsHead(d, h) && 1 <= c && h + c <= |d|
    requires forall i :: h <= i < h + c ==> d[i] == d[h]
    ensures RunHeads(d, h + c) == RunHeads(d, h) + [h]
  {
    if c <= 1 {
    } else {
      RunHeadsStep(d, h, c - 1);
      assert !IsHead(d, h + c - 1);
    }
  }
}
