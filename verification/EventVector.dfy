// l3fwd/l3fwd_event.h: compacting an event vector and labelling it with its destination;
// l3fwd/l3fwd_sse.h: the chunked test for a common destination.
module EventVector {
  import opened Words
  import opened Sse
  import opened Headers

  // The packets among the first n that are not to be freed, in order, and their destinations.
  function Kept<T>(ms: seq<T>, d: seq<uint16>, n: nat): (r: (seq<T>, seq<uint16>))
    requires n <= |ms| == |d|
    ensures |r.0| == |r.1| <= n
  {
    if n == 0 then ([], [])
    else
      var k := Kept(ms, d, n - 1);
      if d[n - 1] == BAD_PORT then k else (k.0 + [ms[n - 1]], k.1 + [d[n - 1]])
  }

  // The packets to be freed, in order.
  function Freed<T>(ms: seq<T>, d: seq<uint16>, n: nat): (r: seq<T>)
    requires n <= |ms| == |d|
    ensures |r| <= n
  {
    if n == 0 then []
    else if d[n - 1] == BAD_PORT then Freed(ms, d, n - 1) + [ms[n - 1]]
    else Freed(ms, d, n - 1)
  }

  // Nothing is lost or duplicated.
  lemma {:induction false} KeptOrFreed<T>(ms: seq<T>, d: seq<uint16>, n: nat)
    requires n <= |ms| == |d|
    ensures multiset(ms[..n]) == multiset(Kept(ms, d, n).0) + multiset(Freed(ms, d, n))
  {
    if n == 0 {
    } else {
      var m, k, f := ms[n - 1], Kept(ms, d, n - 1).0, Freed(ms, d, n - 1);
      KeptOrFreed(ms, d, n - 1);
      OneLonger(ms, n - 1);
      OneMore(ms[..n - 1], k, f, m);
      if d[n - 1] == BAD_PORT {
        assert Kept(ms, d, n).0 == k && Freed(ms, d, n) == f + [m];
      } else {
        assert Kept(ms, d, n).0 == k + [m] && Freed(ms, d, n) == f;
      }
    }
  }

  // What is kept has a destination, and the two parts make up the whole.
  lemma {:induction false} KeptHasPort<T>(ms: seq<T>, d: seq<uint16>, n: nat)
    requires n <= |ms| == |d|
    ensures BAD_PORT !in Kept(ms, d, n).1
    ensures |Kept(ms, d, n).0| + |Freed(ms, d, n)| == n
  {
    if n == 0 {
    } else {
      KeptHasPort(ms, d, n - 1);
    }
  }

  lemma OneMore<T>(ms: seq<T>, k: seq<T>, f: seq<T>, m: T)
    requires multiset(ms) == multiset(k) + multiset(f)
    ensures multiset(ms + [m]) == multiset(k + [m]) + multiset(f)
    ensures multiset(ms + [m]) == multiset(k) + multiset(f + [m])
  {}

  // Kept packets come from the vector and stay distinct.
  lemma {:induction false} KeptDistinct<T>(ms: seq<T>, d: seq<uint16>, n: nat)
    requires n <= |ms| == |d| && forall i, j :: 0 <= i < j < |ms| ==> ms[i] != ms[j]
    ensures forall m :: m in Kept(ms, d, n).0 ==> m in ms[..n]
    ensures forall i, j :: 0 <= i < j < |Kept(ms, d, n).0| ==> Kept(ms, d, n).0[i] != Kept(ms, d, n).0[j]
  {
    if n == 0 {
    } else {
      KeptDistinct(ms, d, n - 1);
      assert ms[..n] == ms[..n - 1] + [ms[n - 1]];
      var k := Kept(ms, d, n - 1).0;
      forall i | 0 <= i < |k|
        ensures k[i] != ms[n - 1]
      {
        assert k[i] in k && k[i] in ms[..n - 1];
        var j :| 0 <= j < n - 1 && ms[..n - 1][j] == k[i];
        assert ms[j] == k[i];
      }
    }
  }

  // Slot by slot: the first slots hold what is kept of the first i pairs, the slots from i
  // on are as they were.
  ghost predicate Compacted<T>(now: seq<T>, was: seq<T>, kept: seq<T>, i: nat) {
    && i <= |now| == |was| && |kept| <= i
    && now[..|kept|] == kept
    && now[i..] == was[i..]
  }

  // Skipping slot i, or moving it down to the end of what is kept.
  lemma CompactedOn<T>(now: seq<T>, was: seq<T>, kept: seq<T>, i: nat, pos: nat)
    requires Compacted(now, was, kept, i) && i < |now| && pos == |kept|
    ensures now[i] == was[i]
    ensures Compacted(now, was, kept, i + 1)
    ensures Compacted(now[pos := was[i]], was, kept + [was[i]], i + 1)
  {
    assert now[i] == now[i..][0] && was[i] == was[i..][0];
    assert now[i + 1..] == now[i..][1..] && was[i + 1..] == was[i..][1..];
  }

  // The two moves of one kept packet.
  method MoveDown(mbufs: array<Mbuf>, dstPort: array<uint16>, i: nat, pos: nat, n: nat)
    requires pos < i < n <= mbufs.Length && n <= dstPort.Length
    modifies mbufs, dstPort
    ensures mbufs[..n] == old(mbufs[..n])[pos := old(mbufs[i])]
    ensures dstPort[..n] == old(dstPort[..n])[pos := old(dstPort[i])]
  {
    mbufs[pos] := mbufs[i];
    dstPort[pos] := dstPort[i];
  }

  // filter_bad_packets: in place, the stable filter; pos and des_pos move together.
  method FilterBadPackets(mbufs: array<Mbuf>, dstPort: array<uint16>, nbPkts: nat)
    returns (n: nat, ghost freed: seq<Mbuf>)
    requires nbPkts <= mbufs.Length && nbPkts <= dstPort.Length
    modifies mbufs, dstPort
    ensures n <= nbPkts
    ensures (mbufs[..n], dstPort[..n]) == Kept(old(mbufs[..nbPkts]), old(dstPort[..nbPkts]), nbPkts)
    ensures freed == Freed(old(mbufs[..nbPkts]), old(dstPort[..nbPkts]), nbPkts)
    ensures n == 0 < nbPkts ==> dstPort[0] == BAD_PORT
  {
    ghost var ms, d := mbufs[..nbPkts], dstPort[..nbPkts];
    var free, pos := 0, 0;
    freed := [];
    for i := 0 to nbPkts
      invariant free <= i && (free > 0 ==> pos == i - free)
      invariant |Kept(ms, d, i).0| == i - free
      invariant Compacted(mbufs[..nbPkts], ms, Kept(ms, d, i).0, i)
      invariant Compacted(dstPort[..nbPkts], d, Kept(ms, d, i).1, i)
      invariant freed == Freed(ms, d, i)
      invariant i - free == 0 < i ==> dstPort[0] == BAD_PORT
    {
      ghost var now, nowD := mbufs[..nbPkts], dstPort[..nbPkts];
      CompactedOn(now, ms, Kept(ms, d, i).0, i, i - free);
      CompactedOn(nowD, d, Kept(ms, d, i).1, i, i - free);
      assert mbufs[i] == now[i] && dstPort[i] == nowD[i];
      if dstPort[i] == BAD_PORT {
        freed := freed + [mbufs[i]];
        if free == 0 {
          pos := i;
        }
        free := free + 1;
        continue;
      }
      if free > 0 {
        MoveDown(mbufs, dstPort, i, pos, nbPkts);
        pos := pos + 1;
      } else {
        assert now[i := now[i]] == now && nowD[i := nowD[i]] == nowD;
      }
    }
    n := nbPkts - free;
    assert mbufs[..n] == mbufs[..nbPkts][..n] && dstPort[..n] == dstPort[..nbPkts][..n];
  }

  // ---------------------------------------------------------------- common destination

  // The first n elements are equal.
  ghost predicate Same(d: seq<uint16>, n: nat)
    requires 1 <= |d| && n <= |d|
  {
    forall i :: 0 <= i < n ==> d[i] == d[0]
  }

  // The common value, or BAD_PORT.
  ghost function CommonPort(d: seq<uint16>, n: nat): uint16
    requires 1 <= |d| && n <= |d|
  {
    if Same(d, n) then d[0] else BAD_PORT
  }

  // l3fwd_event.h: one element at a time.
  method ProcessDstPortScalar(dst: array<uint16>, nbElem: nat) returns (r: uint16)
    requires 1 <= dst.Length && nbElem <= dst.Length
    ensures r == CommonPort(dst[..], nbElem)
  {
    for i := 0 to nbElem
      invariant Same(dst[..], i)
    {
      if dst[i] != dst[0] {
        return BAD_PORT;
      }
    }
    return dst[0];
  }

  // _mm_set1_epi16
  function Set1(x: uint16): Vec { [x, x, x, x, x, x, x, x] }

  lemma AllBytesSet(a: Vec, x: uint16)
    ensures MoveMaskEpi8(CmpEq16(a, Set1(x))) == 0xFFFF <==> forall i :: 0 <= i < 8 ==> a[i] == x
  {
    var e := CmpEq16(a, Set1(x));
    MaskOfLanes(e, 8);
    assert forall i :: 0 <= i < 8 ==> (e[i] == 0xFFFF <==> a[i] == x);
  }

  function PowerOf4(n: nat): nat { if n == 0 then 1 else 4 * PowerOf4(n - 1) }

  lemma LaneBytes(x: uint16)
    requires x == 0 || x == 0xFFFF
    ensures (x % 0x100) / 0x80 + 2 * SignBit(x) == if x == 0 then 0 else 3
  {}

  // The byte mask of a comparison is full exactly when every lane is.
  lemma {:induction false} MaskOfLanes(e: Vec, lanes: nat)
    requires lanes <= 8 && forall i :: 0 <= i < 8 ==> e[i] == 0 || e[i] == 0xFFFF
    ensures MoveMaskEpi8(e, lanes) <= PowerOf4(lanes) - 1
    ensures MoveMaskEpi8(e, lanes) == PowerOf4(lanes) - 1
            <==> forall i :: 8 - lanes <= i < 8 ==> e[i] == 0xFFFF
  {
    if lanes == 0 {
    } else {
      var rest := MoveMaskEpi8(e, lanes - 1);
      MaskOfLanes(e, lanes - 1);
      LaneBytes(e[8 - lanes]);
      assert MoveMaskEpi8(e, lanes) == (if e[8 - lanes] == 0 then 0 else 3) + 4 * rest;
    }
  }

  lemma LowFourSet(a: Vec, x: uint16)
    ensures var e := CmpEq16(a, Set1(x));
            MoveMaskPs(UnpackLo16(e, e)) == 15 <==> a[0] == x && a[1] == x && a[2] == x && a[3] == x
  {}

  // One step of the scan of eight, and of four.
  lemma SameEight(d: seq<uint16>, i: nat)
    requires 1 <= |d| && i + 8 <= |d| && Same(d, i)
    ensures MoveMaskEpi8(CmpEq16(LoadU(d, i), Set1(d[0]))) == 0xFFFF <==> Same(d, i + 8)
  {
    var v := LoadU(d, i);
    AllBytesSet(v, d[0]);
    assert forall k :: i <= k < i + 8 ==> d[k] == v[k - i];
    assert forall k :: 0 <= k < 8 ==> v[k] == d[i + k];
  }

  lemma SameFour(d: seq<uint16>, i: nat)
    requires 1 <= |d| && i + 8 <= |d| && Same(d, i)
    ensures var e := CmpEq16(LoadU(d, i), Set1(d[0]));
            MoveMaskPs(UnpackLo16(e, e)) == 0xF <==> Same(d, i + 4)
  {
    var v := LoadU(d, i);
    LowFourSet(v, d[0]);
    assert v[0] == d[i] && v[1] == d[i + 1] && v[2] == d[i + 2] && v[3] == d[i + 3];
  }

  // How many slots the chunked scan of n equal elements reads: the four-wide step loads eight.
  function Scanned(n: nat): (r: nat)
    ensures n <= r <= n + 4
  {
    if n % 8 > 3 then n - n % 8 + 8 else n
  }

  // In an array of this size, the scan of every vector that fits stays inside exactly when the
  // size is at most 3 beyond a multiple of 8.
  lemma ScanFitsExactly(size: nat)
    ensures (forall n: nat :: n <= size ==> Scanned(n) <= size) <==> size % 8 <= 3
  {
    if size % 8 > 3 {
      assert Scanned(size) > size;
    } else {
      forall n: nat | n <= size
        ensures Scanned(n) <= size
      {
        assert n == 8 * (n / 8) + n % 8 && size == 8 * (size / 8) + size % 8 && n / 8 <= size / 8;
      }
    }
  }

  // A full vector of twelve is read up to slot 15.
  lemma ScanLeaves()
    ensures Scanned(12) == 16 && !forall n: nat :: n <= 12 ==> Scanned(n) <= 12
  {
    ScanFitsExactly(12);
  }

  // l3fwd_sse.h: eight, then four, then one at a time; the four-wide step looks at the
  // lower four of the eight it loads. Whatever memory holds behind the array, the answer is
  // the common value; top is how many slots the scan has read.
  method ProcessDstPort(dst: array<uint16>, nbElem0: nat, beyond: seq<uint16>) returns (r: uint16, ghost top: nat)
    requires 1 <= dst.Length && nbElem0 <= dst.Length && |beyond| == 4
    ensures r == CommonPort(dst[..], nbElem0)
    ensures top <= Scanned(nbElem0) && (Same(dst[..], nbElem0) ==> top == Scanned(nbElem0))
  {
    var memory := dst[..] + beyond;
    var i, nbElem := 0, nbElem0;
    top := 0;
    while nbElem > 7
      invariant 0 <= nbElem && i + nbElem == nbElem0 && i % 8 == 0 && top == i
      invariant Same(memory, i)
    {
      SameEight(memory, i);
      top := i + 8;
      if MoveMaskEpi8(CmpEq16(LoadU(memory, i), Set1(dst[0]))) != 0xFFFF {
        return BAD_PORT, top;
      }
      nbElem, i := nbElem - 8, i + 8;
    }
    while nbElem > 3
      invariant 0 <= nbElem <= 7 && i + nbElem == nbElem0
      invariant nbElem > 3 ==> nbElem == nbElem0 % 8
      invariant top == if nbElem0 % 8 > 3 && nbElem <= 3 then Scanned(nbElem0) else i
      invariant Same(memory, i)
    {
      SameFour(memory, i);
      top := i + 8;
      var dp1 := CmpEq16(LoadU(memory, i), Set1(dst[0]));
      if MoveMaskPs(UnpackLo16(dp1, dp1)) != 0xF {
        return BAD_PORT, top;
      }
      nbElem, i := nbElem - 4, i + 4;
    }
    while nbElem > 0
      invariant 0 <= nbElem && i + nbElem == nbElem0
      invariant top == if nbElem0 % 8 > 3 then Scanned(nbElem0) else i
      invariant Same(memory, i)
    {
      top := if top < i + 1 then i + 1 else top;
      if dst[i] != dst[0] {
        return BAD_PORT, top;
      }
      nbElem, i := nbElem - 1, i + 1;
    }
    assert forall k :: 0 <= k < nbElem0 ==> memory[k] == dst[k];
    return dst[0], top;
  }

  // ---------------------------------------------------------------- labelling

  // struct rte_event_vector
  class Vector {
    const mbufs: array<Mbuf>
    var nbElem: nat
    var attrValid: bool
    var port: uint16

    constructor (ms: array<Mbuf>, n: nat)
      ensures mbufs == ms && nbElem == n
    {
      mbufs, nbElem, attrValid, port := ms, n, false, 0;
    }
  }

  // A nonempty vector carries its one destination, or each of its packets its own.
  ghost predicate Labelled(vec: Vector, d: seq<uint16>)
    reads vec, vec.mbufs, vec.mbufs[..]
  {
    && |d| == vec.nbElem <= vec.mbufs.Length
    && (vec.nbElem > 0 ==>
          && (vec.attrValid <==> forall i :: 0 <= i < |d| ==> d[i] == d[0])
          && (if vec.attrValid then vec.port == d[0]
              else forall i {:trigger vec.mbufs[i]} :: 0 <= i < |d| ==> vec.mbufs[i].port == d[i]))
  }

  // Each packet takes its own destination.
  method SetPorts(ms: array<Mbuf>, dst: array<uint16>, n: nat)
    requires n <= ms.Length && n <= dst.Length
    requires forall i, j :: 0 <= i < j < n ==> ms[i] != ms[j]
    modifies ms[..n]
    ensures forall i {:trigger ms[i]} :: 0 <= i < n ==> ms[i].port == dst[i]
  {
    for i := 0 to n
      invariant forall j {:trigger ms[j]} :: 0 <= j < i ==> ms[j].port == dst[j]
    {
      assert ms[i] in ms[..n];
      ms[i].port := dst[i];
    }
  }

  // What is left of a vector is labelled with its one destination, or each of its packets
  // with its own.
  method LabelVector(vec: Vector, dst: array<uint16>, beyond: seq<uint16>)
    requires vec.nbElem <= vec.mbufs.Length && 1 <= dst.Length && vec.nbElem <= dst.Length && |beyond| == 4
    requires forall i, j :: 0 <= i < j < vec.nbElem ==> vec.mbufs[i] != vec.mbufs[j]
    requires BAD_PORT !in dst[..vec.nbElem]
    modifies vec`attrValid, vec`port, vec.mbufs[..vec.nbElem]
    ensures Labelled(vec, dst[..vec.nbElem])
    ensures vec.nbElem == 0 && dst[0] == BAD_PORT ==> !vec.attrValid
  {
    var n := vec.nbElem;
    var port, _ := ProcessDstPort(dst, n, beyond);
    assert n > 0 ==> dst[..n][0] == dst[0];
    if port == BAD_PORT {
      vec.attrValid := false;
      SetPorts(vec.mbufs, dst, n);
    } else {
      vec.attrValid := true;
      vec.port := port;
    }
  }

  // process_event_vector
  method ProcessEventVector(vec: Vector, dst: array<uint16>, beyond: seq<uint16>) returns (ghost freed: seq<Mbuf>)
    requires vec.nbElem <= vec.mbufs.Length && 1 <= dst.Length && vec.nbElem <= dst.Length && |beyond| == 4
    requires forall i, j :: 0 <= i < j < vec.nbElem ==> vec.mbufs[i] != vec.mbufs[j]
    modifies vec, vec.mbufs, dst, vec.mbufs[..vec.nbElem]
    ensures vec.nbElem <= vec.mbufs.Length
    ensures freed == Freed(old(vec.mbufs[..vec.nbElem]), old(dst[..vec.nbElem]), old(vec.nbElem))
    ensures vec.mbufs[..vec.nbElem] == Kept(old(vec.mbufs[..vec.nbElem]), old(dst[..vec.nbElem]), old(vec.nbElem)).0
    ensures Labelled(vec, Kept(old(vec.mbufs[..vec.nbElem]), old(dst[..vec.nbElem]), old(vec.nbElem)).1)
    ensures old(vec.nbElem) > 0 && vec.nbElem == 0 ==> !vec.attrValid
  {
    ghost var ms, d := vec.mbufs[..vec.nbElem], dst[..vec.nbElem];
    ghost var k := Kept(ms, d, vec.nbElem);
    KeptHasPort(ms, d, vec.nbElem);
    KeptDistinct(ms, d, vec.nbElem);
    var n;
    n, freed := FilterBadPackets(vec.mbufs, dst, vec.nbElem);
    vec.nbElem := n;
    assert vec.mbufs[..n] == k.0 && dst[..n] == k.1;
    assert forall i :: 0 <= i < n ==> vec.mbufs[i] == k.0[i];
    assert ms[..|ms|] == ms;
    forall i | 0 <= i < n
      ensures vec.mbufs[..n][i] in ms
    {
      assert k.0[i] in k.0;
    }
    LabelVector(vec, dst, beyond);
  }
}
