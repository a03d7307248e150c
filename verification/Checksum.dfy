// The Internet checksum under the incremental update of rfc1812_process.
module Checksum {
  import opened Words
  import opened Wire
  import opened Headers

  // The sum of a header's 16-bit words in network order, and as a little-endian host
  // reads them.
  ghost function SumBe(h: seq<uint8>): nat
    requires |h| % 2 == 0
  {
    if h == [] then 0 else Be16(h[0], h[1]) + SumBe(h[2..])
  }

  ghost function SumLe(h: seq<uint8>): nat
    requires |h| % 2 == 0
  {
    if h == [] then 0 else Le16(h[0], h[1]) + SumLe(h[2..])
  }

  // End-around carry until 16 bits are left.
  ghost function Fold(s: nat): nat {
    if s < 0x1_0000 then s else Fold(s % 0x1_0000 + s / 0x1_0000)
  }

  // A received header verifies when its ones'-complement sum is all ones
  // (section 1 of RFC 1071).
  ghost predicate Verifies(h: seq<uint8>)
    requires |h| % 2 == 0
  {
    Fold(SumBe(h)) == 0xFFFF
  }

  // x and y leave the same remainder modulo 65535.
  ghost predicate Congruent(x: int, y: int) { (x - y) % 0xFFFF == 0 }

  lemma CongruentBy(x: int, y: int, k: int)
    requires x - y == k * 0xFFFF
    ensures Congruent(x, y)
  {}

  lemma Quotient(x: int, y: int) returns (k: int)
    requires Congruent(x, y)
    ensures x - y == k * 0xFFFF
  {
    k := (x - y) / 0xFFFF;
  }

  lemma {:induction false} FoldMeaning(s: nat)
    ensures Fold(s) <= 0xFFFF && Congruent(Fold(s), s)
    ensures Fold(s) == 0 <==> s == 0
  {
    if s < 0x1_0000 {
      CongruentBy(s, s, 0);
    } else {
      var t := s % 0x1_0000 + s / 0x1_0000;
      assert t > 0;
      FoldMeaning(t);
      var k := Quotient(Fold(s), t);
      CongruentBy(Fold(s), s, k - s / 0x1_0000);
    }
  }

  // Fold is determined by the remainder and by whether the sum is zero.
  lemma FoldAgree(s: nat, x: nat)
    requires x <= 0xFFFF && Congruent(x, s) && (x == 0 <==> s == 0)
    ensures Fold(s) == x
  {
    FoldMeaning(s);
    var k := Quotient(Fold(s), s);
    var l := Quotient(x, s);
    assert Fold(s) - x == (k - l) * 0xFFFF;
  }

  ghost function Swap16(x: nat): nat
    requires x <= 0xFFFF
  {
    x % 0x100 * 0x100 + x / 0x100
  }

  // Folding commutes with swapping bytes.
  lemma FoldSwapped(le: nat, be: nat)
    requires Congruent(be, 0x100 * le) && (be == 0 <==> le == 0)
    ensures Fold(le) <= 0xFFFF
    ensures Fold(be) == Swap16(Fold(le))
  {
    FoldMeaning(le);
    var f := Fold(le);
    var k := Quotient(f, le);
    var l := Quotient(be, 0x100 * le);
    var q, r := f / 0x100, f % 0x100;
    assert f == 0x100 * q + r;
    CongruentBy(Swap16(f), be, 0x100 * k - q - l);
    FoldAgree(be, Swap16(f));
  }

  // A sum folds to all ones exactly when it is a positive multiple of 65535.
  lemma FoldsToOnes(s: nat)
    ensures Fold(s) == 0xFFFF <==> Congruent(s, 0) && s > 0
  {
    FoldMeaning(s);
    if Fold(s) == 0xFFFF {
      var k := Quotient(0xFFFF, s);
      CongruentBy(s, 0, 1 - k);
    }
    if Congruent(s, 0) && s > 0 {
      var l := Quotient(s, 0);
      CongruentBy(0xFFFF, s, 1 - l);
      FoldAgree(s, 0xFFFF);
    }
  }

  lemma {:induction false} SwappedSum(h: seq<uint8>)
    requires |h| % 2 == 0
    ensures Congruent(SumBe(h), 0x100 * SumLe(h))
    ensures SumBe(h) == 0 <==> SumLe(h) == 0
  {
    if h == [] {
      CongruentBy(0, 0, 0);
    } else {
      SwappedSum(h[2..]);
      var k := Quotient(SumBe(h[2..]), 0x100 * SumLe(h[2..]));
      CongruentBy(SumBe(h), 0x100 * SumLe(h), k - h[1]);
    }
  }

  // Byte order independence, section 2(B) of RFC 1071: summing the byte-swapped words
  // gives the byte-swapped sum, for a header of any length.
  lemma ByteOrderIndependent(h: seq<uint8>)
    requires |h| % 2 == 0
    ensures Fold(SumLe(h)) <= 0xFFFF
    ensures Fold(SumBe(h)) == Swap16(Fold(SumLe(h)))
  {
    SwappedSum(h);
    FoldSwapped(SumLe(h), SumBe(h));
  }

  // The host-order sum after one byte pair changes.
  lemma {:induction false} SumLeUpdate(h: seq<uint8>, g: seq<uint8>, w: nat)
    requires |h| % 2 == 0 && |g| == |h| && 2 * w + 1 < |h|
    requires forall i :: 0 <= i < |h| && i != 2 * w && i != 2 * w + 1 ==> g[i] == h[i]
    ensures SumLe(g) - SumLe(h)
            == Le16(g[2 * w], g[2 * w + 1]) - Le16(h[2 * w], h[2 * w + 1])
    decreases w
  {
    if w == 0 {
      assert g[2..] == h[2..];
    } else {
      SumLeUpdate(h[2..], g[2..], w - 1);
    }
  }

  lemma {:induction false} SumLeAtLeast(h: seq<uint8>, w: nat)
    requires |h| % 2 == 0 && 2 * w + 1 < |h|
    ensures SumLe(h) >= Le16(h[2 * w], h[2 * w + 1])
    decreases w
  {
    if w == 0 {
    } else {
      SumLeAtLeast(h[2..], w - 1);
    }
  }

  lemma IncDelta(lo: uint8, hi: uint8)
    ensures Inc16(Le16(lo, hi)) as int - Le16(lo, hi) as int
            == if lo == 255 && hi == 255 then -0xFFFF else 1
  {}

  lemma DecDelta(t: uint8)
    ensures Sub8(t, 1) as int - t as int == if t >= 1 then -1 else 255
  {}

  // What the update does to the host-order sum: the two increments cancel unless one of
  // the two fields wraps.
  lemma UpdateSum(h: seq<uint8>, g: seq<uint8>)
    requires 12 <= |h| && |h| % 2 == 0 && |g| == |h|
    requires forall i :: 0 <= i < |h| && i != 8 && i != 10 && i != 11 ==> g[i] == h[i]
    requires g[8] == Sub8(h[8], 1)
    requires Le16(g[10], g[11]) == Inc16(Le16(h[10], h[11]))
    ensures SumLe(g) - SumLe(h) == (if h[8] >= 1 then -1 else 255)
                                   + (if h[10] == 255 && h[11] == 255 then -0xFFFF else 1)
  {
    var m := h[8 := g[8]];
    SumLeUpdate(h, m, 4);
    SumLeUpdate(m, g, 5);
    DecDelta(h[8]);
    IncDelta(h[10], h[11]);
  }

  // A header verifies exactly when its host-order sum does.
  lemma VerifiesLe(h: seq<uint8>)
    requires |h| % 2 == 0
    ensures Verifies(h) <==> Congruent(SumLe(h), 0) && SumLe(h) > 0
  {
    ByteOrderIndependent(h);
    OnesSwap(Fold(SumLe(h)));
    FoldsToOnes(SumLe(h));
  }

  lemma OnesSwap(x: nat)
    requires x <= 0xFFFF
    ensures Swap16(x) == 0xFFFF <==> x == 0xFFFF
  {
    assert x == 0x100 * (x / 0x100) + x % 0x100;
  }

  lemma OnlyZeroKeepsMultiple(s: nat, d: int)
    requires Congruent(s, 0) && s > 0 && s + d >= 0
    requires d == 0 || d == 256 || d == -0x1_0000 || d == 255 - 0xFFFF
    ensures Congruent(s + d, 0) && s + d > 0 <==> d == 0
  {
    var k := Quotient(s, 0);
    if Congruent(s + d, 0) {
      var l := Quotient(s + d, 0);
      assert d == (l - k) * 0xFFFF;
    }
  }

  // The update on the header h alone: g is h with the TTL and checksum fields rewritten.
  lemma UpdateVerifies(h: seq<uint8>, g: seq<uint8>)
    requires 12 <= |h| && |h| % 2 == 0 && |g| == |h|
    requires forall i :: 0 <= i < |h| && i != 8 && i != 10 && i != 11 ==> g[i] == h[i]
    requires g[8] == Sub8(h[8], 1)
    requires Le16(g[10], g[11]) == Inc16(Le16(h[10], h[11]))
    requires Verifies(h)
    ensures Verifies(g) <==> h[8] >= 1 && !(h[10] == 255 && h[11] == 255)
  {
    UpdateSum(h, g);
    VerifiesLe(h);
    VerifiesLe(g);
    OnlyZeroKeepsMultiple(SumLe(h), SumLe(g) - SumLe(h));
  }

  // rfc1812_process writes three bytes of the header.
  lemma HeaderAfter(f: seq<uint8>, ptype: bv32, n: nat)
    requires IsIpv4Hdr(ptype) && 20 <= n && 14 + n <= |f| && MIN_ROOM <= |f|
    ensures var h, g := V4Header(f, n), V4Header(Rfc1812Frame(f, ptype), n);
            && |g| == |h| == n && (forall i :: 0 <= i < n && i != 8 && i != 10 && i != 11 ==> g[i] == h[i])
            && g[8] == Sub8(h[8], 1) && Le16(g[10], g[11]) == Inc16(Le16(h[10], h[11]))
            && h[8] == V4Ttl(f) && Be16(h[10], h[11]) == V4Checksum(f)
  {
    var r := Rfc1812Frame(f, ptype);
    var h, g := V4Header(f, n), V4Header(r, n);
    forall i | 0 <= i < n
      ensures h[i] == f[14 + i] && g[i] == r[14 + i]
    {}
  }

  // Checksum preservation, exactly: a frame whose IPv4 header of any even length
  // verifies still verifies after rfc1812_process if and only if its TTL was not zero
  // and its stored checksum was not 0xFFFF.
  lemma ChecksumPreserved(f: seq<uint8>, ptype: bv32, hlen: nat)
    requires IsIpv4Hdr(ptype)
    requires 20 <= hlen && hlen % 2 == 0 && 14 + hlen <= |f| && MIN_ROOM <= |f|
    requires Verifies(V4Header(f, hlen))
    ensures Verifies(V4Header(Rfc1812Frame(f, ptype), hlen)) <==> V4Ttl(f) >= 1 && V4Checksum(f) != 0xFFFF
  {
    HeaderAfter(f, ptype, hlen);
    UpdateVerifies(V4Header(f, hlen), V4Header(Rfc1812Frame(f, ptype), hlen));
  }

  // A header that verifies, with TTL 64 and a stored checksum of 0xFFFF.
  const WRAPPING: seq<uint8> :=
    [0x45, 0, 0, 20, 0, 0, 0, 0, 64, 17, 0xFF, 0xFF, 10, 0, 0, 1, 10, 0, 0x66, 0xD9]

  lemma {:induction false} SumOfPair(h: seq<uint8>, rest: seq<uint8>, s: nat)
    requires |h| % 2 == 0 && h != [] && rest == h[2..] && SumBe(rest) == s
    ensures SumBe(h) == Be16(h[0], h[1]) + s
  {}

  lemma TenWords(h: seq<uint8>)
    requires |h| == 20
    ensures SumBe(h) == Be16(h[0], h[1]) + Be16(h[2], h[3]) + Be16(h[4], h[5]) + Be16(h[6], h[7]) + Be16(h[8], h[9])
                        + Be16(h[10], h[11]) + Be16(h[12], h[13]) + Be16(h[14], h[15]) + Be16(h[16], h[17])
                        + Be16(h[18], h[19])
  {
    assert h[20..] == [];
    SumOfPair(h[18..], h[20..], 0);
    SumOfPair(h[16..], h[18..], SumBe(h[18..]));
    SumOfPair(h[14..], h[16..], SumBe(h[16..]));
    SumOfPair(h[12..], h[14..], SumBe(h[14..]));
    SumOfPair(h[10..], h[12..], SumBe(h[12..]));
    SumOfPair(h[8..], h[10..], SumBe(h[10..]));
    SumOfPair(h[6..], h[8..], SumBe(h[8..]));
    SumOfPair(h[4..], h[6..], SumBe(h[6..]));
    SumOfPair(h[2..], h[4..], SumBe(h[4..]));
    SumOfPair(h, h[2..], SumBe(h[2..]));
  }

  lemma TwiceOnes(h: seq<uint8>)
    requires |h| % 2 == 0 && SumBe(h) == 0x1_FFFE
    ensures Verifies(h)
  {
    FoldsToOnes(0x1_FFFE);
    CongruentBy(0x1_FFFE, 0, 2);
  }

  lemma WrappingVerifies()
    ensures Verifies(WRAPPING)
  {
    TenWords(WRAPPING);
    TwiceOnes(WRAPPING);
  }

  // rfc1812_process makes it fail, though its TTL does not run out.
  lemma WrappingBreaks(f: seq<uint8>, ptype: bv32)
    requires IsIpv4Hdr(ptype) && MIN_ROOM <= |f| && V4Header(f, 20) == WRAPPING
    ensures V4Ttl(f) == 64 && Verifies(V4Header(f, 20))
    ensures !Verifies(V4Header(Rfc1812Frame(f, ptype), 20))
  {
    WrappingVerifies();
    FieldsOf(f, V4Header(f, 20));
    ChecksumPreserved(f, ptype, 20);
  }

  lemma FieldsOf(f: seq<uint8>, h: seq<uint8>)
    requires MIN_ROOM <= |f| && h == V4Header(f, 20) && h == WRAPPING
    ensures V4Ttl(f) == 64 && V4Checksum(f) == 0xFFFF
  {
    assert f[22] == h[8] && f[24] == h[10] && f[25] == h[11];
  }
}
