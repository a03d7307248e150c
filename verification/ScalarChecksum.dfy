// l3fwd/l3fwd.h and l3fwd/l3fwd_lpm.h: what the scalar path leaves of an IPv4 checksum.
module ScalarChecksum {
  import opened Words
  import opened Wire
  import opened Headers
  import opened Checksum
  import opened LpmScalar

  // The host-order sum when the checksum field restarts from zero.
  lemma RestartedSum(h: seq<uint8>, g: seq<uint8>)
    requires 12 <= |h| && |h| % 2 == 0 && |g| == |h|
    requires forall i :: 0 <= i < |h| && i != 8 && i != 10 && i != 11 ==> g[i] == h[i]
    requires g[8] == Sub8(h[8], 1) && g[10] == 1 && g[11] == 0
    ensures SumLe(g) - SumLe(h) == (if h[8] >= 1 then -1 else 255) + 1 - Le16(h[10], h[11])
    ensures SumLe(g) > 0
  {
    var m := h[8 := g[8]];
    SumLeUpdate(h, m, 4);
    SumLeUpdate(m, g, 5);
    DecDelta(h[8]);
    SumLeAtLeast(g, 5);
  }

  // From one multiple of 65535 to another.
  lemma StaysMultiple(s: nat, d: int)
    requires Congruent(s, 0) && -0x1_0000 < d <= 256
    ensures Congruent(s + d, 0) <==> d == 0 || d == -0xFFFF
  {
    var k := Quotient(s, 0);
    if Congruent(s + d, 0) {
      var l := Quotient(s + d, 0);
      assert d == (l - k) * 0xFFFF;
    }
    if d == 0 || d == -0xFFFF {
      CongruentBy(s + d, 0, if d == 0 then k else k - 1);
    }
  }

  lemma RestartedVerifies(h: seq<uint8>, g: seq<uint8>)
    requires 12 <= |h| && |h| % 2 == 0 && |g| == |h|
    requires forall i :: 0 <= i < |h| && i != 8 && i != 10 && i != 11 ==> g[i] == h[i]
    requires g[8] == Sub8(h[8], 1) && g[10] == 1 && g[11] == 0
    requires Verifies(h)
    ensures Verifies(g) <==> if h[8] >= 1 then h[10] == h[11] == 0 || h[10] == h[11] == 0xFF
                             else h[10] == 0 && h[11] == 1
  {
    RestartedSum(h, g);
    VerifiesLe(h);
    VerifiesLe(g);
    StaysMultiple(SumLe(h), SumLe(g) - SumLe(h));
    assert Le16(h[10], h[11]) == 256 <==> h[10] == 0 && h[11] == 1;
    assert Le16(h[10], h[11]) == 0xFFFF <==> h[10] == 0xFF && h[11] == 0xFF;
  }

  // A header that verifies, checked in software and forwarded by the scalar path, verifies
  // afterwards if and only if its TTL was positive and its checksum field all zeroes or all
  // ones, or its TTL was zero and the field was 1.
  lemma SoftwareCheckExactly(f: seq<uint8>, ptype: bv32, meta: Meta, hlen: nat)
    requires IsIpv4Hdr(ptype) && meta.checkInSoftware
    requires 20 <= hlen && hlen % 2 == 0 && 14 + hlen <= |f| && MIN_ROOM <= |f|
    requires Verifies(V4Header(f, hlen))
    ensures var ck := V4Checksum(f);
            Verifies(V4Header(Rfc1812Frame(Checked(f, ptype, meta), ptype), hlen))
            <==> if V4Ttl(f) >= 1 then ck == 0 || ck == 0xFFFF else ck == 1
  {
    HeaderRestarted(f, ptype, meta, hlen);
    RestartedVerifies(V4Header(f, hlen), V4Header(Rfc1812Frame(Checked(f, ptype, meta), ptype), hlen));
  }

  lemma HeaderRestarted(f: seq<uint8>, ptype: bv32, meta: Meta, n: nat)
    requires IsIpv4Hdr(ptype) && meta.checkInSoftware && 20 <= n && 14 + n <= |f| && MIN_ROOM <= |f|
    ensures var h, g := V4Header(f, n), V4Header(Rfc1812Frame(Checked(f, ptype, meta), ptype), n);
            && |g| == |h| == n && (forall i :: 0 <= i < n && i != 8 && i != 10 && i != 11 ==> g[i] == h[i])
            && g[8] == Sub8(h[8], 1) && g[10] == 1 && g[11] == 0
            && h[8] == V4Ttl(f) && Be16(h[10], h[11]) == V4Checksum(f)
  {
    var r := Rfc1812Frame(Checked(f, ptype, meta), ptype);
    forall i | 0 <= i < n
      ensures V4Header(f, n)[i] == f[14 + i] && V4Header(r, n)[i] == r[14 + i]
    {}
  }

  // Without the software check the scalar path keeps to the law of rfc1812_process, and the
  // address stores leave the header alone.
  lemma SentHeader(f: seq<uint8>, ptype: bv32, meta: Meta, ve: Xmm, hlen: nat)
    requires MIN_ROOM <= |f| && 14 + hlen <= |f|
    ensures V4Header(Forwarded(Checked(f, ptype, meta), ptype, ve), hlen)
            == V4Header(Rfc1812Frame(Checked(f, ptype, meta), ptype), hlen)
    ensures !meta.checkInSoftware ==> Checked(f, ptype, meta) == f
  {
    var z := Checked(f, ptype, meta);
    assert forall i :: 12 <= i < |z| ==> Forwarded(z, ptype, ve)[i] == Rfc1812Frame(z, ptype)[i];
  }

  // The header of Checksum.WRAPPING, whose field is all ones, survives; the same header with
  // another address, and so another checksum, does not.
  const ORDINARY: seq<uint8> :=
    [0x45, 0, 0, 20, 0, 0, 0, 0, 64, 17, 0x66, 0xD9, 10, 0, 0, 1, 10, 0, 0xFF, 0xFF]

  lemma OrdinaryVerifies()
    ensures Verifies(ORDINARY)
  {
    TenWords(ORDINARY);
    TwiceOnes(ORDINARY);
  }

  lemma SoftwareCheckBreaks(f: seq<uint8>, ptype: bv32, meta: Meta)
    requires IsIpv4Hdr(ptype) && meta.checkInSoftware && MIN_ROOM <= |f| && V4Header(f, 20) == ORDINARY
    ensures Verifies(V4Header(f, 20))
    ensures !Verifies(V4Header(Rfc1812Frame(Checked(f, ptype, meta), ptype), 20))
  {
    OrdinaryVerifies();
    OrdinaryFields(f, V4Header(f, 20));
    SoftwareCheckExactly(f, ptype, meta, 20);
  }

  lemma OrdinaryFields(f: seq<uint8>, h: seq<uint8>)
    requires MIN_ROOM <= |f| && h == V4Header(f, 20) && h == ORDINARY
    ensures V4Ttl(f) == 64 && V4Checksum(f) == 0x66D9
  {
    assert f[22] == h[8] && f[24] == h[10] && f[25] == h[11];
  }
}
