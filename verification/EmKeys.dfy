// l3fwd/l3fwd_em.c and l3fwd/l3fwd_em_hlm_sse.h: the keys of the exact match, read out of a
// packet under masks and made from a rule.
module EmKeys {
  import opened Words
  import opened Wire
  import opened Headers
  import opened LpmClassify

  // Bytes up to the end of the third key register of an IPv6 packet.
  const EM_ROOM: nat := ETH_HLEN + 52

  // ---------------------------------------------------------------- masks

  // The AND of the lowest n bits.
  function AndBits(x: nat, y: nat, n: nat): (r: nat)
    ensures r <= x
  {
    if n == 0 then 0
    else 2 * AndBits(x / 2, y / 2, n - 1) + if x % 2 == 1 && y % 2 == 1 then 1 else 0
  }

  function And8(x: uint8, y: uint8): uint8 { AndBits(x, y, 8) }

  lemma {:induction false} AndZero(x: nat, n: nat)
    ensures AndBits(x, 0, n) == 0
  {
    if n == 0 {
    } else {
      AndZero(x / 2, n - 1);
    }
  }

  function Ones(n: nat): nat { if n == 0 then 0 else 2 * Ones(n - 1) + 1 }

  lemma {:induction false} AndOnes(x: nat, n: nat)
    requires x <= Ones(n)
    ensures AndBits(x, Ones(n), n) == x
  {
    if n == 0 {
    } else {
      AndOnes(x / 2, n - 1);
    }
  }

  lemma And8Mask(x: uint8)
    ensures And8(x, 0) == 0 && And8(x, 0xFF) == x
  {
    AndZero(x, 8);
    assert Ones(4) == 0xF && Ones(8) == 0xFF;
    AndOnes(x, 8);
  }

  // _mm_and_si128
  function AndSi128(a: Xmm, b: Xmm): (r: Xmm)
    ensures forall i :: 0 <= i < 16 ==> r[i] == And8(a[i], b[i])
  {
    seq(16, i requires 0 <= i < 16 => And8(a[i], b[i]))
  }

  // The register mask0 keeps byte 1 of its first word and the other words; mask1 keeps byte 2
  // of the first word and the other words; mask2 keeps the first two words.
  const MASK0: Xmm := [0, 0xFF, 0, 0, 0xFF, 0xFF, 0xFF, 0xFF, 0xFF, 0xFF, 0xFF, 0xFF, 0xFF, 0xFF, 0xFF, 0xFF]
  const MASK1: Xmm := [0, 0, 0xFF, 0, 0xFF, 0xFF, 0xFF, 0xFF, 0xFF, 0xFF, 0xFF, 0xFF, 0xFF, 0xFF, 0xFF, 0xFF]
  const MASK2: Xmm := [0xFF, 0xFF, 0xFF, 0xFF, 0xFF, 0xFF, 0xFF, 0xFF, 0, 0, 0, 0, 0, 0, 0, 0]

  // A mask of zeroes and ones keeps a byte or clears it.
  lemma Masked(a: Xmm, mask: Xmm)
    requires forall i :: 0 <= i < 16 ==> mask[i] == 0 || mask[i] == 0xFF
    ensures forall i :: 0 <= i < 16 ==> AndSi128(a, mask)[i] == if mask[i] == 0 then 0 else a[i]
  {
    forall i | 0 <= i < 16
      ensures AndSi128(a, mask)[i] == if mask[i] == 0 then 0 else a[i]
    {
      And8Mask(a[i]);
    }
  }

  // ---------------------------------------------------------------- keys of packets

  // em_mask_key: sixteen bytes of the frame under a mask.
  function EmMaskKey(f: seq<uint8>, at: nat, mask: Xmm): Xmm
    requires at + 16 <= |f|
  {
    AndSi128(f[at..at + 16], mask)
  }

  // The key of em_get_ipv4_dst_port: from the TTL on.
  function ScalarKey4(f: seq<uint8>): Xmm
    requires EM_ROOM <= |f|
  {
    EmMaskKey(f, TTL, MASK0)
  }

  // The key of em_get_ipv6_dst_port: three registers, from the payload length on.
  function ScalarKey6(f: seq<uint8>): (Xmm, Xmm, Xmm)
    requires EM_ROOM <= |f|
  {
    (EmMaskKey(f, ETH_HLEN + 4, MASK1), f[ETH_HLEN + 20..ETH_HLEN + 36], EmMaskKey(f, ETH_HLEN + 36, MASK2))
  }

  // get_ipv4_5tuple
  method GetIpv4FiveTuple(f: seq<uint8>, mask0: Xmm) returns (key: Xmm)
    requires EM_ROOM <= |f|
    ensures mask0 == MASK0 ==> key == ScalarKey4(f)
  {
    var tmpdata0: Xmm := f[ETH_HLEN + 8..ETH_HLEN + 24];
    key := AndSi128(tmpdata0, mask0);
  }

  // get_ipv6_5tuple
  method GetIpv6FiveTuple(f: seq<uint8>, mask0: Xmm, mask1: Xmm) returns (key: (Xmm, Xmm, Xmm))
    requires EM_ROOM <= |f|
    ensures mask0 == MASK1 && mask1 == MASK2 ==> key == ScalarKey6(f)
  {
    var at := ETH_HLEN + 4;
    var tmpdata0: Xmm := f[at..at + 16];
    var tmpdata1: Xmm := f[at + 16..at + 32];
    var tmpdata2: Xmm := f[at + 32..at + 48];
    key := (AndSi128(tmpdata0, mask0), tmpdata1, AndSi128(tmpdata2, mask1));
  }

  // ---------------------------------------------------------------- keys of rules

  // rte_cpu_to_be_16, rte_cpu_to_be_32
  function ToBe16(x: uint16): (r: seq<uint8>)
    ensures |r| == 2 && Be16(r[0], r[1]) == x
  {
    [x / 0x100, x % 0x100]
  }

  function ToBe32(x: uint32): (r: seq<uint8>)
    ensures |r| == 4
  {
    [x / 0x100 / 0x100 / 0x100, x / 0x100 / 0x100 % 0x100, x / 0x100 % 0x100, x % 0x100]
  }

  // Four bytes are the number they stand for.
  lemma Be32Exactly(b: seq<uint8>, x: uint32)
    requires |b| == 4
    ensures Be32(b) == x <==> b == ToBe32(x)
  {
    var n0: nat := b[0];
    var n1: nat := 0x100 * n0 + b[1];
    var n2: nat := 0x100 * n1 + b[2];
    assert Be32(b) == 0x100 * n2 + b[3];
    assert (0x100 * n2 + b[3]) / 0x100 == n2 && n2 / 0x100 == n1 && n1 / 0x100 == n0;
    assert ToBe32(Be32(b)) == b;
    var y := ToBe32(x);
    assert x == 0x100 * (x / 0x100) + y[3];
    assert x / 0x100 == 0x100 * (x / 0x100 / 0x100) + y[2];
    var y0: nat, y1: nat := y[0], y[1];
    assert x / 0x100 / 0x100 == 0x100 * y0 + y1;
    assert Be32(y) == x;
  }

  // convert_ipv4_5tuple
  function Convert4(r: Tuple4): Xmm {
    [0, r.proto, 0, 0] + ToBe32(r.ipSrc) + ToBe32(r.ipDst) + ToBe16(r.portSrc) + ToBe16(r.portDst)
  }

  // convert_ipv6_5tuple
  function Convert6(r: Tuple6): (Xmm, Xmm, Xmm) {
    ([0, 0, r.proto, 0] + r.ipSrc[..12], r.ipSrc[12..] + r.ipDst[..12],
     r.ipDst[12..] + ToBe16(r.portSrc) + ToBe16(r.portDst) + [0, 0, 0, 0, 0, 0, 0, 0])
  }

  // A packet has a rule's key exactly when it has the rule's five-tuple: the masks take out
  // the TTL, the checksum, the payload length, the hop limit and what follows the ports, and
  // nothing else.
  lemma KeyExactly4(f: seq<uint8>, r: Tuple4)
    requires EM_ROOM <= |f|
    ensures ScalarKey4(f) == Convert4(r) <==> FiveTuple4(f) == r
  {
    var src, dst, ports := f[26..30], f[30..34], f[34..38];
    KeyBytes4(f);
    ReadsNet32(f, 26);
    ReadsNet32(f, 30);
    Be32Exactly(src, r.ipSrc);
    Be32Exactly(dst, r.ipDst);
    Pieces(f[23], src, dst, ports, r.proto, ToBe32(r.ipSrc), ToBe32(r.ipDst), ToBe16(r.portSrc) + ToBe16(r.portDst));
    assert Convert4(r) == [0, r.proto, 0, 0] + ToBe32(r.ipSrc) + ToBe32(r.ipDst) + (ToBe16(r.portSrc) + ToBe16(r.portDst));
    PortsExactly(ports, r.portSrc, r.portDst);
    assert Net16(f, 34) == Be16(ports[0], ports[1]) && Net16(f, 36) == Be16(ports[2], ports[3]);
  }

  lemma KeyBytes4(f: seq<uint8>)
    requires EM_ROOM <= |f|
    ensures ScalarKey4(f) == [0, f[23], 0, 0] + f[26..30] + f[30..34] + f[34..38]
  {
    var a, key := f[TTL..TTL + 16], ScalarKey4(f);
    Masked(a, MASK0);
    assert key[0] == key[2] == key[3] == 0 && key[1] == a[1] == f[23];
    forall i | 4 <= i < 16
      ensures key[i] == f[22 + i]
    {
      assert MASK0[i] == 0xFF && a[i] == f[TTL + i];
    }
  }

  lemma Pieces(p: uint8, a: seq<uint8>, b: seq<uint8>, c: seq<uint8>, q: uint8, d: seq<uint8>, e: seq<uint8>, g: seq<uint8>)
    requires |a| == |b| == |c| == |d| == |e| == |g| == 4
    ensures [0, p, 0, 0] + a + b + c == [0, q, 0, 0] + d + e + g <==> p == q && a == d && b == e && c == g
  {
    var x, w := [0, p, 0, 0] + a + b + c, [0, q, 0, 0] + d + e + g;
    assert x[1] == p && x[4..8] == a && x[8..12] == b && x[12..] == c;
    assert w[1] == q && w[4..8] == d && w[8..12] == e && w[12..] == g;
  }

  lemma PortsExactly(ports: seq<uint8>, src: uint16, dst: uint16)
    requires |ports| == 4
    ensures ports == ToBe16(src) + ToBe16(dst) <==> Be16(ports[0], ports[1]) == src && Be16(ports[2], ports[3]) == dst
  {}

  lemma KeyExactly6(f: seq<uint8>, r: Tuple6)
    requires EM_ROOM <= |f|
    ensures ScalarKey6(f) == Convert6(r) <==> FiveTuple6(f) == r
  {
    var key, want := ScalarKey6(f), Convert6(r);
    var src, dst, ports := f[22..38], f[38..54], f[54..58];
    Masked(f[18..34], MASK1);
    assert key.0 == [0, 0, f[20], 0] + src[..12];
    assert key.1 == src[12..] + dst[..12];
    Masked(f[50..66], MASK2);
    assert key.2 == dst[12..] + ports + [0, 0, 0, 0, 0, 0, 0, 0];
    assert Net16(f, 54) == Be16(ports[0], ports[1]) && Net16(f, 56) == Be16(ports[2], ports[3]);
    FirstRegister(f[20], src[..12], r.proto, r.ipSrc[..12]);
    SecondRegister(src[12..], dst[..12], r.ipSrc[12..], r.ipDst[..12]);
    LastRegister(dst[12..], ports, r.ipDst[12..], ToBe16(r.portSrc) + ToBe16(r.portDst));
    assert want.2 == r.ipDst[12..] + (ToBe16(r.portSrc) + ToBe16(r.portDst)) + [0, 0, 0, 0, 0, 0, 0, 0];
    PortsExactly(ports, r.portSrc, r.portDst);
    Halves(src, r.ipSrc);
    Halves(dst, r.ipDst);
  }

  lemma FirstRegister(p: uint8, a: seq<uint8>, q: uint8, b: seq<uint8>)
    ensures [0, 0, p, 0] + a == [0, 0, q, 0] + b <==> p == q && a == b
  {
    var x, y := [0, 0, p, 0] + a, [0, 0, q, 0] + b;
    assert x[2] == p && x[4..] == a && y[2] == q && y[4..] == b;
  }

  lemma SecondRegister(a: seq<uint8>, b: seq<uint8>, c: seq<uint8>, d: seq<uint8>)
    requires |a| == |c|
    ensures a + b == c + d <==> a == c && b == d
  {
    assert (a + b)[..|a|] == a && (a + b)[|a|..] == b && (c + d)[..|a|] == c && (c + d)[|a|..] == d;
  }

  lemma LastRegister(a: seq<uint8>, b: seq<uint8>, c: seq<uint8>, d: seq<uint8>)
    requires |a| == |b| == |c| == |d| == 4
    ensures a + b + [0, 0, 0, 0, 0, 0, 0, 0] == c + d + [0, 0, 0, 0, 0, 0, 0, 0] <==> a == c && b == d
  {
    SecondRegister(a + b, [0, 0, 0, 0, 0, 0, 0, 0], c + d, [0, 0, 0, 0, 0, 0, 0, 0]);
    SecondRegister(a, b, c, d);
  }

  lemma Halves(a: Xmm, b: Xmm)
    ensures a == b <==> a[..12] == b[..12] && a[12..] == b[12..]
  {
    assert a == a[..12] + a[12..] && b == b[..12] + b[12..];
  }
}
