// l3fwd/l3fwd_acl.c: an IPv6 network as four 32-bit fields, each with its own mask length.
module Ipv6Prefix {
  import opened Words

  const WORD_BITS: nat := 32
  const ADDR_WORDS: nat := 4
  const ADDR_BITS: nat := 128

  // struct rte_acl_field: a value and how many of its leading bits count.
  datatype Field = Field(value: uint32, maskRange: nat)

  function Pow2(n: nat): (r: nat)
    ensures r >= 1
  {
    if n == 0 then 1 else 2 * Pow2(n - 1)
  }

  // The number a list of words spells, the first most significant.
  function Value(ws: seq<uint32>): nat {
    if |ws| == 0 then 0 else Value(ws[..|ws| - 1]) * Pow2(WORD_BITS) + ws[|ws| - 1]
  }

  // a and v agree on their leading m bits, of bits.
  ghost predicate SamePrefix(a: nat, v: nat, m: nat, bits: nat)
    requires m <= bits
  {
    a / Pow2(bits - m) == v / Pow2(bits - m)
  }

  // How many of the m leading bits fall in word i.
  function WordMask(m: nat, i: nat): (r: nat)
    ensures r <= WORD_BITS
  {
    if m >= (i + 1) * WORD_BITS then WORD_BITS
    else if m > i * WORD_BITS then m - i * WORD_BITS
    else 0
  }

  ghost predicate Matches(a: seq<uint32>, field: seq<Field>)
    requires |a| == |field|
  {
    forall i :: 0 <= i < |a| ==>
      field[i].maskRange <= WORD_BITS && SamePrefix(a[i], field[i].value, field[i].maskRange, WORD_BITS)
  }

  // The tail of parse_ipv6_net: the address v, of which m bits count.
  method ParseIpv6Net(v: seq<uint32>, m: nat, field: array<Field>) returns (ok: bool)
    requires |v| == field.Length == ADDR_WORDS
    modifies field
    ensures ok <==> m <= ADDR_BITS
    ensures ok ==> field[0].maskRange + field[1].maskRange + field[2].maskRange + field[3].maskRange == m
    ensures ok ==> forall a: seq<uint32> :: |a| == ADDR_WORDS ==>
              (Matches(a, field[..]) <==> SamePrefix(Value(a), Value(v), m, ADDR_BITS))
  {
    if m > ADDR_BITS {
      return false;
    }
    for i := 0 to ADDR_WORDS
      invariant forall k :: 0 <= k < i ==> field[k] == Field(v[k], WordMask(m, k))
    {
      if m >= (i + 1) * WORD_BITS {
        field[i] := Field(v[i], WORD_BITS);
      } else {
        field[i] := Field(v[i], if m > i * WORD_BITS then m - i * WORD_BITS else 0);
      }
    }
    forall a: seq<uint32> | |a| == ADDR_WORDS
      ensures Matches(a, field[..]) <==> SamePrefix(Value(a), Value(v), m, ADDR_BITS)
    {
      SplitMatches(a, v, m);
      assert forall i :: 0 <= i < ADDR_WORDS ==> field[..][i] == Field(v[i], WordMask(m, i));
    }
    return true;
  }

  ghost predicate WordsMatch(a: seq<uint32>, v: seq<uint32>, m: nat)
    requires |a| == |v|
  {
    forall i :: 0 <= i < |a| ==> SamePrefix(a[i], v[i], WordMask(m, i), WORD_BITS)
  }

  lemma WordsMatchOn(a: seq<uint32>, v: seq<uint32>, m: nat, n: nat)
    requires |a| == |v| == n + 1
    ensures WordsMatch(a, v, m)
            <==> WordsMatch(a[..n], v[..n], Min(m, n * WORD_BITS)) && SamePrefix(a[n], v[n], WordMask(m, n), WORD_BITS)
  {
    assert forall i :: 0 <= i < n ==> a[..n][i] == a[i] && v[..n][i] == v[i];
    assert forall i :: 0 <= i < n ==> WordMask(m, i) == WordMask(Min(m, n * WORD_BITS), i);
  }

  // Word by word, each under its own mask, is the whole under the whole mask.
  lemma {:induction false} SplitMatches(a: seq<uint32>, v: seq<uint32>, m: nat)
    requires |a| == |v| && m <= |a| * WORD_BITS
    ensures WordsMatch(a, v, m) <==> SamePrefix(Value(a), Value(v), m, |a| * WORD_BITS)
  {
    if |a| == 0 {
    } else {
      var n := |a| - 1;
      WordsMatchOn(a, v, m, n);
      SplitMatches(a[..n], v[..n], Min(m, n * WORD_BITS));
      LastOf(a, v, m, n);
    }
  }

  // The words before the last and the last one, of two lists.
  lemma LastOf(a: seq<uint32>, v: seq<uint32>, m: nat, n: nat)
    requires |a| == |v| == n + 1 && m <= |a| * WORD_BITS
    ensures SamePrefix(Value(a[..n]), Value(v[..n]), Min(m, n * WORD_BITS), n * WORD_BITS)
            && SamePrefix(a[n], v[n], WordMask(m, n), WORD_BITS)
            <==> SamePrefix(Value(a), Value(v), m, |a| * WORD_BITS)
  {
    LastWord(Value(a[..n]), Value(v[..n]), a[n], v[n], m, n);
  }

  lemma LastWord(h: nat, g: nat, x: uint32, y: uint32, m: nat, n: nat)
    requires m <= (n + 1) * WORD_BITS
    ensures SamePrefix(h, g, Min(m, n * WORD_BITS), n * WORD_BITS) && SamePrefix(x, y, WordMask(m, n), WORD_BITS)
            <==> SamePrefix(h * Pow2(WORD_BITS) + x, g * Pow2(WORD_BITS) + y, m, (n + 1) * WORD_BITS)
  {
    if m <= n * WORD_BITS {
      DropWord(h, x, n * WORD_BITS - m);
      DropWord(g, y, n * WORD_BITS - m);
      NoBits(x, y);
    } else {
      KeepWord(h, g, x, y, m - n * WORD_BITS);
    }
  }

  lemma NoBits(x: uint32, y: uint32)
    ensures SamePrefix(x, y, 0, WORD_BITS)
  {
    Pow2Of32();
  }

  lemma Pow2Of32()
    ensures Pow2(WORD_BITS) == 0x1_0000_0000
  {
    Pow2Adds(16, 16);
    Pow2Adds(8, 8);
    assert Pow2(8) == 256;
  }

  lemma {:induction false} Pow2Adds(a: nat, b: nat)
    ensures Pow2(a + b) == Pow2(a) * Pow2(b)
  {
    if a == 0 {
    } else {
      Pow2Adds(a - 1, b);
      assert Pow2(a + b) == 2 * (Pow2(a - 1) * Pow2(b)) == (2 * Pow2(a - 1)) * Pow2(b);
    }
  }

  lemma Scales(a: nat, b: nat, d: nat)
    ensures a <= b ==> a * d <= b * d
    ensures (a + 1) * d == a * d + d
  {}

  lemma DivIs(x: nat, d: nat, q: nat)
    requires d > 0 && q * d <= x < q * d + d
    ensures x / d == q
  {
    var p := x / d;
    assert p * d <= x < p * d + d;
    Scales(p, q, d);
    Scales(q, p, d);
    Scales(p + 1, q, d);
    Scales(q + 1, p, d);
  }

  // Dividing by p * w drops a last part below w.
  lemma Drop(h: nat, x: nat, p: nat, w: nat)
    requires p > 0 && x < w
    ensures p * w > 0 && (h * w + x) / (p * w) == h / p
  {
    var q, r := h / p, h % p;
    assert h * w == q * (p * w) + r * w by {
      assert h == q * p + r;
      assert (q * p + r) * w == (q * p) * w + r * w;
      assert (q * p) * w == q * (p * w);
    }
    Scales(r + 1, p, w);
    Scales(r, 0, w);
    DivIs(h * w + x, p * w, q);
  }

  // Dividing by d keeps all of the high part and the leading part of the low one.
  lemma Join(h: nat, x: nat, d: nat, t: nat)
    requires d > 0 && x < t * d
    ensures (h * (t * d) + x) / d == h * t + x / d && x / d < t
  {
    var q := x / d;
    DivBounds(x, d);
    Associates(h, t, d);
    Distributes(h * t, q, d);
    DivIs(h * (t * d) + x, d, h * t + q);
    Scales(t, q, d);
  }

  lemma DivBounds(x: nat, d: nat)
    requires d > 0
    ensures x / d * d <= x < x / d * d + d
  {}

  lemma Associates(h: nat, t: nat, d: nat)
    ensures h * (t * d) == (h * t) * d
  {}

  lemma Distributes(a: nat, q: nat, d: nat)
    ensures (a + q) * d == a * d + q * d
  {}

  lemma Keep(h: nat, g: nat, x: nat, y: nat, d: nat, t: nat)
    requires d > 0 && x < t * d && y < t * d
    ensures h == g && x / d == y / d <==> (h * (t * d) + x) / d == (g * (t * d) + y) / d
  {
    Join(h, x, d, t);
    Join(g, y, d, t);
    Scales(h + 1, g, t);
    Scales(g + 1, h, t);
    Scales(h, g, t);
    Scales(g, h, t);
  }

  // Below k more bits, the last word does not matter.
  lemma DropWord(h: nat, x: uint32, k: nat)
    ensures (h * Pow2(WORD_BITS) + x) / Pow2(k + WORD_BITS) == h / Pow2(k)
  {
    Pow2Of32();
    Pow2Adds(k, WORD_BITS);
    Drop(h, x, Pow2(k), Pow2(WORD_BITS));
  }

  // With the words before all counting, and r bits of the last.
  lemma KeepWord(h: nat, g: nat, x: uint32, y: uint32, r: nat)
    requires r <= WORD_BITS
    ensures h == g && SamePrefix(x, y, r, WORD_BITS)
            <==> (h * Pow2(WORD_BITS) + x) / Pow2(WORD_BITS - r) == (g * Pow2(WORD_BITS) + y) / Pow2(WORD_BITS - r)
  {
    Pow2Of32();
    Pow2Adds(r, WORD_BITS - r);
    Keep(h, g, x, y, Pow2(WORD_BITS - r), Pow2(r));
  }
}
