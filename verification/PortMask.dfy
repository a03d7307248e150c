// enabled_port_mask: one bit a port.
module PortMask {
  import opened Words

  function PortBit(p: uint16): bv32
    requires p < RTE_MAX_ETHPORTS
  {
    1 << p
  }

  predicate HasBit(mask: bv32, bit: bv32) { mask & bit != 0 }

  predicate PortEnabled(mask: bv32, p: uint16)
    requires p < RTE_MAX_ETHPORTS
  {
    HasBit(mask, PortBit(p))
  }

  // A port's bit enables that port and no other; a union of masks enables what either does.
  lemma EnabledBits(a: bv32, b: bv32, p: uint16, q: uint16)
    requires p < RTE_MAX_ETHPORTS && q < RTE_MAX_ETHPORTS
    ensures !PortEnabled(0, q)
    ensures PortEnabled(PortBit(p), q) <==> p == q
    ensures PortEnabled(a | b, q) <==> PortEnabled(a, q) || PortEnabled(b, q)
  {
    NoneEnabled(q);
    OwnBit(p, q);
    EitherHas(a, b, PortBit(q), PortEnabled(a | b, q), PortEnabled(a, q), PortEnabled(b, q));
  }

  lemma NoneEnabled(q: uint16)
    requires q < RTE_MAX_ETHPORTS
    ensures !PortEnabled(0, q)
  {}

  lemma OrBits(a: bv32, b: bv32, m: bv32)
    ensures (a | b) & m != 0 <==> a & m != 0 || b & m != 0
  {}

  lemma EitherHas(a: bv32, b: bv32, m: bv32, x: bool, y: bool, z: bool)
    requires x == HasBit(a | b, m) && y == HasBit(a, m) && z == HasBit(b, m)
    ensures x <==> y || z
  {
    OrBits(a, b, m);
  }

  lemma Shifts(s: bv32, t: bv32)
    requires s < 32 && t < 32
    ensures ((1 as bv32) << s) & ((1 as bv32) << t) != 0 <==> s == t
  {}

  // The shift count as a word.
  lemma CountKept(p: uint16)
    requires p < RTE_MAX_ETHPORTS
    ensures (p as bv32) as int == p
  {}

  lemma CountBelow(x: bv32)
    requires x as int < 32
    ensures x < 32
  {}

  lemma CountApart(p: uint16, q: uint16)
    requires p < RTE_MAX_ETHPORTS && q < RTE_MAX_ETHPORTS && p as bv32 == q as bv32
    ensures p == q
  {
    CountKept(p);
    CountKept(q);
  }

  lemma BitOf(p: uint16)
    requires p < RTE_MAX_ETHPORTS
    ensures PortBit(p) == (1 as bv32) << (p as bv32) && (p as bv32) < 32
  {
    CountKept(p);
    CountBelow(p as bv32);
  }

  lemma OwnBit(p: uint16, q: uint16)
    requires p < RTE_MAX_ETHPORTS && q < RTE_MAX_ETHPORTS
    ensures PortEnabled(PortBit(p), q) <==> p == q
  {
    BitOf(p);
    BitOf(q);
    if p as bv32 == q as bv32 {
      CountApart(p, q);
    }
    Shifts(p as bv32, q as bv32);
  }
}
