// Machine words and the constants every part of the forwarder shares.
module Words {

  type uint8 = x: int | 0 <= x < 0x100
  type uint16 = x: int | 0 <= x < 0x1_0000
  type uint32 = x: int | 0 <= x < 0x1_0000_0000
  type uint64 = x: int | 0 <= x < 0x1_0000_0000_0000_0000

  const MAX_PKT_BURST: nat := 512
  const FWDSTEP: nat := 4
  const RTE_MAX_ETHPORTS: nat := 32

  // Marks a packet that must be freed instead of sent: (uint16_t)-1.
  const BAD_PORT: uint16 := 0xFFFF

  datatype Option<+T> = None | Some(value: T)

  // Always true. A predicate that says its piece under "forall k :: Asked(k) ==> ..." stays
  // closed in every proof that does not mention Asked.
  ghost predicate Asked(k: int) { true }

  function Min(a: nat, b: nat): nat { if a < b then a else b }

  lemma OneLonger<T>(s: seq<T>, k: nat)
    requires k < |s|
    ensures s[..k] + [s[k]] == s[..k + 1]
  {}

  lemma Rest<T>(a: seq<T>, b: seq<T>) returns (more: seq<T>)
    requires a <= b
    ensures b == a + more
  {
    more := b[|a|..];
  }

  lemma Reassociate<T>(a: seq<T>, b: seq<T>, c: seq<T>)
    ensures a + (b + c) == (a + b) + c
  {}
}
