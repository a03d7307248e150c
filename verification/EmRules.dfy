// l3fwd/l3fwd_em.c: the rules of the exact match, and which of them decides a packet's port.
module EmRules {
  import opened Words
  import opened Wire
  import opened EmKeys
  import opened Headers
  import opened LpmClassify
  import opened LpmScalar
  import opened PortMask
  import opened EmClassify

  // struct em_rule
  datatype EmRule<K> = EmRule(key: K, ifOut: uint8)

  // (1 << if_out & enabled_port_mask) != 0, with the shift count taken modulo 32.
  predicate OutEnabled(ifOut: uint8, c: Config) { PortEnabled(c.enabledPortMask, ifOut % 32) }

  // The port of the last of the first n rules with key k that names an enabled port.
  function LastRule<K(==)>(rules: seq<EmRule<K>>, k: K, n: nat, c: Config): Option<uint8>
    requires n <= |rules|
  {
    if n == 0 then None
    else if rules[n - 1].key == k && OutEnabled(rules[n - 1].ifOut, c) then Some(rules[n - 1].ifOut)
    else LastRule(rules, k, n - 1, c)
  }

  function Get<K>(h: map<K, uint8>, k: K): Option<uint8> { if k in h then Some(h[k]) else None }

  // populate_ipv4_flow_into_table, with the position of a key in the hash and the port at that
  // position as one map: adding a key again answers its old position.
  method PopulateIpv4(rules: seq<EmRule<Tuple4>>, c: Config) returns (h: map<Xmm, uint8>)
    ensures forall f: seq<uint8> :: EM_ROOM <= |f| ==> Get(h, ScalarKey4(f)) == LastRule(rules, FiveTuple4(f), |rules|, c)
  {
    h := map[];
    for i := 0 to |rules|
      invariant forall f: seq<uint8> :: EM_ROOM <= |f| ==> Get(h, ScalarKey4(f)) == LastRule(rules, FiveTuple4(f), i, c)
    {
      if !OutEnabled(rules[i].ifOut, c) {
        continue;
      }
      ghost var before := h;
      h := h[Convert4(rules[i].key) := rules[i].ifOut];
      forall f: seq<uint8> | EM_ROOM <= |f|
        ensures Get(h, ScalarKey4(f)) == LastRule(rules, FiveTuple4(f), i + 1, c)
      {
        KeyExactly4(f, rules[i].key);
        assert Get(before, ScalarKey4(f)) == LastRule(rules, FiveTuple4(f), i, c);
      }
    }
  }

  // populate_ipv6_flow_into_table
  method PopulateIpv6(rules: seq<EmRule<Tuple6>>, c: Config) returns (h: map<(Xmm, Xmm, Xmm), uint8>)
    ensures forall f: seq<uint8> :: EM_ROOM <= |f| ==> Get(h, ScalarKey6(f)) == LastRule(rules, FiveTuple6(f), |rules|, c)
  {
    h := map[];
    for i := 0 to |rules|
      invariant forall f: seq<uint8> :: EM_ROOM <= |f| ==> Get(h, ScalarKey6(f)) == LastRule(rules, FiveTuple6(f), i, c)
    {
      if !OutEnabled(rules[i].ifOut, c) {
        continue;
      }
      ghost var before := h;
      h := h[Convert6(rules[i].key) := rules[i].ifOut];
      forall f: seq<uint8> | EM_ROOM <= |f|
        ensures Get(h, ScalarKey6(f)) == LastRule(rules, FiveTuple6(f), i + 1, c)
      {
        KeyExactly6(f, rules[i].key);
        assert Get(before, ScalarKey6(f)) == LastRule(rules, FiveTuple6(f), i, c);
      }
    }
  }

  // The tables answer what was put into them.
  ghost predicate Filled(t: EmTables, h4: map<Xmm, uint8>, h6: map<(Xmm, Xmm, Xmm), uint8>) {
    && (forall k: Xmm :: (match t.hash4(k) case Some(ret) => Some(t.out4(ret)) case None => None) == Get(h4, k))
    && (forall k: (Xmm, Xmm, Xmm) ::
          (match t.hash6(k.0, k.1, k.2) case Some(ret) => Some(t.out6(ret)) case None => None) == Get(h6, k))
  }

  // The port the rules give a frame, from its bytes: TCP or UDP over IPv4 without options, or
  // over IPv6, goes by its five-tuple to the last rule with an enabled port, and to no port
  // that is not enabled; everything else goes back to the receiving port.
  ghost function RulePort(f: seq<uint8>, portid: uint16, rules4: seq<EmRule<Tuple4>>, rules6: seq<EmRule<Tuple6>>, c: Config): uint16
    requires EM_ROOM <= |f|
  {
    var rule := if EtherType(f) == 0x0800 && V4Words(f) == 5 && V4Protocol(f) in {6, 17} then
                  LastRule(rules4, FiveTuple4(f), |rules4|, c)
                else if EtherType(f) == 0x86DD && V6NextHeader(f) in {6, 17} then
                  LastRule(rules6, FiveTuple6(f), |rules6|, c)
                else None;
    if rule.Some? && rule.value < 32 then rule.value else portid
  }

  // Rule i has key k and names an enabled port below 32.
  ghost predicate Serves<K>(rules: seq<EmRule<K>>, i: nat, k: K, c: Config) {
    i < |rules| && rules[i].key == k && rules[i].ifOut < 32 && PortEnabled(c.enabledPortMask, rules[i].ifOut)
  }

  // A port below 32 decides exactly when it is that of a serving rule after which none serves,
  // if no rule names a port from 32 on. So a rule whose port is not enabled never decides.
  lemma {:induction false} LastServes<K>(rules: seq<EmRule<K>>, k: K, n: nat, c: Config)
    requires n <= |rules| && forall i :: 0 <= i < n ==> rules[i].ifOut < 32
    ensures var out := LastRule(rules, k, n, c);
            && (out.None? <==> forall i :: 0 <= i < n ==> !Serves(rules, i, k, c))
            && (out.Some? ==> exists i :: 0 <= i < n && Serves(rules, i, k, c) && rules[i].ifOut == out.value
                                          && forall j :: i < j < n ==> !Serves(rules, j, k, c))
  {
    if n == 0 {
    } else {
      LastServes(rules, k, n - 1, c);
      assert Serves(rules, n - 1, k, c) <==> rules[n - 1].key == k && OutEnabled(rules[n - 1].ifOut, c);
    }
  }

  lemma {:induction false} OnlyEnabled<K>(rules: seq<EmRule<K>>, k: K, n: nat, c: Config)
    requires n <= |rules|
    ensures var out := LastRule(rules, k, n, c);
            out.Some? && out.value < 32 ==> PortEnabled(c.enabledPortMask, out.value)
  {
    if n == 0 {
    } else {
      OnlyEnabled(rules, k, n - 1, c);
    }
  }

  // From the rules to the ports: with the tables filled from the rules, every packet of a
  // burst whose types the parser wrote gets the port the rules give its own bytes.
  lemma RulesDecide(vs: seq<Packet>, i: nat, portid: uint16, t: EmTables, c: Config, rules4: seq<EmRule<Tuple4>>,
                    rules6: seq<EmRule<Tuple6>>, h4: map<Xmm, uint8>, h6: map<(Xmm, Xmm, Xmm), uint8>)
    requires EmRoomy(vs) && forall k :: 0 <= k < |vs| ==> vs[k].ptype == EmParsePtype(vs[k].bytes)
    requires i < |vs| && Filled(t, h4, h6)
    requires forall f: seq<uint8> :: EM_ROOM <= |f| ==> Get(h4, ScalarKey4(f)) == LastRule(rules4, FiveTuple4(f), |rules4|, c)
    requires forall f: seq<uint8> :: EM_ROOM <= |f| ==> Get(h6, ScalarKey6(f)) == LastRule(rules6, FiveTuple6(f), |rules6|, c)
    ensures EmBurstPort(vs, i, portid, t, c) == RulePort(vs[i].bytes, portid, rules4, rules6, c)
  {
    EmRefines(vs, i, portid, t, c);
    var f := vs[i].bytes;
    ParsedExactly(f);
    assert Get(h4, ScalarKey4(f)) == LastRule(rules4, FiveTuple4(f), |rules4|, c);
    assert Get(h6, ScalarKey6(f)) == LastRule(rules6, FiveTuple6(f), |rules6|, c);
    OnlyEnabled(rules4, FiveTuple4(f), |rules4|, c);
    OnlyEnabled(rules6, FiveTuple6(f), |rules6|, c);
  }
}
