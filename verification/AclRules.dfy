// l3fwd/l3fwd_acl.c: loading a rule file, and what classification then means.
module AclRules {
  import opened Words
  import opened Headers
  import opened LpmClassify
  import opened PortMask
  import opened AclClassify

  // The fields of a rule; whether they match a packet is the classifier's business.
  datatype Pattern = Pattern(fields: seq<(uint32, uint32)>)

  // A line of the rule file as the loader sees it.
  datatype Line =
    | Bypass                           // blank or a comment
    | Route(pat: Pattern, fwd: uint32) // 'R', with a port to forward to
    | Deny(pat: Pattern)               // '@'
    | Unparsable(isRoute: bool)        // 'R' or '@' and then something the parser rejects
    | Illegal                          // any other leading character

  datatype Rule = Rule(pat: Pattern, userdata: uint32, priority: int)

  const ACL_DENY_SIGNATURE: uint32 := 0xf000_0000
  const MAX_ACL_RULE_NUM: nat := 100000
  // From rte_acl.h.
  const RTE_ACL_MAX_PRIORITY: int := 0x1FFF_FFFF

  datatype Loaded = Exit | Loaded(acl: seq<Rule>, route: seq<Rule>)

  predicate IsRule(l: Line) { l.Route? || l.Deny? }

  // How many of the first n lines satisfy a test.
  function Rules(lines: seq<Line>, n: nat): nat
    requires n <= |lines|
  {
    if n == 0 then 0 else Rules(lines, n - 1) + if IsRule(lines[n - 1]) then 1 else 0
  }

  function Denies(lines: seq<Line>, n: nat): nat
    requires n <= |lines|
  {
    if n == 0 then 0 else Denies(lines, n - 1) + if lines[n - 1].Deny? then 1 else 0
  }

  function Add32(x: uint32, y: nat): uint32 {
    var s: int := x + y;
    s % 0x1_0000_0000
  }

  // The rule that line i becomes.
  function RuleAt(lines: seq<Line>, i: nat): Rule
    requires i < |lines| && IsRule(lines[i])
  {
    Rule(lines[i].pat,
         if lines[i].Route? then Add32(lines[i].fwd, FWD_PORT_SHIFT)
         else Add32(ACL_DENY_SIGNATURE, Denies(lines, i)),
         RTE_ACL_MAX_PRIORITY - Rules(lines, i))
  }

  function RoutesOf(lines: seq<Line>, n: nat): seq<Rule>
    requires n <= |lines|
  {
    if n == 0 then []
    else RoutesOf(lines, n - 1) + if lines[n - 1].Route? then [RuleAt(lines, n - 1)] else []
  }

  function DeniesOf(lines: seq<Line>, n: nat): seq<Rule>
    requires n <= |lines|
  {
    if n == 0 then []
    else DeniesOf(lines, n - 1) + if lines[n - 1].Deny? then [RuleAt(lines, n - 1)] else []
  }

  // (enabled_port_mask & (1 << fwd)) != 0, with the shift count taken modulo 32.
  predicate FwdEnabled(mask: bv32, fwd: uint32) { PortEnabled(mask, fwd % 32) }

  // A port below 32 may be forwarded to exactly if it is enabled.
  lemma FwdEnabledExactly(mask: bv32, fwd: uint32)
    requires fwd < 32
    ensures FwdEnabled(mask, fwd) <==> PortEnabled(mask, fwd)
  {}

  // Line i does not make the loader exit.
  predicate LineOk(l: Line, mask: bv32) {
    l.Bypass? || l.Deny? || (l.Route? && FwdEnabled(mask, l.fwd))
  }

  ghost predicate Acceptable(lines: seq<Line>, mask: bv32) {
    && (forall i :: 0 <= i < |lines| ==> LineOk(lines[i], mask))
    && (exists i :: 0 <= i < |lines| && lines[i].Route?)
  }

  // A file is refused for a route to a disabled port below 32, and whatever else is in it;
  // with all ports below 32 it is accepted exactly if it has a route, every line parses and
  // every route's port is enabled.
  lemma DisabledRefused(lines: seq<Line>, mask: bv32)
    ensures forall i :: 0 <= i < |lines| && lines[i].Route? && lines[i].fwd < 32 && !PortEnabled(mask, lines[i].fwd)
              ==> !Acceptable(lines, mask)
    ensures (forall i :: 0 <= i < |lines| && lines[i].Route? ==> lines[i].fwd < 32)
            ==> (Acceptable(lines, mask)
                 <==> (exists i :: 0 <= i < |lines| && lines[i].Route?)
                      && (forall i :: 0 <= i < |lines| ==>
                            lines[i].Bypass? || lines[i].Deny? || (lines[i].Route? && PortEnabled(mask, lines[i].fwd))))
  {
    forall i | 0 <= i < |lines| && lines[i].Route? && lines[i].fwd < 32
      ensures LineOk(lines[i], mask) <==> PortEnabled(mask, lines[i].fwd)
    {
      FwdEnabledExactly(mask, lines[i].fwd);
    }
  }

  // The leading character is 'R', or is '@'.
  predicate Leads(l: Line, isRoute: bool) {
    if isRoute then l.Route? || l == Unparsable(true) else l.Deny? || l == Unparsable(false)
  }

  function LeadCount(lines: seq<Line>, isRoute: bool, n: nat): nat
    requires n <= |lines|
  {
    if n == 0 then 0 else LeadCount(lines, isRoute, n - 1) + if Leads(lines[n - 1], isRoute) then 1 else 0
  }

  // The first pass: lines by their leading character.
  method CountLines(lines: seq<Line>) returns (routeNum: nat, aclNum: nat)
    ensures routeNum == LeadCount(lines, true, |lines|) && aclNum == LeadCount(lines, false, |lines|)
  {
    routeNum, aclNum := 0, 0;
    for k := 0 to |lines|
      invariant routeNum == LeadCount(lines, true, k) && aclNum == LeadCount(lines, false, k)
    {
      if Leads(lines[k], true) {
        routeNum := routeNum + 1;
      } else if Leads(lines[k], false) {
        aclNum := aclNum + 1;
      }
    }
  }

  // The first pass reserves room for every rule of the second.
  lemma {:induction false} RoomForRules(lines: seq<Line>, i: nat, n: nat)
    requires i < n <= |lines|
    ensures |RoutesOf(lines, i)| + (if lines[i].Route? then 1 else 0) <= LeadCount(lines, true, n)
    ensures |DeniesOf(lines, i)| + (if lines[i].Deny? then 1 else 0) <= LeadCount(lines, false, n)
    decreases n
  {
    if i < n - 1 {
      RoomForRules(lines, i, n - 1);
    } else if i > 0 {
      RoomForRules(lines, i - 1, i);
    }
  }

  lemma {:induction false} NoLeads(lines: seq<Line>, n: nat)
    requires n <= |lines|
    ensures LeadCount(lines, true, n) == 0 <==> forall i :: 0 <= i < n ==> !Leads(lines[i], true)
  {
    if n == 0 {
    } else {
      NoLeads(lines, n - 1);
    }
  }

  // On a file without a bad line the first pass has counted the denials.
  lemma {:induction false} AclNumCounts(lines: seq<Line>, mask: bv32, n: nat)
    requires n <= |lines| && forall i :: 0 <= i < n ==> LineOk(lines[i], mask)
    ensures LeadCount(lines, false, n) == |DeniesOf(lines, n)|
  {
    if n == 0 {
    } else {
      AclNumCounts(lines, mask, n - 1);
    }
  }

  // acl_add_rules. It succeeds exactly on acceptable files, with the rules in line order.
  method AclAddRules(lines: seq<Line>, mask: bv32) returns (r: Loaded)
    ensures r.Loaded? <==> Acceptable(lines, mask)
    ensures r.Loaded? ==> r.acl == DeniesOf(lines, |lines|) && r.route == RoutesOf(lines, |lines|)
  {
    var routeNum, aclNum := CountLines(lines);
    NoLeads(lines, |lines|);
    if routeNum == 0 {
      return Exit;
    }
    var blank := Rule(Pattern([]), 0, 0);
    var aclRules, routeRules := new Rule[aclNum](_ => blank), new Rule[routeNum](_ => blank);
    var aclCnt, routeCnt, totalNum := 0, 0, 0;
    for i := 0 to |lines|
      invariant forall k :: 0 <= k < i ==> LineOk(lines[k], mask)
      invariant totalNum == Rules(lines, i) && aclCnt == Denies(lines, i)
      invariant aclCnt <= aclNum && aclRules[..aclCnt] == DeniesOf(lines, i)
      invariant routeCnt <= routeNum && routeCnt == |RoutesOf(lines, i)| && routeRules[..routeCnt] == RoutesOf(lines, i)
    {
      var l := lines[i];
      RoomForRules(lines, i, |lines|);
      match l {
        case Bypass => continue;
        case Illegal => return Exit;
        case Unparsable(_) => return Exit;
        case Route(pat, fwd) =>
          if !FwdEnabled(mask, fwd) {
            return Exit;
          }
          routeRules[routeCnt] := Rule(pat, Add32(fwd, FWD_PORT_SHIFT), RTE_ACL_MAX_PRIORITY - totalNum);
          routeCnt := routeCnt + 1;
        case Deny(pat) =>
          aclRules[aclCnt] := Rule(pat, Add32(ACL_DENY_SIGNATURE, aclCnt), RTE_ACL_MAX_PRIORITY - totalNum);
          aclCnt := aclCnt + 1;
      }
      totalNum := totalNum + 1;
    }
    AclNumCounts(lines, mask, |lines|);
    r := Loaded(aclRules[..aclNum], routeRules[..routeCnt]);
  }

  // ---------------------------------------------------------------- classification

  // Rule k matches, and no matching rule has a higher priority.
  ghost predicate Top(rules: seq<Rule>, matches: (Pattern, seq<uint8>) -> bool, key: seq<uint8>, k: nat) {
    && k < |rules| && matches(rules[k].pat, key)
    && forall j :: 0 <= j < |rules| && matches(rules[j].pat, key) ==> rules[j].priority <= rules[k].priority
  }

  // res is the user data of a matching rule of the highest priority, or 0 if none matches.
  ghost predicate HighestPriority(rules: seq<Rule>, matches: (Pattern, seq<uint8>) -> bool, key: seq<uint8>, res: uint32) {
    || (res == 0 && forall k :: 0 <= k < |rules| ==> !matches(rules[k].pat, key))
    || (exists k: nat :: Top(rules, matches, key, k) && rules[k].userdata == res)
  }

  // Line i is the first rule line that matches.
  ghost predicate FirstMatch(lines: seq<Line>, matches: (Pattern, seq<uint8>) -> bool, key: seq<uint8>, i: nat) {
    && i < |lines| && IsRule(lines[i]) && matches(lines[i].pat, key)
    && forall k :: 0 <= k < i && IsRule(lines[k]) ==> !matches(lines[k].pat, key)
  }

  // If any rule line matches, one of them is the first.
  lemma {:induction false} SomeLineFirst(lines: seq<Line>, matches: (Pattern, seq<uint8>) -> bool, key: seq<uint8>, n: nat)
    returns (i: nat)
    requires n <= |lines| && exists k :: 0 <= k < n && IsRule(lines[k]) && matches(lines[k].pat, key)
    ensures i < n && FirstMatch(lines, matches, key, i)
  {
    if exists k :: 0 <= k < n - 1 && IsRule(lines[k]) && matches(lines[k].pat, key) {
      i := SomeLineFirst(lines, matches, key, n - 1);
    } else {
      i := n - 1;
    }
  }

  lemma {:induction false} RulesMonotone(lines: seq<Line>, i: nat, j: nat)
    requires i < j <= |lines|
    ensures Rules(lines, i) + (if IsRule(lines[i]) then 1 else 0) <= Rules(lines, j)
    decreases j
  {
    if i == j - 1 {
    } else {
      RulesMonotone(lines, i, j - 1);
    }
  }

  // Every loaded rule is some line's.
  lemma {:induction false} LineOfRoute(lines: seq<Line>, n: nat, k: nat) returns (i: nat)
    requires n <= |lines| && k < |RoutesOf(lines, n)|
    ensures i < n && lines[i].Route? && RoutesOf(lines, n)[k] == RuleAt(lines, i)
  {
    if k < |RoutesOf(lines, n - 1)| {
      i := LineOfRoute(lines, n - 1, k);
    } else {
      i := n - 1;
    }
  }

  lemma {:induction false} LineOfDeny(lines: seq<Line>, n: nat, k: nat) returns (i: nat)
    requires n <= |lines| && k < |DeniesOf(lines, n)|
    ensures i < n && lines[i].Deny? && DeniesOf(lines, n)[k] == RuleAt(lines, i)
  {
    if k < |DeniesOf(lines, n - 1)| {
      i := LineOfDeny(lines, n - 1, k);
    } else {
      i := n - 1;
    }
  }

  // Every rule line is loaded.
  lemma {:induction false} RouteLoaded(lines: seq<Line>, n: nat, i: nat) returns (k: nat)
    requires i < n <= |lines| && lines[i].Route?
    ensures k < |RoutesOf(lines, n)| && RoutesOf(lines, n)[k] == RuleAt(lines, i)
    decreases n
  {
    if i < n - 1 {
      k := RouteLoaded(lines, n - 1, i);
    } else {
      k := |RoutesOf(lines, i)|;
    }
  }

  lemma {:induction false} DenyLoaded(lines: seq<Line>, n: nat, i: nat) returns (k: nat)
    requires i < n <= |lines| && lines[i].Deny?
    ensures k < |DeniesOf(lines, n)| && DeniesOf(lines, n)[k] == RuleAt(lines, i)
    decreases n
  {
    if i < n - 1 {
      k := DenyLoaded(lines, n - 1, i);
    } else {
      k := |DeniesOf(lines, i)|;
    }
  }

  lemma LineLoaded(lines: seq<Line>, i: nat) returns (k: nat)
    requires i < |lines| && IsRule(lines[i])
    ensures k < |RoutesOf(lines, |lines|) + DeniesOf(lines, |lines|)|
    ensures (RoutesOf(lines, |lines|) + DeniesOf(lines, |lines|))[k] == RuleAt(lines, i)
  {
    if lines[i].Route? {
      k := RouteLoaded(lines, |lines|, i);
    } else {
      var c := DenyLoaded(lines, |lines|, i);
      k := |RoutesOf(lines, |lines|)| + c;
    }
  }

  lemma LineOf(lines: seq<Line>, k: nat) returns (i: nat)
    requires k < |RoutesOf(lines, |lines|) + DeniesOf(lines, |lines|)|
    ensures i < |lines| && IsRule(lines[i])
    ensures (RoutesOf(lines, |lines|) + DeniesOf(lines, |lines|))[k] == RuleAt(lines, i)
  {
    var routes := |RoutesOf(lines, |lines|)|;
    if k < routes {
      i := LineOfRoute(lines, |lines|, k);
    } else {
      i := LineOfDeny(lines, |lines|, k - routes);
    }
  }

  // Of two rule lines the earlier has the higher priority.
  lemma EarlierIsHigher(lines: seq<Line>, i: nat, l: nat)
    requires i < |lines| && l < |lines| && IsRule(lines[i]) && IsRule(lines[l])
    requires RuleAt(lines, i).priority <= RuleAt(lines, l).priority
    ensures l <= i
  {
    if i < l { RulesMonotone(lines, i, l); }
  }

  // The best rule among routes and denials together is the first matching line's.
  lemma FirstLineWins(lines: seq<Line>, rules: seq<Rule>, matches: (Pattern, seq<uint8>) -> bool, key: seq<uint8>, res: uint32, i: nat)
    requires rules == RoutesOf(lines, |lines|) + DeniesOf(lines, |lines|)
    requires HighestPriority(rules, matches, key, res)
    requires FirstMatch(lines, matches, key, i)
    ensures res == RuleAt(lines, i).userdata
  {
    var j := LineLoaded(lines, i);
    assert rules[j] == RuleAt(lines, i) && matches(rules[j].pat, key);
    var k: nat :| Top(rules, matches, key, k) && rules[k].userdata == res;
    var l := LineOf(lines, k);
    TopIsFirst(lines, rules, matches, key, i, j, l, k);
  }

  lemma TopIsFirst(lines: seq<Line>, rules: seq<Rule>, matches: (Pattern, seq<uint8>) -> bool, key: seq<uint8>,
                   i: nat, j: nat, l: nat, k: nat)
    requires FirstMatch(lines, matches, key, i) && Top(rules, matches, key, k)
    requires j < |rules| && rules[j] == RuleAt(lines, i)
    requires l < |lines| && IsRule(lines[l]) && rules[k] == RuleAt(lines, l)
    ensures l == i
  {
    assert RuleAt(lines, l).pat == lines[l].pat && RuleAt(lines, i).pat == lines[i].pat;
    EarlierIsHigher(lines, i, l);
  }

  // No matching line, no matching rule.
  lemma NoLineNoRule(lines: seq<Line>, matches: (Pattern, seq<uint8>) -> bool, key: seq<uint8>, res: uint32)
    requires HighestPriority(RoutesOf(lines, |lines|) + DeniesOf(lines, |lines|), matches, key, res)
    requires forall i :: 0 <= i < |lines| && IsRule(lines[i]) ==> !matches(lines[i].pat, key)
    ensures res == 0
  {
    var rules := RoutesOf(lines, |lines|) + DeniesOf(lines, |lines|);
    forall k | 0 <= k < |rules|
      ensures !matches(rules[k].pat, key)
    {
      var l := LineOf(lines, k);
    }
  }

  lemma {:induction false} DeniesAtMost(lines: seq<Line>, n: nat)
    requires n <= |lines|
    ensures Denies(lines, n) <= Rules(lines, n) && Denies(lines, n) == |DeniesOf(lines, n)|
  {
    if n == 0 {
    } else {
      DeniesAtMost(lines, n - 1);
    }
  }

  // End to end, for a classifier that picks a rule of the highest priority among the rules
  // of an accepted file: the hop is the port of the first matching line if that line is a
  // route, exactly when that port fits in 16 bits, and BAD_PORT if it denies or if no line
  // matches. Line order decides, whichever kind the lines are.
  lemma HopOfFirstLine(lines: seq<Line>, matches: (Pattern, seq<uint8>) -> bool, key: seq<uint8>, res: uint32)
    requires Rules(lines, |lines|) <= MAX_ACL_RULE_NUM
    requires HighestPriority(RoutesOf(lines, |lines|) + DeniesOf(lines, |lines|), matches, key, res)
    ensures forall i: nat :: FirstMatch(lines, matches, key, i) && lines[i].Route?
              ==> (Decode(res) == lines[i].fwd <==> lines[i].fwd <= 0xFFFF)
    ensures forall i: nat :: FirstMatch(lines, matches, key, i) && lines[i].Deny? ==> Decode(res) == BAD_PORT
    ensures (forall i :: 0 <= i < |lines| && IsRule(lines[i]) ==> !matches(lines[i].pat, key)) ==> Decode(res) == BAD_PORT
  {
    forall i: nat | FirstMatch(lines, matches, key, i)
      ensures lines[i].Route? ==> (Decode(res) == lines[i].fwd <==> lines[i].fwd <= 0xFFFF)
      ensures lines[i].Deny? ==> Decode(res) == BAD_PORT
    {
      FirstLineWins(lines, RoutesOf(lines, |lines|) + DeniesOf(lines, |lines|), matches, key, res, i);
      DecodedLine(lines, i);
    }
    if forall i :: 0 <= i < |lines| && IsRule(lines[i]) ==> !matches(lines[i].pat, key) {
      NoLineNoRule(lines, matches, key, res);
    }
  }

  // What the user data of one line's rule decodes to.
  lemma DecodedLine(lines: seq<Line>, i: nat)
    requires Rules(lines, |lines|) <= MAX_ACL_RULE_NUM && i < |lines| && IsRule(lines[i])
    ensures lines[i].Route? ==> (Decode(RuleAt(lines, i).userdata) == lines[i].fwd <==> lines[i].fwd <= 0xFFFF)
    ensures lines[i].Deny? ==> Decode(RuleAt(lines, i).userdata) == BAD_PORT
    ensures lines[i].Deny? ==> RuleAt(lines, i).userdata == 0xf000_0000 + Denies(lines, i)
  {
    DeniesAtMost(lines, i);
    RulesMonotone(lines, i, |lines|);
    if lines[i].Deny? {
      DenyData(Denies(lines, i));
    } else {
      RouteData(lines[i].fwd);
    }
  }

  lemma DenyData(n: nat)
    requires n <= MAX_ACL_RULE_NUM
    ensures Decode(Add32(ACL_DENY_SIGNATURE, n)) == BAD_PORT
  {}

  lemma RouteData(fwd: uint32)
    ensures Decode(Add32(fwd, FWD_PORT_SHIFT)) == fwd <==> fwd <= 0xFFFF
  {}

  // ---------------------------------------------------------------- the count of BAD_PORT hops

  // A route to such a port looks like BAD_PORT once decoded.
  predicate DisguisedFwd(fwd: uint32) { fwd % 0x1_0000 == 0xFFFF && fwd < 0x0FFF_FFFF }

  // An earlier rule line has the same pattern, so line i is never the first to match.
  ghost predicate Shadowed(lines: seq<Line>, i: nat)
    requires i < |lines| && IsRule(lines[i])
  {
    exists j :: 0 <= j < i && IsRule(lines[j]) && lines[j].pat == lines[i].pat
  }

  ghost predicate CountSafe(lines: seq<Line>) {
    forall i :: 0 <= i < |lines| && lines[i].Route? && DisguisedFwd(lines[i].fwd) ==> Shadowed(lines, i)
  }

  // A file the loader accepts and that is not safe, wherever port 31 is enabled.
  lemma UnsafeFile(mask: bv32, pat: Pattern)
    requires PortEnabled(mask, 31)
    ensures Acceptable([Route(pat, 0xFFFF)], mask) && !CountSafe([Route(pat, 0xFFFF)])
  {
    var lines := [Route(pat, 0xFFFF)];
    assert lines[0].Route? && DisguisedFwd(lines[0].fwd) && !Shadowed(lines, 0);
  }

  // The classifier answers by the rules of the file, under some meaning of patterns.
  ghost predicate Serves(lines: seq<Line>, matches: (Pattern, seq<uint8>) -> bool, cls: seq<uint8> -> uint32) {
    forall key :: HighestPriority(RoutesOf(lines, |lines|) + DeniesOf(lines, |lines|), matches, key, cls(key))
  }

  lemma DisguisedLine(lines: seq<Line>, i: nat)
    requires Rules(lines, |lines|) <= MAX_ACL_RULE_NUM && i < |lines| && IsRule(lines[i])
    ensures Disguised(RuleAt(lines, i).userdata) <==> lines[i].Route? && DisguisedFwd(lines[i].fwd)
  {
    DeniesAtMost(lines, i);
    RulesMonotone(lines, i, |lines|);
    if lines[i].Route? {
      DisguisedRoute(lines[i].fwd);
    }
  }

  lemma DisguisedRoute(fwd: uint32)
    ensures Disguised(Add32(fwd, FWD_PORT_SHIFT)) <==> DisguisedFwd(fwd)
  {
    assert fwd == 0x1_0000 * (fwd / 0x1_0000) + fwd % 0x1_0000;
  }

  // Of a safe file no answer is disguised.
  lemma SafeAnswers(lines: seq<Line>, matches: (Pattern, seq<uint8>) -> bool, key: seq<uint8>, res: uint32)
    requires Rules(lines, |lines|) <= MAX_ACL_RULE_NUM && CountSafe(lines)
    requires HighestPriority(RoutesOf(lines, |lines|) + DeniesOf(lines, |lines|), matches, key, res)
    ensures !Disguised(res)
  {
    var rules := RoutesOf(lines, |lines|) + DeniesOf(lines, |lines|);
    if res != 0 {
      var k: nat :| Top(rules, matches, key, k) && rules[k].userdata == res;
      var i := LineOf(lines, k);
      DisguisedLine(lines, i);
      if Disguised(res) {
        var j :| 0 <= j < i && IsRule(lines[j]) && lines[j].pat == lines[i].pat;
        var h := LineLoaded(lines, j);
        assert matches(rules[h].pat, key);
        EarlierIsHigher(lines, j, i);
      }
    }
  }

  // A line that is not shadowed decides, if patterns only match where it does.
  lemma Decides(lines: seq<Line>, i: nat) returns (matches: (Pattern, seq<uint8>) -> bool, cls: seq<uint8> -> uint32)
    requires i < |lines| && IsRule(lines[i]) && !Shadowed(lines, i)
    ensures Serves(lines, matches, cls) && forall key :: cls(key) == RuleAt(lines, i).userdata
  {
    var rules := RoutesOf(lines, |lines|) + DeniesOf(lines, |lines|);
    matches := (p: Pattern, _) => p == lines[i].pat;
    cls := _ => RuleAt(lines, i).userdata;
    var k := LineLoaded(lines, i);
    forall j | 0 <= j < |rules| && rules[j].pat == lines[i].pat
      ensures rules[j].priority <= rules[k].priority
    {
      var l := LineOf(lines, j);
      assert !(l < i);
      if i < l { RulesMonotone(lines, i, l); }
    }
    forall key
      ensures HighestPriority(rules, matches, key, cls(key))
    {
      assert Top(rules, matches, key, k);
    }
  }

  lemma NothingMatches(lines: seq<Line>) returns (matches: (Pattern, seq<uint8>) -> bool, cls: seq<uint8> -> uint32)
    ensures Serves(lines, matches, cls)
  {
    matches, cls := (_, _) => false, _ => 0;
  }

  // acl_process_pkts counts the BAD_PORT hops of a burst, for the answers of these classifiers.
  ghost predicate CountsRight(vs: seq<Packet>, c: Classifiers) {
    AllRoomy(vs) ==> Drops(vs, c, |vs|) == BadHops(vs, c, |vs|)
  }

  // For the rules of the two files, whatever their patterns mean, the answer of
  // acl_process_pkts is the number of BAD_PORT hops of every burst exactly when every route to
  // a disguised port stands behind a line with the same pattern.
  lemma CountExactlyByFile(lines4: seq<Line>, lines6: seq<Line>)
    requires Rules(lines4, |lines4|) <= MAX_ACL_RULE_NUM && Rules(lines6, |lines6|) <= MAX_ACL_RULE_NUM
    ensures (forall m4, m6, c: Classifiers, vs :: Serves(lines4, m4, c.v4) && Serves(lines6, m6, c.v6) ==> CountsRight(vs, c))
            <==> CountSafe(lines4) && CountSafe(lines6)
  {
    if CountSafe(lines4) && CountSafe(lines6) {
      forall m4, m6, c: Classifiers, vs | Serves(lines4, m4, c.v4) && Serves(lines6, m6, c.v6)
        ensures CountsRight(vs, c)
      {
        SafeCounts(lines4, lines6, m4, m6, c, vs);
      }
    } else if !CountSafe(lines4) {
      var i :| 0 <= i < |lines4| && lines4[i].Route? && DisguisedFwd(lines4[i].fwd) && !Shadowed(lines4, i);
      var m4, v4 := Decides(lines4, i);
      var m6, v6 := NothingMatches(lines6);
      DisguisedLine(lines4, i);
      Miscounted(RTE_PTYPE_L3_IPV4, Classifiers(v4, v6));
    } else {
      var i :| 0 <= i < |lines6| && lines6[i].Route? && DisguisedFwd(lines6[i].fwd) && !Shadowed(lines6, i);
      var m4, v4 := NothingMatches(lines4);
      var m6, v6 := Decides(lines6, i);
      DisguisedLine(lines6, i);
      Miscounted(RTE_PTYPE_L3_IPV6, Classifiers(v4, v6));
    }
  }

  lemma SafeCounts(lines4: seq<Line>, lines6: seq<Line>, m4: (Pattern, seq<uint8>) -> bool, m6: (Pattern, seq<uint8>) -> bool,
                   c: Classifiers, vs: seq<Packet>)
    requires Rules(lines4, |lines4|) <= MAX_ACL_RULE_NUM && Rules(lines6, |lines6|) <= MAX_ACL_RULE_NUM
    requires CountSafe(lines4) && CountSafe(lines6) && Serves(lines4, m4, c.v4) && Serves(lines6, m6, c.v6)
    ensures CountsRight(vs, c)
  {
    if AllRoomy(vs) {
      forall i | 0 <= i < |vs|
        ensures !Disguised(Result(vs[i], c))
      {
        if IsIpv4Hdr(vs[i].ptype) {
          SafeAnswers(lines4, m4, Proto4(vs[i]), c.v4(Proto4(vs[i])));
        } else if IsIpv6Hdr(vs[i].ptype) {
          SafeAnswers(lines6, m6, Proto6(vs[i]), c.v6(Proto6(vs[i])));
        }
      }
      CountExactly(vs, c, |vs|);
    }
  }

  // One packet of a type whose classifier gives a disguised answer.
  lemma Miscounted(ptype: bv32, c: Classifiers)
    requires ptype == RTE_PTYPE_L3_IPV4 || ptype == RTE_PTYPE_L3_IPV6
    requires forall key :: Disguised(if ptype == RTE_PTYPE_L3_IPV4 then c.v4(key) else c.v6(key))
    ensures exists vs :: !CountsRight(vs, c)
  {
    var p := Packet(seq(MIN_ROOM, _ => 0), ptype);
    assert p.Roomy() && Disguised(Result(p, c));
    CountExactly([p], c, 1);
    assert !CountsRight([p], c);
  }
}
