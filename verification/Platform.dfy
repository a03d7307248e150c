// The cores and ports a program starts on.
module Platform {
  import opened Words

  const RTE_MAX_LCORE: nat := 128

  // struct lcore_rx_queue
  datatype RxQueue = RxQueue(port: uint16, queue: uint16)

  // What setup finds: the enabled cores, the port mask, the ports on the board.
  datatype Board = Board(lcores: set<nat>, mask: set<nat>, ports: set<nat>) {
    ghost predicate Valid() {
      && (forall l :: l in lcores ==> l < RTE_MAX_LCORE)
      && (forall p :: p in ports ==> p < RTE_MAX_ETHPORTS)
    }

    predicate Usable(p: nat) { p in mask && p in ports }
  }

  // The number of enabled cores below l.
  function Rank(lcores: set<nat>, l: nat): (r: nat)
    ensures r <= l
  {
    if l == 0 then 0 else Rank(lcores, l - 1) + if l - 1 in lcores then 1 else 0
  }

  // Later cores rank higher.
  lemma {:induction false} RankGrows(lcores: set<nat>, l: nat, m: nat)
    requires l < m
    ensures Rank(lcores, l) + (if l in lcores then 1 else 0) <= Rank(lcores, m)
  {
    if l + 1 == m {
    } else {
      RankGrows(lcores, l, m - 1);
    }
  }

  lemma RanksApart(lcores: set<nat>, l: nat, m: nat)
    requires l in lcores && m in lcores && l != m
    ensures Rank(lcores, l) != Rank(lcores, m)
  {
    if l < m {
      RankGrows(lcores, l, m);
    } else {
      RankGrows(lcores, m, l);
    }
  }

  // The enabled cores below n, in order.
  function LcoresBelow(lcores: set<nat>, n: nat): (r: seq<nat>)
    ensures |r| == Rank(lcores, n)
    ensures forall i :: 0 <= i < |r| ==> r[i] in lcores && r[i] < n && Rank(lcores, r[i]) == i
  {
    if n == 0 then []
    else LcoresBelow(lcores, n - 1) + if n - 1 in lcores then [n - 1] else []
  }

  // The usable ports below n, in order.
  function UsableBelow(b: Board, n: nat): (r: seq<uint16>)
    requires n <= RTE_MAX_ETHPORTS
    ensures |r| <= n
    ensures forall i :: 0 <= i < |r| ==> r[i] < n && b.Usable(r[i])
    ensures forall i, j :: 0 <= i < j < |r| ==> r[i] < r[j]
  {
    if n == 0 then []
    else if b.Usable(n - 1) then UsableBelow(b, n - 1) + [n - 1]
    else UsableBelow(b, n - 1)
  }

  lemma {:induction false} UsableListed(b: Board, n: nat, p: nat) returns (i: nat)
    requires p < n <= RTE_MAX_ETHPORTS && b.Usable(p)
    ensures i < |UsableBelow(b, n)| && UsableBelow(b, n)[i] == p
  {
    if p == n - 1 {
      i := |UsableBelow(b, p)|;
    } else {
      i := UsableListed(b, n - 1, p);
    }
  }

  // An earlier port stands earlier in the list.
  lemma {:induction false} UsableSoFar(b: Board, i: nat, n: nat)
    requires i <= n <= RTE_MAX_ETHPORTS
    ensures UsableBelow(b, i) <= UsableBelow(b, n)
  {
    if i == n {
    } else {
      UsableSoFar(b, i, n - 1);
    }
  }
}
