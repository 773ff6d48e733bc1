/** Disabling CPUs round-robin over the NUMA nodes of a machine. */
module DisableCpus {
  import opened Common

  /** An entry of /proc/cpuinfo: processor id, physical id and core id. */
  datatype Cpu = Cpu(id: nat, node: int, core: int)

  // ----- sorted() -----

  predicate Before(a: Cpu, b: Cpu) { a.core < b.core || (a.core == b.core && a.id <= b.id) }

  ghost predicate Sorted(cpus: seq<Cpu>) { forall i, j :: 0 <= i < j < |cpus| ==> Before(cpus[i], cpus[j]) }

  function InsertCpu(c: Cpu, cpus: seq<Cpu>): seq<Cpu> {
    if cpus == [] || Before(c, cpus[0]) then [c] + cpus else [cpus[0]] + InsertCpu(c, cpus[1..])
  }

  lemma {:induction false} InsertCpuAdds(c: Cpu, cpus: seq<Cpu>)
    ensures multiset(InsertCpu(c, cpus)) == multiset{c} + multiset(cpus)
  {
    if cpus != [] {
      assert cpus == [cpus[0]] + cpus[1..];
      if !Before(c, cpus[0]) {
        InsertCpuAdds(c, cpus[1..]);
      }
    }
  }

  lemma {:induction false} InsertCpuKeeps(c: Cpu, cpus: seq<Cpu>)
    requires Sorted(cpus)
    ensures Sorted(InsertCpu(c, cpus)) && multiset(InsertCpu(c, cpus)) == multiset{c} + multiset(cpus)
  {
    InsertCpuAdds(c, cpus);
    if cpus != [] && !Before(c, cpus[0]) {
      InsertCpuKeeps(c, cpus[1..]);
      var rest := InsertCpu(c, cpus[1..]);
      forall i | 0 <= i < |rest| ensures Before(cpus[0], rest[i]) {
        assert rest[i] in multiset(rest);
        assert rest[i] == c || rest[i] in cpus[1..];
      }
    }
  }

  /** sorted(cpus, key=(core id, cpu id)). */
  function SortCpus(cpus: seq<Cpu>): seq<Cpu> {
    if cpus == [] then [] else InsertCpu(cpus[0], SortCpus(cpus[1..]))
  }

  lemma {:induction false} SortCpusSorts(cpus: seq<Cpu>)
    ensures Sorted(SortCpus(cpus)) && multiset(SortCpus(cpus)) == multiset(cpus)
  {
    if cpus != [] {
      assert cpus == [cpus[0]] + cpus[1..];
      SortCpusSorts(cpus[1..]);
      InsertCpuKeeps(cpus[0], SortCpus(cpus[1..]));
    }
  }

  ghost predicate Falling(nodes: seq<int>) { forall i, j :: 0 <= i < j < |nodes| ==> nodes[i] > nodes[j] }

  /** One more node id in a strictly falling list, unless it is there already. */
  function InsertNode(n: int, nodes: seq<int>): seq<int> {
    if nodes == [] || n > nodes[0] then [n] + nodes
    else if n == nodes[0] then nodes
    else [nodes[0]] + InsertNode(n, nodes[1..])
  }

  lemma {:induction false} InsertNodeKeeps(n: int, nodes: seq<int>)
    requires Falling(nodes)
    ensures Falling(InsertNode(n, nodes)) && forall x :: x in InsertNode(n, nodes) <==> x == n || x in nodes
  {
    if nodes != [] && n < nodes[0] {
      assert nodes == [nodes[0]] + nodes[1..];
      InsertNodeKeeps(n, nodes[1..]);
      var rest := InsertNode(n, nodes[1..]);
      forall i | 0 <= i < |rest| ensures nodes[0] > rest[i] {
        assert rest[i] in rest;
      }
    }
  }

  /** sorted(cpu_mapping, reverse=True): the node ids that occur, highest first. */
  function NodesOf(cpus: seq<Cpu>): seq<int> {
    if cpus == [] then [] else InsertNode(cpus[0].node, NodesOf(cpus[1..]))
  }

  lemma {:induction false} NodesOfFalls(cpus: seq<Cpu>)
    ensures Falling(NodesOf(cpus)) && forall x :: x in NodesOf(cpus) <==> exists c :: c in cpus && c.node == x
  {
    if cpus != [] {
      assert cpus == [cpus[0]] + cpus[1..];
      NodesOfFalls(cpus[1..]);
      InsertNodeKeeps(cpus[0].node, NodesOf(cpus[1..]));
    }
  }

  function OnNode(cpus: seq<Cpu>, node: int): seq<Cpu> {
    if cpus == [] then [] else (if cpus[0].node == node then [cpus[0]] else []) + OnNode(cpus[1..], node)
  }

  /** Every CPU of the node, as often as it is listed, and no other. */
  lemma {:induction false} OnNodeHolds(cpus: seq<Cpu>, node: int, c: Cpu)
    ensures multiset(OnNode(cpus, node))[c] == if c.node == node then multiset(cpus)[c] else 0
  {
    if cpus != [] {
      assert cpus == [cpus[0]] + cpus[1..];
      OnNodeHolds(cpus[1..], node, c);
    }
  }

  /** The sorted CPUs of every node, highest node first. */
  function Lists(cpus: seq<Cpu>): (r: seq<seq<Cpu>>)
    ensures |r| == |NodesOf(cpus)| && forall i :: 0 <= i < |r| ==> r[i] == SortCpus(OnNode(cpus, NodesOf(cpus)[i]))
  {
    seq(|NodesOf(cpus)|, i requires 0 <= i < |NodesOf(cpus)| => SortCpus(OnNode(cpus, NodesOf(cpus)[i])))
  }

  // ----- The round-robin generator -----

  /** The turns, among the first n, that fall on the node of rank r. */
  ghost function Turns(n: nat, m: nat, r: nat): set<nat>
    requires m > 0
  {
    set k | k in Below(n) && k % m == r
  }

  /** Every node gets n / m turns, and the first n % m nodes one more. */
  lemma {:induction false} TurnCount(n: nat, m: nat, r: nat)
    requires r < m
    ensures |Turns(n, m, r)| == n / m + if r < n % m then 1 else 0
  {
    if n == 0 {
      assert Turns(n, m, r) == {};
      DivModUnique(0, m, 0, 0);
    } else {
      TurnCount(n - 1, m, r);
      var q, s := (n - 1) / m, (n - 1) % m;
      DivMod(n - 1, m);
      if s + 1 == m {
        OneMore(q, m);
        DivModUnique(n, m, q + 1, 0);
      } else {
        DivModUnique(n, m, q, s + 1);
      }
      assert Turns(n, m, r) == Turns(n - 1, m, r) + if s == r then {n - 1} else {};
    }
  }

  lemma TurnsAt(m: nat, round: nat, s: nat, r: nat)
    requires s <= m && r < m
    ensures |Turns(round * m + s, m, r)| == round + if r < s then 1 else 0
  {
    var n := round * m + s;
    TurnCount(n, m, r);
    if s < m {
      DivModUnique(n, m, round, s);
    } else {
      OneMore(round, m);
      DivModUnique(n, m, round + 1, 0);
    }
  }

  // ----- The generator -----

  /** How many CPUs node r has lost by turn s of a round. */
  function Taken(round: nat, s: nat, r: nat): nat { round + if r < s then 1 else 0 }

  /** No pop has failed before turn s of a round. */
  predicate NoneEmpty(lists: seq<seq<Cpu>>, round: nat, s: nat) {
    forall r :: 0 <= r < |lists| ==> Taken(round, s, r) <= |lists[r]|
  }

  function Lasting(lists: seq<seq<Cpu>>, round: nat, s: nat): (r: seq<seq<Cpu>>)
    requires NoneEmpty(lists, round, s)
    ensures |r| == |lists|
    ensures forall k :: 0 <= k < |r| ==> r[k] == lists[k][..|lists[k]| - Taken(round, s, k)]
  {
    seq(|lists|, r requires 0 <= r < |lists| => lists[r][..|lists[r]| - Taken(round, s, r)])
  }

  /** The CPUs yielded before turn s of a round, in order. */
  function Yields(lists: seq<seq<Cpu>>, round: nat, s: nat): seq<nat>
    requires s <= |lists| && NoneEmpty(lists, round, s)
    decreases round, s
  {
    if s > 0 then
      assert NoneEmpty(lists, round, s - 1) by { assert forall r :: 0 <= r < |lists| ==> Taken(round, s - 1, r) <= Taken(round, s, r); }
      assert Taken(round, s, s - 1) == round + 1;
      Yields(lists, round, s - 1) + [lists[s - 1][|lists[s - 1]| - 1 - round].id]
    else if round > 0 then
      assert NoneEmpty(lists, round - 1, |lists|) by {
        assert forall r :: 0 <= r < |lists| ==> Taken(round - 1, |lists|, r) == Taken(round, 0, r);
      }
      Yields(lists, round - 1, |lists|)
    else []
  }

  lemma PopStep(lists: seq<seq<Cpu>>, round: nat, s: nat)
    requires s < |lists| && NoneEmpty(lists, round, s)
    ensures Lasting(lists, round, s)[s] == [] <==> |lists[s]| == round
    ensures |lists[s]| > round ==>
              var last := Lasting(lists, round, s)[s];
              && NoneEmpty(lists, round, s + 1)
              && Lasting(lists, round, s + 1) == Lasting(lists, round, s)[s := last[..|last| - 1]]
              && Yields(lists, round, s + 1) == Yields(lists, round, s) + [last[|last| - 1].id]
  {
    if |lists[s]| > round {
      assert forall r :: 0 <= r < |lists| ==> Taken(round, s + 1, r) == Taken(round, s, r) + if r == s then 1 else 0;
      assert NoneEmpty(lists, round, s + 1);
      var last := Lasting(lists, round, s)[s];
      var after, popped := Lasting(lists, round, s + 1), Lasting(lists, round, s)[s := last[..|last| - 1]];
      assert forall r :: 0 <= r < |lists| ==> after[r] == popped[r];
    }
  }

  lemma NextRound(lists: seq<seq<Cpu>>, round: nat)
    requires NoneEmpty(lists, round, |lists|)
    ensures NoneEmpty(lists, round + 1, 0) && Yields(lists, round + 1, 0) == Yields(lists, round, |lists|)
    ensures Lasting(lists, round + 1, 0) == Lasting(lists, round, |lists|)
  {
    assert forall r :: 0 <= r < |lists| ==> Taken(round, |lists|, r) == Taken(round + 1, 0, r);
  }

  /** The generator is before this turn of this round. */
  ghost predicate Reached(lists: seq<seq<Cpu>>, round: nat, turn: nat, yielded: seq<nat>, left: seq<seq<Cpu>>) {
    && turn <= |lists| && NoneEmpty(lists, round, turn)
    && yielded == Yields(lists, round, turn) && left == Lasting(lists, round, turn)
  }

  lemma ReachedPop(lists: seq<seq<Cpu>>, round: nat, turn: nat, yielded: seq<nat>, left: seq<seq<Cpu>>)
    requires Reached(lists, round, turn, yielded, left) && turn < |lists|
    ensures |left| == |lists| && (left[turn] == [] <==> |lists[turn]| == round)
    ensures left[turn] != [] ==>
              var last := |left[turn]| - 1;
              Reached(lists, round, turn + 1, yielded + [left[turn][last].id], left[turn := left[turn][..last]])
  {
    PopStep(lists, round, turn);
  }

  lemma ReachedStart(lists: seq<seq<Cpu>>)
    ensures Reached(lists, 0, 0, [], lists)
  {
    assert forall r :: 0 <= r < |lists| ==> Lasting(lists, 0, 0)[r] == lists[r];
  }

  lemma ReachedNextRound(lists: seq<seq<Cpu>>, round: nat, yielded: seq<nat>, left: seq<seq<Cpu>>)
    requires Reached(lists, round, |lists|, yielded, left)
    ensures Reached(lists, round + 1, 0, yielded, left)
  {
    NextRound(lists, round);
  }

  /** One round over the nodes: pops the last CPU of each, until enough have been yielded. */
  method OneRound(lists: seq<seq<Cpu>>, count: nat, before: seq<nat>, onNodes: seq<seq<Cpu>>, ghost round: nat)
    returns (yielded: seq<nat>, left: seq<seq<Cpu>>, indexError: bool, ghost turn: nat)
    requires Reached(lists, round, 0, before, onNodes) && |before| < count
    ensures Reached(lists, round, turn, yielded, left)
    ensures |yielded| <= count && (lists != [] ==> |before| < |yielded| || indexError)
    ensures if indexError then |yielded| < count && turn < |lists| && |lists[turn]| == round
            else |yielded| == count || turn == |lists|
  {
    yielded, left, indexError, turn := before, onNodes, false, 0;
    var remaining := count - |before|;
    var node := 0;
    while node < |lists| && remaining > 0
      invariant !indexError && node == turn <= |lists| && 0 <= remaining && remaining + |yielded| == count
      invariant |yielded| == |before| + turn && Reached(lists, round, turn, yielded, left)
    {
      ReachedPop(lists, round, turn, yielded, left);
      var cpus := left[node];
      if cpus == [] {
        indexError := true;
        return;
      }
      left := left[node := cpus[..|cpus| - 1]];
      remaining := remaining - 1;
      yielded := yielded + [cpus[|cpus| - 1].id];
      turn := turn + 1;
      node := node + 1;
    }
  }

  // ----- Closed form -----

  /** Turn k pops the last CPU that is left on the node of rank k % m, if there is one. */
  predicate Possible(lists: seq<seq<Cpu>>, k: nat)
    requires lists != []
  {
    k / |lists| < |lists[k % |lists|]|
  }

  function Popped(lists: seq<seq<Cpu>>, k: nat): nat
    requires lists != [] && Possible(lists, k)
  {
    var list := lists[k % |lists|];
    list[|list| - 1 - k / |lists|].id
  }

  /** The CPUs popped at turns 0 to |yielded| - 1. */
  ghost predicate Yielded(lists: seq<seq<Cpu>>, yielded: seq<nat>)
    requires lists != []
  {
    forall k :: 0 <= k < |yielded| ==> Possible(lists, k) && yielded[k] == Popped(lists, k)
  }

  lemma YieldedOneMore(lists: seq<seq<Cpu>>, yielded: seq<nat>, round: nat, s: nat)
    requires lists != [] && Yielded(lists, yielded) && |yielded| == round * |lists| + s && s < |lists| && round < |lists[s]|
    ensures Yielded(lists, yielded + [lists[s][|lists[s]| - 1 - round].id])
  {
    DivModUnique(|yielded|, |lists|, round, s);
  }

  lemma {:induction false} YieldsClosed(lists: seq<seq<Cpu>>, round: nat, s: nat)
    requires lists != [] && s <= |lists| && NoneEmpty(lists, round, s)
    ensures |Yields(lists, round, s)| == round * |lists| + s
    ensures Yielded(lists, Yields(lists, round, s))
    decreases round, s
  {
    if s > 0 {
      assert forall r :: 0 <= r < |lists| ==> Taken(round, s - 1, r) <= Taken(round, s, r);
      assert Taken(round, s, s - 1) == round + 1;
      YieldsClosed(lists, round, s - 1);
      YieldedOneMore(lists, Yields(lists, round, s - 1), round, s - 1);
    } else if round > 0 {
      assert forall r :: 0 <= r < |lists| ==> Taken(round - 1, |lists|, r) == Taken(round, 0, r);
      YieldsClosed(lists, round - 1, |lists|);
      OneMore(round - 1, |lists|);
    }
  }

  /** The lists once n CPUs have been taken: every node has lost the last CPUs of its list, one for
      each of its turns. */
  ghost predicate AfterTurns(lists: seq<seq<Cpu>>, n: nat, left: seq<seq<Cpu>>)
    requires lists != []
  {
    && |left| == |lists|
    && forall r :: 0 <= r < |lists| ==>
         |Turns(n, |lists|, r)| <= |lists[r]| && left[r] == lists[r][..|lists[r]| - |Turns(n, |lists|, r)|]
  }

  lemma LastingClosedAt(lists: seq<seq<Cpu>>, round: nat, s: nat, n: nat, r: nat)
    requires lists != [] && s <= |lists| && NoneEmpty(lists, round, s) && n == round * |lists| + s && r < |lists|
    ensures |Turns(n, |lists|, r)| == Taken(round, s, r) <= |lists[r]|
  {
    TurnsAt(|lists|, round, s, r);
  }

  lemma LastingClosed(lists: seq<seq<Cpu>>, round: nat, s: nat, n: nat)
    requires lists != [] && s <= |lists| && NoneEmpty(lists, round, s) && n == round * |lists| + s
    ensures AfterTurns(lists, n, Lasting(lists, round, s))
  {
    forall r | 0 <= r < |lists| ensures |Turns(n, |lists|, r)| == Taken(round, s, r) <= |lists[r]| {
      LastingClosedAt(lists, round, s, n, r);
    }
  }

  /** Where the generator stops, in terms of the number of CPUs it has yielded. */
  lemma StopsAt(lists: seq<seq<Cpu>>, round: nat, s: nat)
    requires lists != [] && s <= |lists| && NoneEmpty(lists, round, s)
    ensures Yielded(lists, Yields(lists, round, s)) && AfterTurns(lists, |Yields(lists, round, s)|, Lasting(lists, round, s))
    ensures s < |lists| && |lists[s]| == round ==> !Possible(lists, |Yields(lists, round, s)|)
  {
    YieldsClosed(lists, round, s);
    var n := |Yields(lists, round, s)|;
    LastingClosed(lists, round, s, n);
    if s < |lists| {
      DivModUnique(n, |lists|, round, s);
    }
  }

  /** _GetNextCPUToDisable, run to its end: the CPUs it yields, what is left on the nodes, and whether
      it popped an empty list. */
  method GetCPUsToDisable(lists: seq<seq<Cpu>>, count: nat)
    returns (yielded: seq<nat>, left: seq<seq<Cpu>>, indexError: bool)
    requires lists != []
    ensures Yielded(lists, yielded) && AfterTurns(lists, |yielded|, left)
    ensures if indexError then |yielded| < count && !Possible(lists, |yielded|) else |yielded| == count
  {
    ReachedStart(lists);
    yielded, left, indexError := [], lists, false;
    ghost var round: nat, turn: nat := 0, 0;
    while |yielded| < count
      invariant !indexError && |yielded| <= count && (|yielded| < count ==> turn == 0) && Reached(lists, round, turn, yielded, left)
      decreases count - |yielded|
    {
      yielded, left, indexError, turn := OneRound(lists, count, yielded, left, round);
      if indexError {
        break;
      }
      if |yielded| < count {
        ReachedNextRound(lists, round, yielded, left);
        round, turn := round + 1, 0;
      }
    }
    StopsAt(lists, round, turn);
  }

  datatype Outcome =
    | NothingToDo | ValueError
    | IndexError(disabled: seq<nat>)    // popped an empty list after disabling these
    | Disabled(disabled: seq<nat>)

  lemma ListsNotEmpty(cpus: seq<Cpu>)
    requires cpus != []
    ensures Lists(cpus) != []
  {
    assert cpus[0] in cpus;
    NodesOfFalls(cpus);
  }

  /** _DisableCpus, for a machine whose /proc/cpuinfo lists cpus. Each disabled CPU is one remote
      command; left are the CPUs that stay on, node by node. */
  method DisableCpus(cpus: seq<Cpu>, numCpus: int, numDisable: int) returns (r: Outcome, left: seq<seq<Cpu>>)
    requires cpus != []
    ensures Lists(cpus) != []
    ensures r.NothingToDo? <==> numDisable == 0
    ensures r.ValueError? <==> numDisable != 0 && !(0 < numDisable < numCpus)
    ensures r.Disabled? || r.IndexError? ==>
              Yielded(Lists(cpus), r.disabled) && AfterTurns(Lists(cpus), |r.disabled|, left)
    ensures r.Disabled? ==> |r.disabled| == numDisable
    ensures r.IndexError? ==> |r.disabled| < numDisable && !Possible(Lists(cpus), |r.disabled|)
  {
    var lists := Lists(cpus);
    ListsNotEmpty(cpus);
    if numDisable == 0 {
      return NothingToDo, lists;
    }
    if numDisable <= 0 || numDisable >= numCpus {
      return ValueError, lists;
    }
    var disabled, rest, indexError := GetCPUsToDisable(lists, numDisable);
    r, left := if indexError then IndexError(disabled) else Disabled(disabled), rest;
  }

  // ----- What the caller can rely on -----

  /** The first n turns are all possible exactly when every node has as many CPUs as it gets turns. */
  lemma AllPossibleIff(lists: seq<seq<Cpu>>, n: nat)
    requires lists != []
    ensures (forall k :: 0 <= k < n ==> Possible(lists, k)) <==>
              forall r :: 0 <= r < |lists| ==> |Turns(n, |lists|, r)| <= |lists[r]|
  {
    var m := |lists|;
    if forall k :: 0 <= k < n ==> Possible(lists, k) {
      forall r | 0 <= r < m ensures |Turns(n, m, r)| <= |lists[r]| {
        if |Turns(n, m, r)| > 0 {
          var k := LastTurn(n, m, r);
          assert Possible(lists, k);
        }
      }
    }
    if forall r :: 0 <= r < m ==> |Turns(n, m, r)| <= |lists[r]| {
      forall k | 0 <= k < n ensures Possible(lists, k) {
        TurnIndex(n, m, k);
      }
    }
  }

  lemma LastIndexBelow(n: nat, m: nat, q: nat, s: nat, r: nat, t: nat)
    requires n == q * m + s && r < m && t == q + (if r < s then 1 else 0) && t > 0
    ensures (t - 1) * m + r < n
  {
    if r < s {
      assert t - 1 == q;
    } else {
      assert q == t - 1 + 1;
      OneMore(t - 1, m);
    }
  }

  lemma TurnOf(n: nat, m: nat, r: nat, t: nat) returns (k: nat)
    requires r < m && t > 0 && t == n / m + (if r < n % m then 1 else 0)
    ensures k < n && k % m == r && k / m == t - 1
  {
    DivMod(n, m);
    LastIndexBelow(n, m, n / m, n % m, r, t);
    k := (t - 1) * m + r;
    DivModUnique(k, m, t - 1, r);
  }

  /** The last turn of node r among the first n. */
  lemma LastTurn(n: nat, m: nat, r: nat) returns (k: nat)
    requires r < m && |Turns(n, m, r)| > 0
    ensures k < n && k % m == r && k / m == |Turns(n, m, r)| - 1
  {
    TurnCount(n, m, r);
    k := TurnOf(n, m, r, |Turns(n, m, r)|);
  }

  lemma Lexicographic(a: nat, b: nat, c: nat, d: nat, m: nat)
    requires b < m && d < m && a * m + b < c * m + d
    ensures a < c || (a == c && b < d)
  {
    if c < a {
      MulMono(c + 1, a, m);
      OneMore(c, m);
    }
  }

  lemma EarlierTurn(k: nat, n: nat, m: nat)
    requires m > 0 && k < n
    ensures k / m < n / m || (k / m == n / m && k % m < n % m)
  {
    DivMod(n, m);
    DivMod(k, m);
    Lexicographic(k / m, k % m, n / m, n % m, m);
  }

  /** Turn k is its node's turn number k / m. */
  lemma TurnIndex(n: nat, m: nat, k: nat)
    requires m > 0 && k < n
    ensures k / m < |Turns(n, m, k % m)|
  {
    TurnCount(n, m, k % m);
    EarlierTurn(k, n, m);
  }

  /** The ids of the CPUs are different. */
  ghost predicate DistinctIds(lists: seq<seq<Cpu>>) {
    forall q, i, r, j :: 0 <= q < |lists| && 0 <= i < |lists[q]| && 0 <= r < |lists| && 0 <= j < |lists[r]| ==>
      lists[q][i].id == lists[r][j].id ==> q == r && i == j
  }

  /** No CPU is yielded twice. */
  lemma NeverTwice(lists: seq<seq<Cpu>>, j: nat, k: nat)
    requires lists != [] && DistinctIds(lists) && Possible(lists, j) && Possible(lists, k) && Popped(lists, j) == Popped(lists, k)
    ensures j == k
  {
    DivMod(j, |lists|);
    DivMod(k, |lists|);
  }

  /** The nodes lose numbers of CPUs that differ by at most one, the higher nodes losing more. */
  lemma Balanced(n: nat, m: nat, q: nat, r: nat)
    requires q < r < m
    ensures |Turns(n, m, r)| <= |Turns(n, m, q)| <= |Turns(n, m, r)| + 1
  {
    TurnCount(n, m, q);
    TurnCount(n, m, r);
  }

  lemma LowestTurns(n: nat, m: nat)
    requires m > 0
    ensures |Turns(n, m, m - 1)| == n / m
  {
    TurnCount(n, m, m - 1);
    DivMod(n, m);
  }

  lemma PoppedFirst(lists: seq<seq<Cpu>>, k: nat, r: nat)
    requires lists != [] && r < |lists| && lists[r] != [] && DistinctIds(lists) && Possible(lists, k)
    requires Popped(lists, k) == lists[r][0].id
    ensures k % |lists| == r && k / |lists| == |lists[r]| - 1
  {
    var q := k % |lists|;
    var i := |lists[q]| - 1 - k / |lists|;
    assert lists[q][i].id == lists[r][0].id;
  }

  /** The CPU sorted first on the lowest node is disabled exactly when that node is emptied, that is
      when n / m reaches the size of the node. */
  lemma FirstCpuSurvivesIff(lists: seq<seq<Cpu>>, n: nat)
    requires lists != [] && lists[|lists| - 1] != [] && DistinctIds(lists) && forall k :: 0 <= k < n ==> Possible(lists, k)
    ensures (exists k :: 0 <= k < n && Popped(lists, k) == lists[|lists| - 1][0].id) <==> n / |lists| == |lists[|lists| - 1]|
    ensures n / |lists| <= |lists[|lists| - 1]|
  {
    var m, r := |lists|, |lists| - 1;
    AllPossibleIff(lists, n);
    LowestTurns(n, m);
    if |Turns(n, m, r)| == |lists[r]| {
      var k := LastTurn(n, m, r);
      assert Popped(lists, k) == lists[r][0].id;
    }
    forall k | 0 <= k < n && Popped(lists, k) == lists[r][0].id ensures |Turns(n, m, r)| == |lists[r]| {
      PoppedFirst(lists, k, r);
      TurnIndex(n, m, k);
    }
  }

  /** The turn that pops the first CPU of the lowest node is the last of the round that empties it. */
  lemma FirstCpuTurn(lists: seq<seq<Cpu>>, k: nat)
    requires lists != [] && lists[|lists| - 1] != [] && DistinctIds(lists) && Possible(lists, k)
    requires Popped(lists, k) == lists[|lists| - 1][0].id
    ensures k == (|lists[|lists| - 1]| - 1) * |lists| + |lists| - 1
  {
    PoppedFirst(lists, k, |lists| - 1);
    DivMod(k, |lists|);
  }

  lemma TurnsOfRound(lists: seq<seq<Cpu>>, size: nat, k: nat)
    requires lists != [] && size > 0 && k == (size - 1) * |lists| + |lists| - 1
    ensures (forall j :: 0 <= j <= k ==> Possible(lists, j)) <==> forall r :: 0 <= r < |lists| ==> size <= |lists[r]|
  {
    var m := |lists|;
    OneMore(size - 1, m);
    if forall j :: 0 <= j <= k ==> Possible(lists, j) {
      forall r | 0 <= r < m ensures size <= |lists[r]| {
        var j := (size - 1) * m + r;
        DivModUnique(j, m, size - 1, r);
        assert Possible(lists, j);
      }
    }
    if forall r :: 0 <= r < m ==> size <= |lists[r]| {
      forall j | 0 <= j <= k ensures Possible(lists, j) {
        QuotientBelow(j, m, size);
      }
    }
  }

  lemma RoundsFit(n: nat, m: nat, size: nat)
    requires m > 0 && size > 0
    ensures (size - 1) * m + m - 1 < n <==> n / m >= size
  {
    OneMore(size - 1, m);
    DivMod(n, m);
    if n / m >= size {
      MulMono(size, n / m, m);
    } else {
      MulMono(n / m, size - 1, m);
    }
  }

  /** Whatever is asked for, met in full or not, the first CPU of the lowest node is disabled exactly when
      no node is smaller than that one and the request empties it. */
  lemma FirstCpuDisabledIff(lists: seq<seq<Cpu>>, n: nat)
    requires lists != [] && lists[|lists| - 1] != [] && DistinctIds(lists)
    ensures (exists k :: 0 <= k < n && (forall j :: 0 <= j <= k ==> Possible(lists, j)) && Popped(lists, k) == lists[|lists| - 1][0].id)
       <==> n / |lists| >= |lists[|lists| - 1]| && forall r :: 0 <= r < |lists| ==> |lists[|lists| - 1]| <= |lists[r]|
  {
    var m, size := |lists|, |lists[|lists| - 1]|;
    var turn := (size - 1) * m + m - 1;
    RoundsFit(n, m, size);
    TurnsOfRound(lists, size, turn);
    DivModUnique(turn, m, size - 1, m - 1);
    assert Possible(lists, turn) && Popped(lists, turn) == lists[m - 1][0].id;
    forall k | 0 <= k < n && Possible(lists, k) && Popped(lists, k) == lists[m - 1][0].id ensures k == turn {
      FirstCpuTurn(lists, k);
    }
  }

  /** The same for what a request really disabled: all it asked for, or what came before an empty node. */
  lemma DisabledFirstIff(lists: seq<seq<Cpu>>, disabled: seq<nat>, n: nat)
    requires lists != [] && lists[|lists| - 1] != [] && DistinctIds(lists)
    requires Yielded(lists, disabled) && |disabled| <= n && (|disabled| < n ==> !Possible(lists, |disabled|))
    ensures lists[|lists| - 1][0].id in disabled
       <==> n / |lists| >= |lists[|lists| - 1]| && forall r :: 0 <= r < |lists| ==> |lists[|lists| - 1]| <= |lists[r]|
  {
    var first := lists[|lists| - 1][0].id;
    FirstCpuDisabledIff(lists, n);
    if first in disabled {
      var k :| 0 <= k < |disabled| && disabled[k] == first;
      assert forall j :: 0 <= j <= k ==> Possible(lists, j);
    }
    if k: nat :| k < n && (forall j :: 0 <= j <= k ==> Possible(lists, j)) && Popped(lists, k) == first {
      assert k < |disabled| && disabled[k] == first;
    }
  }

  /** On equal nodes every request below the number of CPUs can be met, and leaves the first CPU of the
      lowest node running. */
  lemma EqualNodesKeepCpu0(lists: seq<seq<Cpu>>, size: nat, n: nat)
    requires lists != [] && DistinctIds(lists) && (forall r :: 0 <= r < |lists| ==> |lists[r]| == size)
    requires n < |lists| * size
    ensures forall k :: 0 <= k < n ==> Possible(lists, k) && Popped(lists, k) != lists[|lists| - 1][0].id
  {
    forall k | 0 <= k < n ensures Possible(lists, k) {
      QuotientBelow(k, |lists|, size);
    }
    QuotientBelow(n, |lists|, size);
    FirstCpuSurvivesIff(lists, n);
  }

  // ----- From /proc/cpuinfo to the lists -----

  ghost predicate DistinctCpus(cpus: seq<Cpu>) { forall i, j :: 0 <= i < j < |cpus| ==> cpus[i].id != cpus[j].id }

  lemma {:induction false} CountOne(cpus: seq<Cpu>, c: Cpu)
    requires DistinctCpus(cpus)
    ensures multiset(cpus)[c] <= 1
  {
    if cpus != [] {
      assert cpus == [cpus[0]] + cpus[1..];
      CountOne(cpus[1..], c);
      if c == cpus[0] {
        assert c !in cpus[1..];
      }
    }
  }

  lemma {:induction false} TwiceCounts(cpus: seq<Cpu>, i: nat, j: nat)
    requires i < j < |cpus| && cpus[i] == cpus[j]
    ensures multiset(cpus)[cpus[i]] >= 2
  {
    assert cpus == cpus[..j] + [cpus[j]] + cpus[j + 1..];
    assert cpus[..j][i] in multiset(cpus[..j]);
  }

  lemma ListHolds(cpus: seq<Cpu>, q: nat, c: Cpu)
    requires q < |Lists(cpus)|
    ensures multiset(Lists(cpus)[q])[c] == if c.node == NodesOf(cpus)[q] then multiset(cpus)[c] else 0
  {
    SortCpusSorts(OnNode(cpus, NodesOf(cpus)[q]));
    OnNodeHolds(cpus, NodesOf(cpus)[q], c);
  }

  lemma ListElement(cpus: seq<Cpu>, q: nat, i: nat)
    requires q < |Lists(cpus)| && i < |Lists(cpus)[q]|
    ensures Lists(cpus)[q][i] in cpus && Lists(cpus)[q][i].node == NodesOf(cpus)[q]
  {
    var c := Lists(cpus)[q][i];
    ListHolds(cpus, q, c);
    assert c in multiset(Lists(cpus)[q]);
    assert c in multiset(cpus);
  }

  lemma SameIdSamePlace(cpus: seq<Cpu>, q: nat, i: nat, r: nat, j: nat)
    requires DistinctCpus(cpus) && q < |Lists(cpus)| && i < |Lists(cpus)[q]| && r < |Lists(cpus)| && j < |Lists(cpus)[r]|
    requires Lists(cpus)[q][i].id == Lists(cpus)[r][j].id
    ensures q == r && i == j
  {
    ListElement(cpus, q, i);
    ListElement(cpus, r, j);
    NodesOfFalls(cpus);
    var list := Lists(cpus)[q];
    if i != j {
      ListHolds(cpus, q, list[i]);
      CountOne(cpus, list[i]);
      TwiceCounts(list, if i < j then i else j, if i < j then j else i);
    }
  }

  /** Different CPUs stay different on the lists. */
  lemma ListsAreDistinct(cpus: seq<Cpu>)
    requires DistinctCpus(cpus)
    ensures DistinctIds(Lists(cpus))
  {
    forall q: nat, i: nat, r: nat, j: nat {:trigger Lists(cpus)[q][i], Lists(cpus)[r][j]}
      | q < |Lists(cpus)| && i < |Lists(cpus)[q]| && r < |Lists(cpus)| && j < |Lists(cpus)[r]|
      ensures Lists(cpus)[q][i].id == Lists(cpus)[r][j].id ==> q == r && i == j
    {
      if Lists(cpus)[q][i].id == Lists(cpus)[r][j].id {
        SameIdSamePlace(cpus, q, i, r, j);
      }
    }
  }

  /** The CPUs on these nodes, counted node by node. */
  function OnNodes(cpus: seq<Cpu>, nodes: seq<int>): nat {
    if nodes == [] then 0 else |OnNode(cpus, nodes[0])| + OnNodes(cpus, nodes[1..])
  }

  lemma {:induction false} OneMoreCpu(cpus: seq<Cpu>, nodes: seq<int>)
    requires cpus != [] && Distinct(nodes)
    ensures OnNodes(cpus, nodes) == OnNodes(cpus[1..], nodes) + if cpus[0].node in nodes then 1 else 0
  {
    if nodes != [] {
      OneMoreCpu(cpus, nodes[1..]);
      if cpus[0].node == nodes[0] {
        assert nodes[0] !in nodes[1..];
      }
    }
  }

  lemma {:induction false} AllCounted(cpus: seq<Cpu>, nodes: seq<int>)
    requires Distinct(nodes) && forall c :: c in cpus ==> c.node in nodes
    ensures OnNodes(cpus, nodes) == |cpus|
  {
    if cpus == [] {
      NoneOnNodes(nodes);
    } else {
      OneMoreCpu(cpus, nodes);
      AllCounted(cpus[1..], nodes);
      assert cpus[0] in cpus;
    }
  }

  lemma {:induction false} NoneOnNodes(nodes: seq<int>)
    ensures OnNodes([], nodes) == 0
  {
    if nodes != [] {
      NoneOnNodes(nodes[1..]);
    }
  }

  lemma {:induction false} EqualNodesCount(cpus: seq<Cpu>, nodes: seq<int>, size: nat)
    requires forall k :: 0 <= k < |nodes| ==> |OnNode(cpus, nodes[k])| == size
    ensures OnNodes(cpus, nodes) == |nodes| * size
  {
    if nodes != [] {
      EqualNodesCount(cpus, nodes[1..], size);
      OneMore(|nodes| - 1, size);
    }
  }

  lemma ListLength(cpus: seq<Cpu>, q: nat)
    requires q < |Lists(cpus)|
    ensures |Lists(cpus)[q]| == |OnNode(cpus, NodesOf(cpus)[q])|
  {
    SortCpusSorts(OnNode(cpus, NodesOf(cpus)[q]));
    assert |multiset(Lists(cpus)[q])| == |multiset(OnNode(cpus, NodesOf(cpus)[q]))|;
  }

  /** If every node has as many CPUs and CPU 0 has the lowest node and, there, the lowest core, then any
      request below the number of CPUs can be met, and never disables CPU 0. */
  lemma Cpu0StaysOn(cpus: seq<Cpu>, first: Cpu, size: nat, n: nat)
    requires DistinctCpus(cpus) && first in cpus && n < |cpus|
    requires (forall c :: c in cpus ==> first.node <= c.node) && forall c :: c in cpus && c.node == first.node ==> Before(first, c)
    requires forall node :: node in NodesOf(cpus) ==> |OnNode(cpus, node)| == size
    ensures Lists(cpus) != []
    ensures forall k :: 0 <= k < n ==> Possible(Lists(cpus), k) && Popped(Lists(cpus), k) != first.id
  {
    var lists, nodes := Lists(cpus), NodesOf(cpus);
    ListsAreDistinct(cpus);
    NodesOfFalls(cpus);
    forall c | c in cpus ensures c.node in nodes {
    }
    AllCounted(cpus, nodes);
    EqualNodesCount(cpus, nodes, size);
    forall q | 0 <= q < |lists| ensures |lists[q]| == size {
      ListLength(cpus, q);
    }
    var q := LowestNode(cpus, first);
    FirstOfList(cpus, first, q);
    assert lists[|lists| - 1][0] == first;
    EqualNodesKeepCpu0(lists, size, n);
  }

  lemma LowestNode(cpus: seq<Cpu>, first: Cpu) returns (q: nat)
    requires first in cpus && forall c :: c in cpus ==> first.node <= c.node
    ensures q == |Lists(cpus)| - 1 && NodesOf(cpus)[q] == first.node
  {
    var nodes := NodesOf(cpus);
    NodesOfFalls(cpus);
    assert first.node in nodes;
    var k :| 0 <= k < |nodes| && nodes[k] == first.node;
    q := |nodes| - 1;
    assert nodes[q] in nodes;
    var c :| c in cpus && c.node == nodes[q];
  }

  lemma BeforeBoth(a: Cpu, b: Cpu)
    requires Before(a, b) && Before(b, a)
    ensures a.id == b.id
  {
  }

  lemma FirstOfList(cpus: seq<Cpu>, first: Cpu, q: nat)
    requires DistinctCpus(cpus) && first in cpus && q < |Lists(cpus)| && NodesOf(cpus)[q] == first.node
    requires forall c :: c in cpus && c.node == first.node ==> Before(first, c)
    ensures Lists(cpus)[q] != [] && Lists(cpus)[q][0] == first
  {
    var list := Lists(cpus)[q];
    ListHolds(cpus, q, first);
    assert first in multiset(cpus);
    assert first in multiset(list);
    var i :| 0 <= i < |list| && list[i] == first;
    if i > 0 {
      SortCpusSorts(OnNode(cpus, NodesOf(cpus)[q]));
      ListElement(cpus, q, 0);
      BeforeBoth(list[0], list[i]);
      SameIdSamePlace(cpus, q, 0, q, i);
    }
  }

  // ----- The CPUs of a core -----

  /** On a node the CPUs are in the order of their cores, and those of one core in the order of their ids. */
  lemma ListOrder(cpus: seq<Cpu>, q: nat, i: nat, j: nat)
    requires q < |Lists(cpus)| && i < j < |Lists(cpus)[q]|
    ensures var a, b := Lists(cpus)[q][i], Lists(cpus)[q][j]; a.core < b.core || (a.core == b.core && a.id <= b.id)
  {
    SortCpusSorts(OnNode(cpus, NodesOf(cpus)[q]));
  }

  /** Turn t of node q, if the node lasts so long, pops this CPU. */
  function AtTurn(cpus: seq<Cpu>, q: nat, t: nat): Cpu
    requires q < |Lists(cpus)| && t < |Lists(cpus)[q]|
  {
    Lists(cpus)[q][|Lists(cpus)[q]| - 1 - t]
  }

  lemma TurnPops(cpus: seq<Cpu>, q: nat, t: nat)
    requires q < |Lists(cpus)| && t < |Lists(cpus)[q]|
    ensures var lists := Lists(cpus); Possible(lists, t * |lists| + q) && Popped(lists, t * |lists| + q) == AtTurn(cpus, q, t).id
  {
    DivModUnique(t * |Lists(cpus)| + q, |Lists(cpus)|, t, q);
  }

  /** A node loses its cores from the highest one down, and the CPUs of a core one after another: between two
      turns that take a CPU of one core, none takes a CPU of a different core. */
  lemma CoresGoTogether(cpus: seq<Cpu>, q: nat, s: nat, t: nat, u: nat)
    requires q < |Lists(cpus)| && s < t < u < |Lists(cpus)[q]|
    ensures AtTurn(cpus, q, s).core >= AtTurn(cpus, q, t).core >= AtTurn(cpus, q, u).core
    ensures AtTurn(cpus, q, s).core == AtTurn(cpus, q, u).core ==> AtTurn(cpus, q, t).core == AtTurn(cpus, q, s).core
    ensures AtTurn(cpus, q, s).core == AtTurn(cpus, q, t).core ==> AtTurn(cpus, q, s).id >= AtTurn(cpus, q, t).id
  {
    var n := |Lists(cpus)[q]|;
    ListOrder(cpus, q, n - 1 - t, n - 1 - s);
    ListOrder(cpus, q, n - 1 - u, n - 1 - t);
  }

  /** One node with two cores of two CPUs each, numbered as is usual for hyper-threads: a request for two takes
      both CPUs of core 1, and not the two highest ids. */
  lemma SiblingsGoTogether()
    ensures var lists := Lists([Cpu(0, 0, 0), Cpu(1, 0, 1), Cpu(2, 0, 0), Cpu(3, 0, 1)]);
            |lists| == 1 && |lists[0]| == 4 && Popped(lists, 0) == 3 && Popped(lists, 1) == 1
  {
    var c0, c1, c2, c3 := Cpu(0, 0, 0), Cpu(1, 0, 1), Cpu(2, 0, 0), Cpu(3, 0, 1);
    var all := [c0, c1, c2, c3];
    assert all[1..] == [c1, c2, c3] && [c1, c2, c3][1..] == [c2, c3] && [c2, c3][1..] == [c3] && [c3][1..] == [];
    assert NodesOf([c3]) == [0] && NodesOf([c2, c3]) == [0] && NodesOf([c1, c2, c3]) == [0] && NodesOf(all) == [0];
    assert OnNode([c3], 0) == [c3] && OnNode([c2, c3], 0) == [c2, c3] && OnNode([c1, c2, c3], 0) == [c1, c2, c3];
    assert OnNode(all, 0) == all;
    assert SortCpus([c3]) == [c3] && SortCpus([c2, c3]) == [c2, c3];
    assert InsertCpu(c1, [c3]) == [c1, c3] && InsertCpu(c1, [c2, c3]) == [c2, c1, c3];
    assert SortCpus([c1, c2, c3]) == [c2, c1, c3];
    assert SortCpus(all) == [c0, c2, c1, c3];
    assert Lists(all)[0] == [c0, c2, c1, c3];
  }

  // ----- Machines with unequal nodes -----

  /** A machine with CPU 0 on node 0 and CPUs 1 to n on node 1, a core each. */
  function Lopsided(n: nat): (cpus: seq<Cpu>)
    ensures |cpus| == n + 1
  {
    if n == 0 then [Cpu(0, 0, 0)] else [Cpu(n, 1, n - 1)] + Lopsided(n - 1)
  }

  function Higher(n: nat): (cpus: seq<Cpu>)
    ensures |cpus| == n && forall i :: 0 <= i < n ==> cpus[i] == Cpu(i + 1, 1, i)
  {
    seq(n, i requires 0 <= i < n => Cpu(i + 1, 1, i))
  }

  lemma {:induction false} InsertLast(c: Cpu, cpus: seq<Cpu>)
    requires forall i :: 0 <= i < |cpus| ==> !Before(c, cpus[i])
    ensures InsertCpu(c, cpus) == cpus + [c]
  {
    if cpus != [] {
      InsertLast(c, cpus[1..]);
      assert cpus == [cpus[0]] + cpus[1..];
    }
  }

  lemma {:induction false} LopsidedLists(n: nat)
    ensures SortCpus(OnNode(Lopsided(n), 1)) == Higher(n) && SortCpus(OnNode(Lopsided(n), 0)) == [Cpu(0, 0, 0)]
    ensures NodesOf(Lopsided(n)) == if n == 0 then [0] else [1, 0]
  {
    var cpus := Lopsided(n);
    if n == 0 {
      assert cpus[1..] == [] && OnNode(cpus[1..], 0) == [] && OnNode(cpus[1..], 1) == [];
      assert OnNode(cpus, 0) == [cpus[0]] && OnNode(cpus, 1) == [] && [cpus[0]][1..] == [];
    } else {
      LopsidedLists(n - 1);
      assert cpus[1..] == Lopsided(n - 1);
      var rest := OnNode(Lopsided(n - 1), 1);
      assert OnNode(cpus, 1) == [cpus[0]] + rest && OnNode(cpus, 1)[1..] == rest;
      InsertLast(cpus[0], Higher(n - 1));
      assert Higher(n) == Higher(n - 1) + [cpus[0]];
      assert OnNode(cpus, 0) == OnNode(Lopsided(n - 1), 0);
    }
  }

  lemma LopsidedMachine(n: nat)
    requires n > 0
    ensures Lists(Lopsided(n)) == [Higher(n), [Cpu(0, 0, 0)]]
  {
    LopsidedLists(n);
  }

  /** On unequal nodes CPU 0 can be lost, although fewer CPUs are asked for than there are: with three CPUs
      on the higher node and only CPU 0 on the lower one, disabling two of the four disables CPU 0. */
  lemma UnequalNodesLoseCpu0()
    ensures |Lopsided(3)| == 4 && Lists(Lopsided(3)) == [Higher(3), [Cpu(0, 0, 0)]]
    ensures var lists := Lists(Lopsided(3));
            Possible(lists, 0) && Possible(lists, 1) && Popped(lists, 0) == 3 && Popped(lists, 1) == 0
  {
    LopsidedMachine(3);
  }

  /** And the generator can run into an empty node: with four CPUs on the higher node and one on the lower,
      a request for four of the five gets three, CPU 0 among them. */
  lemma UnequalNodesRunOut()
    ensures |Lopsided(4)| == 5 && Lists(Lopsided(4)) == [Higher(4), [Cpu(0, 0, 0)]]
    ensures var lists := Lists(Lopsided(4));
            (forall k :: 0 <= k < 4 ==> (Possible(lists, k) <==> k < 3)) && Popped(lists, 1) == 0
  {
    LopsidedMachine(4);
  }
}
