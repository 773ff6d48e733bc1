/** Expansion of requested benchmark and set names into benchmark names. */
module BenchmarkSets {
  import opened Common

  /** BENCHMARK_SETS: the members of each set. Members may be sets, and sets may be cyclic. */
  type SetTable = map<string, seq<string>>

  function Reverse(xs: seq<string>): (r: seq<string>)
    ensures forall x :: x in r <==> x in xs
    ensures |r| == |xs| && forall i :: 0 <= i < |xs| ==> r[i] == xs[|xs| - 1 - i]
  {
    if xs == [] then [] else Reverse(xs[1..]) + [xs[0]]
  }

  ghost function Universe(sets: SetTable, queue: seq<string>): set<string> {
    (set x | x in queue) + (set b, x | b in sets && x in sets[b] :: x)
  }

  /** How many names may still be seen for the first time. */
  ghost function Unseen(sets: SetTable, queue: seq<string>, seen: set<string>): nat { |Universe(sets, queue) - seen| }

  /** The queue after its first name has been dealt with: a set is replaced by its members. */
  function NextQueue(sets: SetTable, queue: seq<string>, seen: set<string>): seq<string>
    requires queue != []
  {
    if queue[0] !in seen && queue[0] in sets then Reverse(sets[queue[0]]) + queue[1..] else queue[1..]
  }

  lemma UnseenFalls(sets: SetTable, queue: seq<string>, seen: set<string>)
    requires queue != []
    ensures var later := Unseen(sets, NextQueue(sets, queue, seen), seen + {queue[0]});
            if queue[0] in seen then later <= Unseen(sets, queue, seen) else later < Unseen(sets, queue, seen)
  {
    var left, rest := Universe(sets, queue) - seen, Universe(sets, queue) - (seen + {queue[0]});
    SubsetSize(Universe(sets, NextQueue(sets, queue, seen)) - (seen + {queue[0]}), rest);
    SubsetSize(rest, left);
    if queue[0] !in seen {
      assert queue[0] in left && queue[0] !in rest;
    }
  }

  /** The benchmark names in the order found, and all the names seen at the end. */
  function Worklist(sets: SetTable, queue: seq<string>, seen: set<string>): (r: (seq<string>, set<string>))
    decreases Unseen(sets, queue, seen), |queue|
  {
    if queue == [] then ([], seen) else
      UnseenFalls(sets, queue, seen);
      assert queue[0] in seen ==> seen + {queue[0]} == seen;
      var (names, all) := Worklist(sets, NextQueue(sets, queue, seen), seen + {queue[0]});
      (if queue[0] in seen || queue[0] in sets then names else [queue[0]] + names, all)
  }

  /** How often the loop goes round. */
  ghost function Rounds(sets: SetTable, queue: seq<string>, seen: set<string>): nat
    decreases Unseen(sets, queue, seen), |queue|
  {
    if queue == [] then 0 else
      UnseenFalls(sets, queue, seen);
      assert queue[0] in seen ==> seen + {queue[0]} == seen;
      1 + Rounds(sets, NextQueue(sets, queue, seen), seen + {queue[0]})
  }

  lemma WorklistStep(sets: SetTable, queue: seq<string>, seen: set<string>)
    requires queue != []
    ensures var (names, all) := Worklist(sets, NextQueue(sets, queue, seen), seen + {queue[0]});
            Worklist(sets, queue, seen) == (if queue[0] in seen || queue[0] in sets then names else [queue[0]] + names, all)
    ensures Rounds(sets, NextQueue(sets, queue, seen), seen + {queue[0]}) < Rounds(sets, queue, seen)
  {
  }

  /** The worklist loop of GetBenchmarksFromFlags. */
  method ExpandNames(sets: SetTable, requested: seq<string>) returns (names: seq<string>)
    ensures names == Worklist(sets, requested, {}).0
  {
    var queue, seen := requested, {};
    names := [];
    while queue != []
      invariant names + Worklist(sets, queue, seen).0 == Worklist(sets, requested, {}).0
      decreases Rounds(sets, queue, seen)
    {
      WorklistStep(sets, queue, seen);
      ghost var next, later := NextQueue(sets, queue, seen), seen + {queue[0]};
      ghost var rest := Worklist(sets, next, later).0;
      var benchmark := queue[0];
      queue := queue[1..];
      if benchmark in seen {
        assert later == seen;
        continue;
      }
      seen := seen + {benchmark};
      if benchmark in sets {
        queue := Reverse(sets[benchmark]) + queue;
      } else {
        assert names + ([benchmark] + rest) == names + [benchmark] + rest;
        names := names + [benchmark];
      }
    }
  }

  // ----- Order -----

  /** The names that the first name of the queue adds by itself. */
  function OwnName(sets: SetTable, name: string, seen: set<string>): seq<string> {
    if name in seen || name in sets then [] else [name]
  }

  lemma WorklistHead(sets: SetTable, queue: seq<string>, seen: set<string>, names: seq<string>, all: set<string>)
    requires queue != [] && Worklist(sets, NextQueue(sets, queue, seen), seen + {queue[0]}) == (names, all)
    ensures Worklist(sets, queue, seen) == (OwnName(sets, queue[0], seen) + names, all)
  {
    WorklistStep(sets, queue, seen);
    assert [] + names == names;
  }

  lemma NextAppend(sets: SetTable, front: seq<string>, rest: seq<string>, seen: set<string>)
    requires front != []
    ensures front + rest != [] && (front + rest)[0] == front[0]
    ensures NextQueue(sets, front + rest, seen) == NextQueue(sets, front, seen) + rest
  {
    assert (front + rest)[1..] == front[1..] + rest;
  }

  lemma AppendStep(sets: SetTable, front: seq<string>, rest: seq<string>, seen: set<string>,
                   names: seq<string>, later: set<string>, second: seq<string>, all: set<string>)
    requires front != []
    requires Worklist(sets, NextQueue(sets, front, seen) + rest, seen + {front[0]}) == (names + second, all)
    ensures Worklist(sets, front + rest, seen) == (OwnName(sets, front[0], seen) + names + second, all)
  {
    NextAppend(sets, front, rest, seen);
    WorklistHead(sets, front + rest, seen, names + second, all);
    var own := OwnName(sets, front[0], seen);
    assert own + (names + second) == own + names + second;
  }

  /** The expansion of a queue is that of its front, followed by what the rest still adds. */
  lemma {:induction false} WorklistAppend(sets: SetTable, front: seq<string>, rest: seq<string>, seen: set<string>,
                                          first: seq<string>, later: set<string>, second: seq<string>, all: set<string>)
    requires Worklist(sets, front, seen) == (first, later) && Worklist(sets, rest, later) == (second, all)
    ensures Worklist(sets, front + rest, seen) == (first + second, all)
    decreases Rounds(sets, front, seen)
  {
    if front == [] {
      assert front + rest == rest && first == [] && [] + second == second;
    } else {
      var next, seenNow := NextQueue(sets, front, seen), seen + {front[0]};
      var names, after := Worklist(sets, next, seenNow).0, Worklist(sets, next, seenNow).1;
      WorklistStep(sets, front, seen);
      WorklistHead(sets, front, seen, names, after);
      WorklistAppend(sets, next, rest, seenNow, names, after, second, all);
      AppendStep(sets, front, rest, seen, names, after, second, all);
    }
  }

  /** A set that has not been seen puts the benchmarks of its members, the last member first, ahead of those
      that the rest of the queue adds; a benchmark puts itself. */
  lemma SetsComeInPlace(sets: SetTable, name: string, rest: seq<string>, seen: set<string>)
    ensures name in seen ==> Worklist(sets, [name] + rest, seen) == Worklist(sets, rest, seen)
    ensures name !in seen && name !in sets ==>
              Worklist(sets, [name] + rest, seen).0 == [name] + Worklist(sets, rest, seen + {name}).0
    ensures name !in seen && name in sets ==>
              var members := seq(|sets[name]|, i requires 0 <= i < |sets[name]| => sets[name][|sets[name]| - 1 - i]);
              var (first, seenThen) := Worklist(sets, members, seen + {name});
              Worklist(sets, [name] + rest, seen).0 == first + Worklist(sets, rest, seenThen).0
  {
    var queue := [name] + rest;
    assert queue[0] == name && queue[1..] == rest;
    WorklistStep(sets, queue, seen);
    if name in seen {
      assert seen + {name} == seen;
    } else if name in sets {
      var members := seq(|sets[name]|, i requires 0 <= i < |sets[name]| => sets[name][|sets[name]| - 1 - i]);
      assert Reverse(sets[name]) == members;
      var (first, later) := Worklist(sets, members, seen + {name});
      var (second, all) := Worklist(sets, rest, later);
      WorklistAppend(sets, members, rest, seen + {name}, first, later, second, all);
    }
  }

  // ----- Reachability -----

  /** Each name after the first is a member of the set before it. */
  predicate IsPath(sets: SetTable, p: seq<string>) {
    p != [] && (|p| > 1 ==> p[0] in sets && p[1] in sets[p[0]] && IsPath(sets, p[1..]))
  }

  ghost predicate Reaches(sets: SetTable, roots: seq<string>, x: string) {
    exists p :: IsPath(sets, p) && p[0] in roots && p[|p| - 1] == x
  }

  /** The names returned are the non-sets among the names newly seen. */
  lemma {:induction false} NamesAreNonSets(sets: SetTable, queue: seq<string>, seen: set<string>)
    ensures var (names, all) := Worklist(sets, queue, seen);
            Distinct(names) && seen <= all && forall x :: x in names <==> x in all && x !in seen && x !in sets
    decreases Rounds(sets, queue, seen)
  {
    if queue != [] {
      WorklistStep(sets, queue, seen);
      NamesAreNonSets(sets, NextQueue(sets, queue, seen), seen + {queue[0]});
    }
  }

  /** The worklist sees the whole queue, and every member of every set it newly sees. */
  lemma {:induction false} SeesMembers(sets: SetTable, queue: seq<string>, seen: set<string>)
    ensures var all := Worklist(sets, queue, seen).1;
            && seen <= all && (forall x :: x in queue ==> x in all)
            && (forall b, x :: b in all && b !in seen && b in sets && x in sets[b] ==> x in all)
    decreases Rounds(sets, queue, seen)
  {
    if queue != [] {
      WorklistStep(sets, queue, seen);
      SeesMembers(sets, NextQueue(sets, queue, seen), seen + {queue[0]});
    }
  }

  lemma LongerPath(sets: SetTable, from: string, p: seq<string>)
    requires IsPath(sets, p) && from in sets && p[0] in sets[from]
    ensures IsPath(sets, [from] + p)
  {
    assert ([from] + p)[1..] == p;
  }

  lemma ReachesEarlier(sets: SetTable, queue: seq<string>, seen: set<string>, x: string)
    requires queue != [] && Reaches(sets, NextQueue(sets, queue, seen), x)
    ensures Reaches(sets, queue, x)
  {
    var p :| IsPath(sets, p) && p[0] in NextQueue(sets, queue, seen) && p[|p| - 1] == x;
    if p[0] !in queue {
      LongerPath(sets, queue[0], p);
      var longer := [queue[0]] + p;
      assert IsPath(sets, longer) && longer[0] in queue && longer[|longer| - 1] == x;
    }
  }

  /** Whatever the worklist newly sees can be reached from its queue. */
  lemma {:induction false} SeesOnlyReachable(sets: SetTable, queue: seq<string>, seen: set<string>)
    ensures forall x :: x in Worklist(sets, queue, seen).1 && x !in seen ==> Reaches(sets, queue, x)
    decreases Rounds(sets, queue, seen)
  {
    if queue != [] {
      WorklistStep(sets, queue, seen);
      SeesOnlyReachable(sets, NextQueue(sets, queue, seen), seen + {queue[0]});
      forall x | x in Worklist(sets, queue, seen).1 && x !in seen ensures Reaches(sets, queue, x) {
        if x == queue[0] {
          assert IsPath(sets, [x]) && [x][0] in queue;
        } else {
          ReachesEarlier(sets, queue, seen, x);
        }
      }
    }
  }

  lemma {:induction false} PathStaysInside(sets: SetTable, p: seq<string>, all: set<string>)
    requires IsPath(sets, p) && p[0] in all
    requires forall b, x :: b in all && b in sets && x in sets[b] ==> x in all
    ensures p[|p| - 1] in all
  {
    if |p| > 1 {
      PathStaysInside(sets, p[1..], all);
    }
  }

  /** For any table of sets, cyclic or not, the expansion is exactly the non-set names that can be
      reached from the requested ones, each once. */
  lemma ExpansionIsReachability(sets: SetTable, requested: seq<string>)
    ensures Distinct(Worklist(sets, requested, {}).0)
    ensures forall x :: x in Worklist(sets, requested, {}).0 <==> x !in sets && Reaches(sets, requested, x)
  {
    NamesAreNonSets(sets, requested, {});
    SeesMembers(sets, requested, {});
    SeesOnlyReachable(sets, requested, {});
    var all := Worklist(sets, requested, {}).1;
    forall x | Reaches(sets, requested, x) ensures x in all {
      var p :| IsPath(sets, p) && p[0] in requested && p[|p| - 1] == x;
      PathStaysInside(sets, p, all);
    }
  }
}
