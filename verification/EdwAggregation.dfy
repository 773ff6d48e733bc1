/** Aggregating query times of an EDW benchmark, per query and per iteration. Times are exact. */
module EdwAggregation {
  import opened Common

  /** A query with its completion time; a time of -1 means that it failed. */
  datatype Query = Query(name: string, performance: real)

  predicate Succeeded(q: Query) { q.performance != -1.0 }

  /** The queries of an iteration, in the order they were added. */
  type Queries = seq<Query>

  predicate Has(qs: Queries, name: string) { exists i :: 0 <= i < |qs| && qs[i].name == name }

  function Lookup(qs: Queries, name: string): Query
    requires Has(qs, name)
  {
    if qs[|qs| - 1].name == name then qs[|qs| - 1] else Lookup(qs[..|qs| - 1], name)
  }

  function NamesOf(qs: Queries): set<string> { set i | 0 <= i < |qs| :: qs[i].name }

  ghost predicate DistinctNames(qs: Queries) { forall i, j :: 0 <= i < j < |qs| ==> qs[i].name != qs[j].name }

  function Time(qs: Queries): real {
    if qs == [] then 0.0 else Time(qs[..|qs| - 1]) + qs[|qs| - 1].performance
  }

  function Successes(qs: Queries): nat {
    if qs == [] then 0 else Successes(qs[..|qs| - 1]) + if Succeeded(qs[|qs| - 1]) then 1 else 0
  }

  datatype AggregationError = DuplicateQuery | DuplicateIteration | FailedQuery | ZeroIterations | NoIterations

  // ----- One power iteration -----

  class EdwPowerIterationPerformance {
    const id: string
    const totalCount: int
    var performance: Queries
    var successfulCount: int
    var wallTime: real

    /** The running count and sum agree with the queries added so far. */
    ghost predicate Valid()
      reads this
    {
      DistinctNames(performance) && successfulCount == Successes(performance) && wallTime == Time(performance)
    }

    constructor (id: string, totalQueries: int)
      ensures Valid() && this.id == id && totalCount == totalQueries && performance == []
    {
      this.id, totalCount, performance, successfulCount, wallTime := id, totalQueries, [], 0, 0.0;
    }

    method AddQueryPerformance(name: string, time: real) returns (error: Option<AggregationError>)
      requires Valid()
      modifies this
      ensures Valid()
      ensures error == if Has(old(performance), name) then Some(DuplicateQuery) else None
      ensures performance == if error.Some? then old(performance) else old(performance) + [Query(name, time)]
      ensures error.None? ==>
                wallTime == old(wallTime) + time && successfulCount == old(successfulCount) + if time == -1.0 then 0 else 1
    {
      var query := Query(name, time);
      if Has(performance, name) {
        return Some(DuplicateQuery);
      }
      assert (performance + [query])[..|performance|] == performance;
      performance := performance + [query];
      if Succeeded(query) {
        successfulCount := successfulCount + 1;
      }
      wallTime := wallTime + time;
      error := None;
    }

    method IsSuccessful(expected: seq<string>) returns (r: bool)
      requires Valid()
      ensures r == IterationSuccessful(View(), expected)
      ensures r <==>
                && (forall n :: n in expected <==> Has(performance, n))
                && totalCount == |set i | 0 <= i < |performance| && performance[i].performance != -1.0|
    {
      SuccessesOnTimes(performance);
      NamesAgree(performance, expected);
      var allQueriesRan := NamesOf(performance) == (set q | q in expected);
      r := allQueriesRan && totalCount == successfulCount;
    }

    function View(): Iteration
      reads this
    {
      Iteration(performance, totalCount)
    }
  }

  /** What an iteration holds. */
  datatype Iteration = Iteration(queries: Queries, total: int)

  predicate IterationSuccessful(it: Iteration, expected: seq<string>) {
    && NamesOf(it.queries) == (set q | q in expected)
    && it.total == Successes(it.queries)
  }

  // ----- The benchmark -----

  predicate QueryStatus(its: seq<Iteration>, name: string) {
    forall k :: 0 <= k < |its| ==> Has(its[k].queries, name) && Succeeded(Lookup(its[k].queries, name))
  }

  predicate RanIn(its: seq<Iteration>, name: string) { forall k :: 0 <= k < |its| ==> Has(its[k].queries, name) }

  function QueryTime(its: seq<Iteration>, name: string): real
    requires RanIn(its, name)
  {
    if its == [] then 0.0 else QueryTime(its[..|its| - 1], name) + Lookup(its[|its| - 1].queries, name).performance
  }

  /** The query was run, and its time is not the -1 that stands for a failure. */
  ghost predicate SucceededIn(qs: Queries, name: string) {
    exists i :: 0 <= i < |qs| && qs[i].name == name && qs[i].performance != -1.0
  }

  lemma SucceededOnTimes(qs: Queries, name: string)
    requires DistinctNames(qs)
    ensures SucceededIn(qs, name) <==> Has(qs, name) && Succeeded(Lookup(qs, name))
  {
    if Has(qs, name) {
      LookupIsIn(qs, name);
      var j :| 0 <= j < |qs| && qs[j] == Lookup(qs, name);
      assert qs[j].name == name;
    }
  }

  function WallTime(its: seq<Iteration>): real {
    if its == [] then 0.0 else WallTime(its[..|its| - 1]) + Time(its[|its| - 1].queries)
  }

  class EdwBenchmarkPerformance {
    const totalIterations: int
    const expectedQueries: seq<string>
    var iterations: seq<EdwPowerIterationPerformance>

    ghost predicate Valid()
      reads this, iterations
    {
      && (forall i :: 0 <= i < |iterations| ==> iterations[i].Valid())
      && (forall i, j :: 0 <= i < j < |iterations| ==> iterations[i].id != iterations[j].id)
    }

    function Views(): (r: seq<Iteration>)
      reads this, iterations
      ensures |r| == |iterations| && forall i :: 0 <= i < |r| ==> r[i] == iterations[i].View()
    {
      seq(|iterations|, i requires 0 <= i < |iterations| reads this, iterations => iterations[i].View())
    }

    constructor (totalIterations: int, expectedQueries: seq<string>)
      ensures Valid() && iterations == [] && this.totalIterations == totalIterations && this.expectedQueries == expectedQueries
    {
      this.totalIterations, this.expectedQueries, iterations := totalIterations, expectedQueries, [];
    }

    method AddIterationPerformance(performance: EdwPowerIterationPerformance) returns (error: Option<AggregationError>)
      requires Valid() && performance.Valid()
      modifies this
      ensures Valid()
      ensures error == if exists i :: 0 <= i < |old(iterations)| && old(iterations)[i].id == performance.id
                       then Some(DuplicateIteration) else None
      ensures iterations == if error.Some? then old(iterations) else old(iterations) + [performance]
    {
      if exists i :: 0 <= i < |iterations| && iterations[i].id == performance.id {
        return Some(DuplicateIteration);
      }
      iterations := iterations + [performance];
      error := None;
    }

    /** functools.reduce raises on an empty list. */
    method IsSuccessful() returns (r: Result<bool, AggregationError>)
      requires Valid()
      ensures r == if iterations == [] then Failure(NoIterations)
                   else Success(forall k :: 0 <= k < |iterations| ==> IterationSuccessful(iterations[k].View(), expectedQueries))
    {
      if iterations == [] {
        return Failure(NoIterations);
      }
      var all := true;
      for k := 0 to |iterations|
        invariant all == forall i :: 0 <= i < k ==> IterationSuccessful(iterations[i].View(), expectedQueries)
      {
        var successful := iterations[k].IsSuccessful(expectedQueries);
        all := all && successful;
      }
      r := Success(all);
    }

    method AggregatedQueryStatus(name: string) returns (r: bool)
      requires Valid()
      ensures r == QueryStatus(Views(), name)
      ensures r <==> forall k :: 0 <= k < |iterations| ==> SucceededIn(iterations[k].performance, name)
    {
      for k := 0 to |iterations|
        invariant forall i :: 0 <= i < k ==> Has(Views()[i].queries, name) && Succeeded(Lookup(Views()[i].queries, name))
        invariant forall i :: 0 <= i < k ==> SucceededIn(iterations[i].performance, name)
      {
        SucceededOnTimes(iterations[k].performance, name);
        if !Has(iterations[k].performance, name) {
          assert !Has(Views()[k].queries, name);
          return false;
        }
        if !Succeeded(Lookup(iterations[k].performance, name)) {
          assert !Succeeded(Lookup(Views()[k].queries, name));
          return false;
        }
      }
      r := true;
    }

    method AggregatedQueryExecutionTime(name: string) returns (r: Result<real, AggregationError>)
      requires Valid()
      ensures r == if !QueryStatus(Views(), name) then Failure(FailedQuery)
                   else if totalIterations == 0 then Failure(ZeroIterations)
                   else Success(QueryTime(Views(), name) / totalIterations as real)
    {
      var status := AggregatedQueryStatus(name);
      if !status {
        return Failure(FailedQuery);
      }
      var views, sum := Views(), 0.0;
      for k := 0 to |iterations|
        invariant sum == QueryTime(views[..k], name)
      {
        assert views[..k + 1][..k] == views[..k];
        sum := sum + Lookup(iterations[k].performance, name).performance;
      }
      assert views[..|iterations|] == views;
      if totalIterations == 0 {
        return Failure(ZeroIterations);
      }
      r := Success(sum / totalIterations as real);
    }

    /** The value of get_aggregated_wall_time_performance_sample. */
    method AggregatedWallTime() returns (r: Result<real, AggregationError>)
      requires Valid()
      ensures r == if totalIterations == 0 then Failure(ZeroIterations)
                   else Success(WallTime(Views()) / totalIterations as real)
    {
      var views, sum := Views(), 0.0;
      for k := 0 to |iterations|
        invariant sum == WallTime(views[..k])
      {
        assert views[..k + 1][..k] == views[..k];
        sum := sum + iterations[k].wallTime;
      }
      assert views[..|iterations|] == views;
      if totalIterations == 0 {
        return Failure(ZeroIterations);
      }
      r := Success(sum / totalIterations as real);
    }
  }

  // ----- Success -----

  lemma {:induction false} SuccessesAll(qs: Queries)
    ensures Successes(qs) <= |qs|
    ensures Successes(qs) == |qs| <==> forall i :: 0 <= i < |qs| ==> Succeeded(qs[i])
  {
    if qs != [] {
      SuccessesAll(qs[..|qs| - 1]);
    }
  }

  /** How many of the times are not the -1 that stands for a failure. */
  lemma {:induction false} SuccessesOnTimes(qs: Queries)
    ensures Successes(qs) == |set i | 0 <= i < |qs| && qs[i].performance != -1.0|
  {
    if qs != [] {
      var n := |qs| - 1;
      SuccessesOnTimes(qs[..n]);
      var all, front := set i | 0 <= i < |qs| && qs[i].performance != -1.0, set i | 0 <= i < n && qs[..n][i].performance != -1.0;
      assert all == front + if qs[n].performance != -1.0 then {n} else {};
    }
  }

  lemma {:induction false} NameCount(qs: Queries)
    requires DistinctNames(qs)
    ensures |NamesOf(qs)| == |qs|
  {
    if qs != [] {
      var front := qs[..|qs| - 1];
      NameCount(front);
      assert NamesOf(qs) == NamesOf(front) + {qs[|qs| - 1].name};
    }
  }

  /** An iteration that counts as successful has run all its queries successfully exactly when its
      total is the number of different expected queries. */
  lemma SuccessMeansAllSucceeded(it: Iteration, expected: seq<string>)
    requires DistinctNames(it.queries) && IterationSuccessful(it, expected)
    ensures it.total == |set q | q in expected| <==> forall i :: 0 <= i < |it.queries| ==> Succeeded(it.queries[i])
  {
    NameCount(it.queries);
    SuccessesAll(it.queries);
  }

  /** An iteration with too small a total is successful although one of its two queries failed. */
  lemma SmallTotalHidesFailure()
    ensures var it := Iteration([Query("a", 1.0), Query("b", -1.0)], 1);
            DistinctNames(it.queries) && IterationSuccessful(it, ["a", "b"]) && !Succeeded(it.queries[1])
  {
    var qs := [Query("a", 1.0), Query("b", -1.0)];
    var one := [Query("a", 1.0)];
    assert one[..0] == [] && Successes([]) == 0;
    assert Succeeded(one[0]) && Successes(one) == 1;
    assert qs[..1] == one && !Succeeded(qs[1]) && Successes(qs) == 1;
    var expected := ["a", "b"];
    assert expected[0] == qs[0].name && expected[1] == qs[1].name;
    assert NamesOf(qs) == {"a", "b"} == (set q | q in expected) by {
      assert qs[0].name in NamesOf(qs) && qs[1].name in NamesOf(qs);
    }
  }

  lemma NamesAgree(qs: Queries, expected: seq<string>)
    ensures NamesOf(qs) == (set q | q in expected) <==> forall n :: n in expected <==> Has(qs, n)
  {
    forall n ensures Has(qs, n) <==> n in NamesOf(qs) {
      HasIsName(qs, n);
    }
  }

  lemma HasIsName(qs: Queries, n: string)
    ensures Has(qs, n) <==> n in NamesOf(qs)
  {
  }

  // ----- Exchange of sums -----

  /** The sum over different names of the time each took. */
  function TimeOf(qs: Queries, names: seq<string>): real
    requires forall n :: n in names ==> Has(qs, n)
  {
    if names == [] then 0.0 else TimeOf(qs, names[1..]) + Lookup(qs, names[0]).performance
  }

  lemma {:induction false} TimeOfWithout(qs: Queries, names: seq<string>, i: nat)
    requires i < |names| && forall n :: n in names ==> Has(qs, n)
    ensures TimeOf(qs, names) == TimeOf(qs, names[..i] + names[i + 1..]) + Lookup(qs, names[i]).performance
  {
    var rest := names[..i] + names[i + 1..];
    if i == 0 {
      assert rest == names[1..];
    } else {
      TimeOfWithout(qs, names[1..], i - 1);
      assert rest[1..] == names[1..][..i - 1] + names[1..][i..];
    }
  }

  lemma {:induction false} TimeOfFront(qs: Queries, names: seq<string>)
    requires qs != [] && qs[|qs| - 1].name !in names && forall n :: n in names ==> Has(qs, n)
    ensures forall n :: n in names ==> Has(qs[..|qs| - 1], n)
    ensures TimeOf(qs, names) == TimeOf(qs[..|qs| - 1], names)
  {
    forall n | n in names ensures Has(qs[..|qs| - 1], n) {
      var i :| 0 <= i < |qs| && qs[i].name == n;
      assert qs[..|qs| - 1][i].name == n;
    }
    if names != [] {
      TimeOfFront(qs, names[1..]);
    }
  }

  lemma FirstIsIn(names: seq<string>)
    requires names != []
    ensures names[0] in names
  {
  }

  /** Summing by name is summing in the order added. */
  lemma {:induction false} TimeByName(qs: Queries, names: seq<string>)
    requires DistinctNames(qs) && Distinct(names) && forall n :: n in names <==> Has(qs, n)
    ensures TimeOf(qs, names) == Time(qs)
  {
    if qs == [] {
      if names != [] {
        FirstIsIn(names);
        assert false;
      }
    } else {
      var last, front := qs[|qs| - 1], qs[..|qs| - 1];
      assert Has(qs, last.name);
      var i :| 0 <= i < |names| && names[i] == last.name;
      var rest := names[..i] + names[i + 1..];
      TimeOfWithout(qs, names, i);
      assert last.name !in rest;
      TimeOfFront(qs, rest);
      forall n ensures n in rest <==> Has(front, n) {
        if Has(front, n) {
          var j :| 0 <= j < |front| && front[j].name == n;
          assert qs[j].name == n;
          assert n in names;
          var k :| 0 <= k < |names| && names[k] == n;
          assert k < i ==> rest[k] == n;
          assert k > i ==> rest[k - 1] == n;
        }
      }
      TimeByName(front, rest);
    }
  }

  /** The sum over the names of the time each took in all iterations. */
  function QueryTimes(its: seq<Iteration>, names: seq<string>): real
    requires forall n :: n in names ==> RanIn(its, n)
  {
    if names == [] then 0.0 else QueryTimes(its, names[1..]) + QueryTime(its, names[0])
  }

  lemma {:induction false} QueryTimesSplit(its: seq<Iteration>, names: seq<string>)
    requires its != [] && forall n :: n in names ==> RanIn(its, n)
    ensures QueryTimes(its, names) == QueryTimes(its[..|its| - 1], names) + TimeOf(its[|its| - 1].queries, names)
  {
    if names != [] {
      QueryTimesSplit(its, names[1..]);
    }
  }

  lemma {:induction false} SumsExchange(its: seq<Iteration>, names: seq<string>)
    requires Distinct(names)
    requires forall k :: 0 <= k < |its| ==> DistinctNames(its[k].queries) && forall n :: n in names <==> Has(its[k].queries, n)
    ensures QueryTimes(its, names) == WallTime(its)
  {
    if its == [] {
      NoTimes(names);
    } else {
      SumsExchange(its[..|its| - 1], names);
      QueryTimesSplit(its, names);
      TimeByName(its[|its| - 1].queries, names);
    }
  }

  lemma {:induction false} NoTimes(names: seq<string>)
    ensures QueryTimes([], names) == 0.0
  {
    if names != [] {
      NoTimes(names[1..]);
    }
  }

  /** The sum over the names of the aggregated time of each. */
  function AggregatedTimes(its: seq<Iteration>, names: seq<string>, total: int): real
    requires total != 0 && forall n :: n in names ==> RanIn(its, n)
  {
    if names == [] then 0.0 else AggregatedTimes(its, names[1..], total) + QueryTime(its, names[0]) / total as real
  }

  lemma {:induction false} AggregatedTimesDivide(its: seq<Iteration>, names: seq<string>, total: int)
    requires total != 0 && forall n :: n in names ==> RanIn(its, n)
    ensures AggregatedTimes(its, names, total) == QueryTimes(its, names) / total as real
  {
    if names != [] {
      AggregatedTimesDivide(its, names[1..], total);
    }
  }

  /** If every iteration is successful, with the number of different expected queries as its total, then
      every expected query has an aggregated time, and these times add up to the aggregated wall time. */
  lemma QueryTimesAddUpToWallTime(its: seq<Iteration>, expected: seq<string>, names: seq<string>, total: int)
    requires total != 0 && Distinct(names) && forall n :: n in names <==> n in expected
    requires forall k :: 0 <= k < |its| ==>
               DistinctNames(its[k].queries) && IterationSuccessful(its[k], expected) && its[k].total == |set q | q in expected|
    ensures forall n :: n in expected ==> QueryStatus(its, n)
    ensures (forall n :: n in names ==> RanIn(its, n))
            && AggregatedTimes(its, names, total) == WallTime(its) / total as real
  {
    forall k | 0 <= k < |its|
      ensures forall n :: (n in names <==> Has(its[k].queries, n)) && (n in names ==> Succeeded(Lookup(its[k].queries, n)))
    {
      var qs := its[k].queries;
      SuccessMeansAllSucceeded(its[k], expected);
      forall n ensures n in names <==> Has(qs, n) {
        HasIsName(qs, n);
      }
      forall n | n in names ensures Succeeded(Lookup(qs, n)) {
        LookupIsIn(qs, n);
      }
    }
    SumsExchange(its, names);
    AggregatedTimesDivide(its, names, total);
  }

  lemma {:induction false} LookupIsIn(qs: Queries, name: string)
    requires Has(qs, name)
    ensures Lookup(qs, name).name == name && exists i :: 0 <= i < |qs| && qs[i] == Lookup(qs, name)
  {
    if qs[|qs| - 1].name != name {
      var front := qs[..|qs| - 1];
      var i :| 0 <= i < |qs| && qs[i].name == name;
      assert front[i].name == name;
      LookupIsIn(front, name);
      var j :| 0 <= j < |front| && front[j] == Lookup(front, name);
      assert qs[j] == Lookup(qs, name);
    }
  }
}
