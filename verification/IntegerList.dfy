/** Compressed lists of integers: what they stand for, and the random access that avoids expanding
    them. */
module IntegerLists {
  import opened Common

  /** A single integer, or the bounds of a range (both included), with or without a step. */
  datatype Group = Single(value: int) | Pair(lo: int, hi: int) | Triple(lo: int, hi: int, step: int)

  function Low(g: Group): int { if g.Single? then g.value else g.lo }
  function High(g: Group): int { if g.Single? then g.value else g.hi }
  function Step(g: Group): int { if g.Triple? then g.step else 1 }

  /** Python's range. */
  function Range(start: int, stop: int, step: int): (r: seq<int>)
    requires step != 0
    ensures r == [] <==> (if step > 0 then start >= stop else start <= stop)
    decreases if step > 0 then stop - start else start - stop
  {
    if (if step > 0 then start >= stop else start <= stop) then []
    else [start] + Range(start + step, stop, step)
  }

  lemma NextIs(start: int, step: int, i: nat)
    requires i > 0
    ensures start + step + (i - 1) * step == start + i * step
  {
  }

  lemma {:induction false} RangeAt(start: int, stop: int, step: int, i: nat)
    requires step != 0 && i < |Range(start, stop, step)|
    ensures Range(start, stop, step)[i] == start + i * step
    ensures if step > 0 then start <= Range(start, stop, step)[i] < stop else stop < Range(start, stop, step)[i] <= start
    decreases i
  {
    if i == 0 {
      assert 0 * step == 0;
    } else {
      RangeAt(start + step, stop, step, i - 1);
      NextIs(start, step, i);
      assert Range(start, stop, step)[i] == Range(start + step, stop, step)[i - 1];
    }
  }

  /** _CreateXrangeFromTuple; a single integer stands for itself. */
  function Items(g: Group): seq<int>
    requires Step(g) != 0
  {
    if g.Single? then [g.value]
    else Range(Low(g), High(g) + (if Step(g) > 0 then 1 else -1), Step(g))
  }

  lemma {:induction false} RangeMembers(start: int, stop: int, step: int, x: int)
    requires step != 0
    ensures x in Range(start, stop, step) <==> exists i: nat :: x == start + i * step && if step > 0 then x < stop else x > stop
  {
    var r := Range(start, stop, step);
    if x in r {
      var i :| 0 <= i < |r| && r[i] == x;
      RangeAt(start, stop, step, i);
    }
    forall i: nat | x == start + i * step && if step > 0 then x < stop else x > stop ensures x in r {
      RangeHas(start, stop, step, i);
    }
  }

  lemma {:induction false} RangeHas(start: int, stop: int, step: int, i: nat)
    requires step != 0 && if step > 0 then start + i * step < stop else start + i * step > stop
    ensures i < |Range(start, stop, step)| && Range(start, stop, step)[i] == start + i * step
    decreases i
  {
    if i == 0 {
      assert start + 0 * step == start;
    } else {
      NextIs(start, step, i);
      if step > 0 {
        MulMono(1, i, step);
      } else {
        MulMono(1, i, -step);
        assert i * -step == -(i * step);
      }
      RangeHas(start + step, stop, step, i - 1);
    }
  }

  /** A range has exactly the integers that lie whole steps beyond its first bound and not beyond its second
      one; a single integer has itself. */
  lemma ItemsMembers(g: Group, x: int)
    requires g.Triple? ==> g.step != 0
    ensures g.Single? ==> Items(g) == [g.value]
    ensures g.Pair? ==> (x in Items(g) <==> g.lo <= x <= g.hi)
    ensures g.Triple? && g.step > 0 ==> (x in Items(g) <==> exists i: nat :: x == g.lo + i * g.step && x <= g.hi)
    ensures g.Triple? && g.step < 0 ==> (x in Items(g) <==> exists i: nat :: x == g.lo + i * g.step && x >= g.hi)
  {
    match g {
      case Single(_) =>
      case Pair(lo, hi) =>
        RangeMembers(lo, hi + 1, 1, x);
        if lo <= x <= hi {
          var i: nat := x - lo;
          assert x == lo + i * 1;
        }
      case Triple(lo, hi, step) => RangeMembers(lo, hi + (if step > 0 then 1 else -1), step, x);
    }
  }

  /** How many there are, and in which order. */
  lemma ItemsCount(g: Group)
    requires g.Triple? ==> g.step != 0
    ensures g.Pair? ==> forall i :: 0 <= i < |Items(g)| ==> Items(g)[i] == g.lo + i
    ensures g.Triple? ==> forall i :: 0 <= i < |Items(g)| ==> Items(g)[i] == g.lo + i * g.step
    ensures g.Pair? ==> |Items(g)| == if g.lo <= g.hi then g.hi - g.lo + 1 else 0
    ensures g.Triple? && g.step > 0 ==> |Items(g)| == if g.lo <= g.hi then (g.hi - g.lo) / g.step + 1 else 0
    ensures g.Triple? && g.step < 0 ==> |Items(g)| == if g.lo >= g.hi then (g.lo - g.hi) / -g.step + 1 else 0
  {
    if !g.Single? {
      forall i | 0 <= i < |Items(g)| ensures Items(g)[i] == g.lo + i * Step(g) {
        RangeAt(g.lo, g.hi + (if Step(g) > 0 then 1 else -1), Step(g), i);
      }
    }
    if !g.Single? && Step(g) > 0 && g.lo <= g.hi {
      RisingLength(g.lo, g.hi, Step(g));
    } else if !g.Single? && Step(g) < 0 && g.lo >= g.hi {
      FallingItems(g.lo, g.hi, -Step(g));
    }
  }

  lemma FallingItems(lo: int, hi: int, down: int)
    requires down > 0 && lo >= hi
    ensures var r := Range(lo, hi - 1, -down);
            |r| == (lo - hi) / down + 1 && forall i :: 0 <= i < |r| ==> r[i] == lo - i * down
    decreases lo - hi
  {
    var r := Range(lo, hi - 1, -down);
    DivMod(lo - hi, down);
    if lo - down >= hi {
      FallingItems(lo - down, hi, down);
      var q := (lo - hi) / down;
      QuotientPositive(lo - hi, down);
      OneMore(q - 1, down);
      DivModUnique(lo - down - hi, down, q - 1, (lo - hi) % down);
      forall i | 0 <= i < |r| ensures r[i] == lo - i * down {
        if i > 0 {
          OneMore(i - 1, down);
        }
      }
    } else {
      assert Range(lo - down, hi - 1, -down) == [];
      DivModUnique(lo - hi, down, 0, lo - hi);
    }
  }

  lemma {:induction false} RisingLength(lo: int, hi: int, step: int)
    requires step > 0 && lo <= hi
    ensures |Range(lo, hi + 1, step)| == (hi - lo) / step + 1
    decreases hi - lo
  {
    DivMod(hi - lo, step);
    if lo + step <= hi {
      RisingLength(lo + step, hi, step);
      var q := (hi - lo) / step;
      QuotientPositive(hi - lo, step);
      OneMore(q - 1, step);
      DivModUnique(hi - lo - step, step, q - 1, (hi - lo) % step);
    } else {
      assert Range(lo + step, hi + 1, step) == [];
      DivModUnique(hi - lo, step, 0, hi - lo);
    }
  }

  /** range() refuses a step of zero. */
  predicate Steps(groups: seq<Group>) { forall k :: 0 <= k < |groups| ==> Step(groups[k]) != 0 }

  /** What iterating over the list yields. */
  function Expand(groups: seq<Group>): seq<int>
    requires Steps(groups)
  {
    if groups == [] then [] else Items(groups[0]) + Expand(groups[1..])
  }

  lemma ExpandOne(g: Group)
    requires Step(g) != 0
    ensures Expand([g]) == Items(g)
  {
    assert [g][1..] == [];
  }

  lemma StepsAppend(xs: seq<Group>, ys: seq<Group>)
    requires Steps(xs) && Steps(ys)
    ensures Steps(xs + ys)
  {
  }

  lemma ExpandFirst(all: seq<Group>, g: Group, rest: seq<Group>)
    requires Steps(all) && all == [g] + rest
    ensures Step(g) != 0 && Steps(rest) && Expand(all) == Items(g) + Expand(rest)
  {
    assert all[0] == g && all[1..] == rest;
  }

  /** The groups one after another. */
  lemma {:induction false} ExpandAppend(xs: seq<Group>, ys: seq<Group>)
    requires Steps(xs) && Steps(ys)
    ensures Steps(xs + ys) && Expand(xs + ys) == Expand(xs) + Expand(ys)
  {
    StepsAppend(xs, ys);
    if xs == [] {
      assert xs + ys == ys;
    } else {
      assert xs + ys == [xs[0]] + (xs[1..] + ys);
      ExpandFirst(xs, xs[0], xs[1..]);
      ExpandFirst(xs + ys, xs[0], xs[1..] + ys);
      ExpandAppend(xs[1..], ys);
    }
  }

  datatype IntegerList = IntegerList(groups: seq<Group>, length: nat)

  datatype ValueError = InvalidList | NotIncreasing | ZeroStep

  lemma ExpandSnoc(groups: seq<Group>, g: Group)
    requires Steps(groups) && Step(g) != 0
    ensures Expand(groups + [g]) == Expand(groups) + Items(g)
  {
    if groups == [] {
      assert (groups + [g])[1..] == [];
    } else {
      assert (groups + [g])[1..] == groups[1..] + [g];
      ExpandSnoc(groups[1..], g);
    }
  }

  /** IntegerList.__init__. */
  method Create(groups: seq<Group>) returns (r: Result<IntegerList, ValueError>)
    ensures r.Success? <==> Steps(groups)
    ensures r.Success? ==> r.value == IntegerList(groups, |Expand(groups)|)
    ensures r.Failure? ==> r.error == ZeroStep
  {
    var length := 0;
    for k := 0 to |groups|
      invariant Steps(groups[..k]) && length == |Expand(groups[..k])|
    {
      if Step(groups[k]) == 0 {
        return Failure(ZeroStep);
      }
      assert groups[..k + 1] == groups[..k] + [groups[k]];
      ExpandSnoc(groups[..k], groups[k]);
      length := length + |Items(groups[k])|;
    }
    assert groups[..|groups|] == groups;
    r := Success(IntegerList(groups, length));
  }

  /** The element that the index walk arrives at. */
  function Fetch(groups: seq<Group>, i: nat): int
    requires Steps(groups) && i < |Expand(groups)|
  {
    var n := |Items(groups[0])|;
    if i == 0 then Low(groups[0])
    else if i < n then Low(groups[0]) + i * Step(groups[0])
    else Fetch(groups[1..], i - n)
  }

  lemma FetchOn(groups: seq<Group>, i: nat)
    requires Steps(groups) && 0 < i < |Expand(groups)|
    ensures var n := |Items(groups[0])|;
            if i < n then Fetch(groups, i) == Low(groups[0]) + i * Step(groups[0])
            else i - n < |Expand(groups[1..])| && Fetch(groups, i) == Fetch(groups[1..], i - n)
  {
  }

  /** IntegerList.__getitem__; None stands for the IndexError. */
  method GetItem(list: IntegerList, i: int) returns (r: Option<int>)
    requires Steps(list.groups) && list.length == |Expand(list.groups)|
    ensures r == if 0 <= i < list.length then Some(Fetch(list.groups, i)) else None
  {
    if i < 0 || i >= list.length {
      return None;
    }
    var idx, groupIdx := i, 0;
    while idx > 0
      invariant 0 <= idx && groupIdx <= |list.groups| && idx < |Expand(list.groups[groupIdx..])|
      invariant Fetch(list.groups, i) == Fetch(list.groups[groupIdx..], idx)
      decreases |list.groups| - groupIdx
    {
      var group := list.groups[groupIdx];
      ghost var tail := list.groups[groupIdx..];
      assert tail[0] == group && tail[1..] == list.groups[groupIdx + 1..];
      FetchOn(tail, idx);
      assert group.Single? ==> |Items(group)| == 1;
      if group.Single? {
        groupIdx, idx := groupIdx + 1, idx - 1;
      } else {
        var groupLen := |Items(group)|;
        if idx >= groupLen {
          groupIdx, idx := groupIdx + 1, idx - groupLen;
        } else {
          return Some(Low(group) + idx * Step(group));
        }
      }
    }
    assert Fetch(list.groups[groupIdx..], 0) == Low(list.groups[groupIdx]);
    r := Some(Low(list.groups[groupIdx]));
  }

  // ----- When random access agrees with iteration -----

  /** An empty range at the front, or right behind a non-empty group, starts with the number that the
      rest of the list starts with (if there is a rest). */
  predicate NoMisleadingRange(groups: seq<Group>, behindItems: bool)
    requires Steps(groups)
  {
    groups == [] ||
    if Items(groups[0]) != [] then NoMisleadingRange(groups[1..], true)
    else
      && (behindItems && Expand(groups[1..]) != [] ==> Low(groups[0]) == Expand(groups[1..])[0])
      && NoMisleadingRange(groups[1..], false)
  }

  /** From index first on, random access gives what iteration yields. */
  ghost predicate AgreesFrom(groups: seq<Group>, first: nat)
    requires Steps(groups)
  {
    forall i :: first <= i < |Expand(groups)| ==> Fetch(groups, i) == Expand(groups)[i]
  }

  lemma ItemsAt(g: Group, i: nat)
    requires Step(g) != 0 && i < |Items(g)|
    ensures Items(g)[i] == Low(g) + i * Step(g)
  {
    if !g.Single? {
      RangeAt(Low(g), High(g) + (if Step(g) > 0 then 1 else -1), Step(g), i);
    }
  }

  lemma {:induction false} AgreementFrom(groups: seq<Group>, behindItems: bool)
    requires Steps(groups)
    ensures NoMisleadingRange(groups, behindItems) <==> AgreesFrom(groups, if behindItems then 0 else 1)
  {
    if groups != [] {
      var n, rest := |Items(groups[0])|, groups[1..];
      var first := if behindItems then 0 else 1;
      AgreementFrom(rest, n > 0);
      forall i | 0 <= i < n ensures Fetch(groups, i) == Expand(groups)[i] {
        ItemsAt(groups[0], i);
      }
      forall i | 0 < i && n <= i < |Expand(groups)|
        ensures Fetch(groups, i) == Fetch(rest, i - n) && Expand(groups)[i] == Expand(rest)[i - n]
      {
      }
      if AgreesFrom(groups, first) {
        forall i | (if n > 0 then 0 else 1) <= i < |Expand(rest)| ensures Fetch(rest, i) == Expand(rest)[i] {
          assert Fetch(groups, i + n) == Expand(groups)[i + n];
        }
        if n == 0 && behindItems && Expand(rest) != [] {
          assert Fetch(groups, 0) == Expand(groups)[0];
        }
      }
    }
  }

  /** Every valid index gives the element that iteration yields there, exactly when no empty range is
      misleading. */
  lemma IndexingAgreesIff(groups: seq<Group>)
    requires Steps(groups)
    ensures NoMisleadingRange(groups, true) <==> AgreesFrom(groups, 0)
  {
    AgreementFrom(groups, true);
  }

  /** In particular it does in a list of non-empty groups. */
  lemma {:induction false} NonEmptyGroupsAgree(groups: seq<Group>)
    requires Steps(groups) && forall k :: 0 <= k < |groups| ==> Items(groups[k]) != []
    ensures NoMisleadingRange(groups, true) && AgreesFrom(groups, 0)
  {
    if groups != [] {
      NonEmptyGroupsAgree(groups[1..]);
    }
    IndexingAgreesIff(groups);
  }

  /** The list [(5, 3), 7] iterates over 7 only, and its element 0 is 5. */
  lemma EmptyRangeMisleads()
    ensures var groups := [Pair(5, 3), Single(7)];
            Steps(groups) && Expand(groups) == [7] && Fetch(groups, 0) == 5
  {
    var groups := [Pair(5, 3), Single(7)];
    assert groups[1..] == [Single(7)] && groups[1..][1..] == [];
    assert Expand(groups) == Items(groups[0]) + (Items(Single(7)) + []);
  }
}
