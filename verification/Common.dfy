/** Small notions shared by the models: optional values, fallible results, and facts about
    sequences that hold every element of an index range exactly once. */
module Common {
  datatype Option<+T> = None | Some(value: T)

  datatype Result<+T, +E> = Success(value: T) | Failure(error: E)

  /** No element occurs twice. */
  ghost predicate Distinct<T>(xs: seq<T>) {
    forall i, j :: 0 <= i < j < |xs| ==> xs[i] != xs[j]
  }

  ghost function Elements<T>(xs: seq<T>): set<T>
  {
    set x | x in xs
  }

  lemma {:induction false} DistinctSize<T>(xs: seq<T>)
    requires Distinct(xs)
    ensures |Elements(xs)| == |xs|
  {
    if |xs| > 0 {
      var front, last := xs[..|xs| - 1], xs[|xs| - 1];
      DistinctSize(front);
      assert Elements(xs) == Elements(front) + {last};
    }
  }

  function Below(n: nat): (r: set<nat>)
    ensures |r| == n
    ensures forall x: nat :: x in r <==> x < n
  {
    if n == 0 then {} else Below(n - 1) + {n - 1}
  }

  /** Pigeonhole: n different indices below n are all the indices below n. */
  lemma Pigeonhole(xs: seq<nat>, n: nat)
    requires Distinct(xs) && forall x :: x in xs ==> x < n
    ensures |xs| <= n
    ensures |xs| == n ==> forall x: nat :: x < n ==> x in xs
    ensures |xs| < n ==> exists x: nat :: x < n && x !in xs
  {
    DistinctSize(xs);
    assert Elements(xs) <= Below(n);
    SubsetSize(Elements(xs), Below(n));
    if |xs| < n {
      if Below(n) <= Elements(xs) {
        SubsetSize(Below(n), Elements(xs));
        assert false;
      }
      var x :| x in Below(n) && x !in Elements(xs);
    } else {
      assert Elements(xs) == Below(n);
      forall x: nat | x < n ensures x in xs {
        assert x in Below(n);
      }
    }
  }

  lemma SubsetSize<T>(a: set<T>, b: set<T>)
    requires a <= b
    ensures |a| <= |b|
    ensures |a| == |b| ==> a == b
  {
    assert b == a + (b - a);
  }

  function Sum(xs: seq<nat>): nat {
    if xs == [] then 0 else xs[0] + Sum(xs[1..])
  }

  lemma {:induction false} SumUpdate(xs: seq<nat>, i: nat, v: nat)
    requires i < |xs|
    ensures Sum(xs[i := v]) == Sum(xs) - xs[i] + v
  {
    if i > 0 {
      assert xs[i := v][1..] == xs[1..][i - 1 := v];
      SumUpdate(xs[1..], i - 1, v);
    } else {
      assert xs[0 := v][1..] == xs[1..];
    }
  }

  // ----- Division -----

  lemma MulMono(a: nat, b: nat, c: nat)
    requires a <= b
    ensures a * c <= b * c
  {
    assert b * c == a * c + (b - a) * c;
  }

  lemma FactorPositive(a: nat, b: nat)
    requires 0 < a * b
    ensures 0 < b
  {
  }

  lemma OneMore(a: nat, b: nat)
    ensures (a + 1) * b == a * b + b
  {
  }

  lemma DivMod(n: nat, d: nat)
    requires d > 0
    ensures n == n / d * d + n % d && n % d < d
  {
  }

  /** Quotient and remainder are unique. */
  lemma DivModUnique(n: nat, d: nat, q: nat, r: nat)
    requires r < d && n == q * d + r
    ensures n / d == q && n % d == r
  {
    DivMod(n, d);
    var p := n / d;
    if p < q {
      MulMono(p + 1, q, d);
      OneMore(p, d);
    } else if q < p {
      MulMono(q + 1, p, d);
      OneMore(q, d);
    }
  }

  lemma QuotientPositive(n: nat, d: nat)
    requires 0 < d <= n
    ensures n / d > 0
  {
    DivMod(n, d);
    if n / d < 1 {
      MulMono(n / d, 0, d);
    }
  }

  lemma QuotientBelow(n: nat, d: nat, bound: nat)
    requires d > 0 && n < bound * d
    ensures n / d < bound
  {
    DivMod(n, d);
    if bound <= n / d {
      MulMono(bound, n / d, d);
    }
  }
}
