/** Sums, filters and distinct elements of sequences, shared by the modules of the model. */
module Sums {

  function Sum<T>(s: seq<T>, f: T -> int): int {
    if s == [] then 0 else f(s[0]) + Sum(s[1..], f)
  }

  function Filter<T>(s: seq<T>, p: T -> bool): seq<T> {
    if s == [] then []
    else if p(s[0]) then [s[0]] + Filter(s[1..], p)
    else Filter(s[1..], p)
  }

  ghost predicate NoDuplicates<T>(s: seq<T>) {
    forall i, j :: 0 <= i < j < |s| ==> s[i] != s[j]
  }

  lemma {:induction false} SumConcat<T>(a: seq<T>, b: seq<T>, f: T -> int)
    ensures Sum(a + b, f) == Sum(a, f) + Sum(b, f)
  {
    if a == [] {
      assert a + b == b;
    } else {
      assert (a + b)[1..] == a[1..] + b;
      SumConcat(a[1..], b, f);
    }
  }

  lemma SumAppend<T>(s: seq<T>, x: T, f: T -> int)
    ensures Sum(s + [x], f) == Sum(s, f) + f(x)
  {
    SumConcat(s, [x], f);
  }

  lemma SumInit<T>(s: seq<T>, f: T -> int)
    requires s != []
    ensures Sum(s, f) == Sum(s[..|s| - 1], f) + f(s[|s| - 1])
  {
    assert s == s[..|s| - 1] + [s[|s| - 1]];
    SumAppend(s[..|s| - 1], s[|s| - 1], f);
  }

  lemma {:induction false} SumUpdate<T>(s: seq<T>, i: nat, x: T, f: T -> int)
    requires i < |s|
    ensures Sum(s[i := x], f) == Sum(s, f) - f(s[i]) + f(x)
  {
    if i > 0 {
      assert s[i := x][1..] == s[1..][i - 1 := x];
      SumUpdate(s[1..], i - 1, x, f);
    }
  }

  /** Summing a filtered sequence is summing a function that is zero on what was dropped. */
  lemma {:induction false} SumFilter<T>(s: seq<T>, p: T -> bool, f: T -> int, g: T -> int)
    requires forall x <- s :: g(x) == if p(x) then f(x) else 0
    ensures Sum(Filter(s, p), f) == Sum(s, g)
  {
    if s != [] {
      SumFilter(s[1..], p, f, g);
    }
  }

  lemma {:induction false} SumAtMost<T>(s: seq<T>, f: T -> int, g: T -> int)
    requires forall x <- s :: f(x) <= g(x)
    ensures Sum(s, f) <= Sum(s, g)
  {
    if s != [] {
      SumAtMost(s[1..], f, g);
    }
  }

  lemma {:induction false} SumNonnegative<T>(s: seq<T>, f: T -> int)
    requires forall x <- s :: f(x) >= 0
    ensures Sum(s, f) >= 0
  {
    if s != [] {
      SumNonnegative(s[1..], f);
    }
  }

  lemma {:induction false} SumZero<T>(s: seq<T>, f: T -> int)
    requires forall x <- s :: f(x) == 0
    ensures Sum(s, f) == 0
  {
    if s != [] {
      SumZero(s[1..], f);
    }
  }

  /** A sum of two functions splits. */
  lemma {:induction false} SumSplit<T>(s: seq<T>, f: T -> int, g: T -> int, h: T -> int)
    requires forall x <- s :: h(x) == f(x) + g(x)
    ensures Sum(s, h) == Sum(s, f) + Sum(s, g)
  {
    if s != [] {
      SumSplit(s[1..], f, g, h);
    }
  }

  lemma {:induction false} FilterMembers<T>(s: seq<T>, p: T -> bool)
    ensures forall x :: x in Filter(s, p) <==> x in s && p(x)
  {
    if s != [] {
      FilterMembers(s[1..], p);
    }
  }

  lemma {:induction false} FilterConcat<T>(a: seq<T>, b: seq<T>, p: T -> bool)
    ensures Filter(a + b, p) == Filter(a, p) + Filter(b, p)
  {
    if a == [] {
      assert a + b == b;
    } else {
      assert (a + b)[1..] == a[1..] + b;
      FilterConcat(a[1..], b, p);
    }
  }
}
