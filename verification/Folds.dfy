/** Sums, filters and maps over table rows, and the laws the queries are built from.
    A filter condition is written into the summand, so one operator serves SUM, COUNT and GROUP BY. */
module Folds {

  function SumOf<T(!new)>(xs: seq<T>, f: T -> int): int {
    if xs == [] then 0 else SumOf(xs[..|xs| - 1], f) + f(xs[|xs| - 1])
  }

  function Filter<T(!new)>(xs: seq<T>, p: T -> bool): (r: seq<T>)
    ensures |r| <= |xs|
    ensures forall x :: x in r <==> x in xs && p(x)
  {
    if xs == [] then []
    else
      var kept := Filter(xs[..|xs| - 1], p);
      if p(xs[|xs| - 1]) then kept + [xs[|xs| - 1]] else kept
  }

  function Map<T(!new), U(!new)>(xs: seq<T>, f: T -> U): (r: seq<U>)
    ensures |r| == |xs| && forall i :: 0 <= i < |xs| ==> r[i] == f(xs[i])
  {
    seq(|xs|, i requires 0 <= i < |xs| => f(xs[i]))
  }

  /** A sum over the first i + 1 rows is the sum over the first i rows and one more summand. */
  lemma SumSnoc<T(!new)>(xs: seq<T>, i: nat, f: T -> int)
    requires i < |xs|
    ensures SumOf(xs[..i + 1], f) == SumOf(xs[..i], f) + f(xs[i])
  {
    assert xs[..i + 1][..i] == xs[..i];
  }

  lemma {:induction false} SumAppend<T(!new)>(xs: seq<T>, ys: seq<T>, f: T -> int)
    ensures SumOf(xs + ys, f) == SumOf(xs, f) + SumOf(ys, f)
  {
    if ys == [] {
      assert xs + ys == xs;
    } else {
      assert (xs + ys)[..|xs + ys| - 1] == xs + ys[..|ys| - 1];
      SumAppend(xs, ys[..|ys| - 1], f);
    }
  }

  lemma {:induction false} SumCongruent<T(!new)>(xs: seq<T>, f: T -> int, g: T -> int)
    requires forall x :: x in xs ==> f(x) == g(x)
    ensures SumOf(xs, f) == SumOf(xs, g)
  {
    if xs != [] {
      SumCongruent(xs[..|xs| - 1], f, g);
    }
  }

  lemma {:induction false} SumAtMost<T(!new)>(xs: seq<T>, f: T -> int, g: T -> int)
    requires forall x :: x in xs ==> f(x) <= g(x)
    ensures SumOf(xs, f) <= SumOf(xs, g)
  {
    if xs != [] {
      SumAtMost(xs[..|xs| - 1], f, g);
    }
  }

  lemma {:induction false} SumZero<T(!new)>(xs: seq<T>, f: T -> int)
    requires forall x :: x in xs ==> f(x) == 0
    ensures SumOf(xs, f) == 0
  {
    if xs != [] {
      SumZero(xs[..|xs| - 1], f);
    }
  }

  lemma {:induction false} SumAdd<T(!new)>(xs: seq<T>, f: T -> int, g: T -> int, h: T -> int)
    requires forall x :: x in xs ==> h(x) == f(x) + g(x)
    ensures SumOf(xs, h) == SumOf(xs, f) + SumOf(xs, g)
  {
    if xs != [] {
      SumAdd(xs[..|xs| - 1], f, g, h);
    }
  }

  lemma {:induction false} SumScaled<T(!new)>(xs: seq<T>, factor: int, f: T -> int, g: T -> int)
    requires forall x :: x in xs ==> g(x) == factor * f(x)
    ensures SumOf(xs, g) == factor * SumOf(xs, f)
  {
    if xs != [] {
      var init, last := xs[..|xs| - 1], xs[|xs| - 1];
      SumScaled(init, factor, f, g);
      assert factor * (SumOf(init, f) + f(last)) == factor * SumOf(init, f) + factor * f(last);
    }
  }

  lemma {:induction false} SumFilter<T(!new)>(xs: seq<T>, p: T -> bool, f: T -> int, g: T -> int)
    requires forall x :: x in xs ==> g(x) == if p(x) then f(x) else 0
    ensures SumOf(Filter(xs, p), f) == SumOf(xs, g)
  {
    if xs != [] {
      var init, last := xs[..|xs| - 1], xs[|xs| - 1];
      SumFilter(init, p, f, g);
      SumAppend(Filter(init, p), [last], f);
    }
  }

  lemma {:induction false} SumMap<T(!new), U(!new)>(xs: seq<T>, m: T -> U, f: U -> int, g: T -> int)
    requires forall x :: x in xs ==> g(x) == f(m(x))
    ensures SumOf(Map(xs, m), f) == SumOf(xs, g)
  {
    if xs != [] {
      SumMap(xs[..|xs| - 1], m, f, g);
      assert Map(xs, m)[..|xs| - 1] == Map(xs[..|xs| - 1], m);
    }
  }

  /** Finds the last row of one list in a reordering of it. */
  lemma TakeOut<T>(xs: seq<T>, ys: seq<T>) returns (i: nat)
    requires xs != [] && multiset(xs) == multiset(ys)
    ensures i < |ys| && ys == ys[..i] + [xs[|xs| - 1]] + ys[i + 1..]
    ensures multiset(xs[..|xs| - 1]) == multiset(ys[..i] + ys[i + 1..])
  {
    var last := xs[|xs| - 1];
    assert last in multiset(xs);
    i :| 0 <= i < |ys| && ys[i] == last;
    assert xs == xs[..|xs| - 1] + [last];
    assert ys == ys[..i] + [last] + ys[i + 1..];
    var init, rest := multiset(xs[..|xs| - 1]), multiset(ys[..i] + ys[i + 1..]);
    assert multiset(ys) == rest + multiset{last};
    assert init == init + multiset{last} - multiset{last};
    assert rest == rest + multiset{last} - multiset{last};
    assert multiset(xs) == multiset(xs[..|xs| - 1]) + multiset{last};
  }

  /** A sum does not depend on the order of the rows. */
  lemma {:induction false} SumPermuted<T(!new)>(xs: seq<T>, ys: seq<T>, f: T -> int)
    requires multiset(xs) == multiset(ys)
    ensures SumOf(xs, f) == SumOf(ys, f)
  {
    if xs == [] {
      assert |multiset(ys)| == 0;
    } else {
      var init, last := xs[..|xs| - 1], xs[|xs| - 1];
      var i := TakeOut(xs, ys);
      SumPermuted(init, ys[..i] + ys[i + 1..], f);
      SumAppend(ys[..i], ys[i + 1..], f);
      SumAppend(ys[..i] + [last], ys[i + 1..], f);
      SumAppend(ys[..i], [last], f);
    }
  }

  /** A filter keeps every copy of the rows that pass, and none of the others. */
  lemma {:induction false} FilterMultiplicity<T(!new)>(xs: seq<T>, p: T -> bool)
    ensures forall x :: multiset(Filter(xs, p))[x] == if p(x) then multiset(xs)[x] else 0
  {
    if xs != [] {
      FilterMultiplicity(xs[..|xs| - 1], p);
      assert xs == xs[..|xs| - 1] + [xs[|xs| - 1]];
    }
  }

  lemma {:induction false} MapPermuted<T(!new), U(!new)>(xs: seq<T>, ys: seq<T>, f: T -> U)
    requires multiset(xs) == multiset(ys)
    ensures multiset(Map(xs, f)) == multiset(Map(ys, f))
  {
    if xs == [] {
      assert |multiset(ys)| == 0;
    } else {
      var init, last := xs[..|xs| - 1], xs[|xs| - 1];
      var i := TakeOut(xs, ys);
      MapPermuted(init, ys[..i] + ys[i + 1..], f);
      assert Map(xs, f) == Map(init, f) + [f(last)];
      assert Map(ys, f) == Map(ys, f)[..i] + [f(last)] + Map(ys, f)[i + 1..];
      assert Map(ys[..i] + ys[i + 1..], f) == Map(ys, f)[..i] + Map(ys, f)[i + 1..];
    }
  }

  function AlongRow<S(!new), T(!new)>(h: (S, T) -> int, x: S): T -> int {
    (y: T) => h(x, y)
  }

  function AlongColumn<S(!new), T(!new)>(h: (S, T) -> int, y: T): S -> int {
    (x: S) => h(x, y)
  }

  /** Adding up by rows and by columns gives the same total. */
  lemma {:induction false} SumExchange<S(!new), T(!new)>(xs: seq<S>, ys: seq<T>, h: (S, T) -> int,
                                                         byRow: S -> int, byColumn: T -> int)
    requires forall x :: x in xs ==> byRow(x) == SumOf(ys, AlongRow(h, x))
    requires forall y :: y in ys ==> byColumn(y) == SumOf(xs, AlongColumn(h, y))
    ensures SumOf(xs, byRow) == SumOf(ys, byColumn)
  {
    if xs == [] {
      SumZero(ys, byColumn);
    } else {
      var init, last := xs[..|xs| - 1], xs[|xs| - 1];
      var inner := (y: T) => SumOf(init, AlongColumn(h, y));
      SumExchange(init, ys, h, byRow, inner);
      SumAdd(ys, inner, AlongRow(h, last), byColumn);
    }
  }

  /** When at most one row has a non-zero summand, the sum is that summand. */
  lemma {:induction false} SumSingle<T(!new)>(xs: seq<T>, i: nat, f: T -> int)
    requires i < |xs|
    requires forall j :: 0 <= j < |xs| && j != i ==> f(xs[j]) == 0
    ensures SumOf(xs, f) == f(xs[i])
  {
    var init := xs[..|xs| - 1];
    if i == |xs| - 1 {
      SumZero(init, f);
    } else {
      SumSingle(init, i, f);
    }
  }
}
