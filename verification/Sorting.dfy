/** Python's sorted() on a set of integers. */
module Sorting {

  predicate Ascending(xs: seq<int>) {
    forall i, j :: 0 <= i < j < |xs| ==> xs[i] < xs[j]
  }

  function InsertInto(sorted: seq<int>, x: int): seq<int> {
    if sorted == [] || sorted[|sorted| - 1] < x then sorted + [x]
    else InsertInto(sorted[..|sorted| - 1], x) + [sorted[|sorted| - 1]]
  }

  lemma {:induction false} Inserted(sorted: seq<int>, x: int)
    requires Ascending(sorted) && x !in sorted
    ensures Ascending(InsertInto(sorted, x))
    ensures forall y :: y in InsertInto(sorted, x) <==> y in sorted || y == x
  {
    if sorted != [] {
      var init, last := sorted[..|sorted| - 1], sorted[|sorted| - 1];
      assert sorted == init + [last];
      if last > x {
        Inserted(init, x);
        var inner := InsertInto(init, x);
        forall i | 0 <= i < |inner|
          ensures inner[i] < last
        {
          assert inner[i] in inner;
        }
      }
    }
  }

  lemma EmptyOrNot(s: set<int>)
    ensures s == {} || exists x :: x in s
  {
    assert (forall x :: x !in s) ==> s == {};
  }

  /** Sorting a set: its elements, each once, ascending. */
  method Sorted(keys: set<int>) returns (sorted: seq<int>)
    ensures Ascending(sorted) && forall x :: x in sorted <==> x in keys
  {
    sorted := [];
    var rest := keys;
    while rest != {}
      invariant rest <= keys && Ascending(sorted)
      invariant forall x :: x in sorted <==> x in keys - rest
    {
      EmptyOrNot(rest);
      var x :| x in rest;
      Inserted(sorted, x);
      sorted := InsertInto(sorted, x);
      rest := rest - {x};
    }
  }

  lemma EmptyHoldsNothing(xs: seq<int>)
    ensures xs == [] <==> forall x :: x !in xs
  {
    if xs != [] {
      var x := xs[0];
      assert x in xs;
    }
  }

  /** An ascending list is determined by its elements. */
  lemma {:induction false} SameAscending(xs: seq<int>, ys: seq<int>)
    requires Ascending(xs) && Ascending(ys) && forall x :: x in xs <==> x in ys
    ensures xs == ys
  {
    EmptyHoldsNothing(xs);
    EmptyHoldsNothing(ys);
    if xs != [] {
      var i, last := |xs| - 1, xs[|xs| - 1];
      assert last in xs;
      var j := |ys| - 1;
      LastIsLargest(xs);
      LastIsLargest(ys);
      assert ys[j] in ys && ys[j] == last;
      forall x
        ensures x in xs[..i] <==> x in ys[..j]
      {
        assert x in xs <==> x in ys;
      }
      SameAscending(xs[..i], ys[..j]);
      assert xs == xs[..i] + [xs[i]] && ys == ys[..j] + [ys[j]];
    }
  }

  lemma LastIsLargest(xs: seq<int>)
    requires xs != [] && Ascending(xs)
    ensures forall x :: x in xs ==> x <= xs[|xs| - 1]
    ensures forall x :: x in xs[..|xs| - 1] <==> x in xs && x != xs[|xs| - 1]
  {
    var init := xs[..|xs| - 1];
    assert xs == init + [xs[|xs| - 1]];
    forall x | x in init
      ensures x < xs[|xs| - 1]
    {
      var i :| 0 <= i < |init| && init[i] == x;
      assert xs[i] < xs[|xs| - 1];
    }
  }
}
