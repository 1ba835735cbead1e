/** Python's stable `sorted`, and the order it puts strings in. */
module Sorting {

  ghost predicate TotalPreorder<T(!new)>(leq: (T, T) -> bool) {
    && (forall a, b :: leq(a, b) || leq(b, a))
    && (forall a, b, c :: leq(a, b) && leq(b, c) ==> leq(a, c))
  }

  ghost predicate Sorted<T>(xs: seq<T>, leq: (T, T) -> bool) {
    forall i, j | 0 <= i < j < |xs| :: leq(xs[i], xs[j])
  }

  function Insert<T>(x: T, xs: seq<T>, leq: (T, T) -> bool): (r: seq<T>)
    ensures multiset(r) == multiset([x]) + multiset(xs)
    ensures |r| == |xs| + 1
  {
    if xs == [] || leq(x, xs[0]) then [x] + xs
    else
      assert xs == [xs[0]] + xs[1..];
      [xs[0]] + Insert(x, xs[1..], leq)
  }

  function Sort<T>(xs: seq<T>, leq: (T, T) -> bool): (r: seq<T>)
    ensures multiset(r) == multiset(xs)
    ensures |r| == |xs|
  {
    if xs == [] then []
    else
      assert xs == [xs[0]] + xs[1..];
      Insert(xs[0], Sort(xs[1..], leq), leq)
  }

  lemma {:induction false} InsertKeepsSorted<T(!new)>(x: T, xs: seq<T>, leq: (T, T) -> bool)
    requires TotalPreorder(leq) && Sorted(xs, leq)
    ensures Sorted(Insert(x, xs, leq), leq)
  {
    if xs != [] && !leq(x, xs[0]) {
      InsertKeepsSorted(x, xs[1..], leq);
      var rest := Insert(x, xs[1..], leq);
      forall y | y in rest
        ensures leq(xs[0], y)
      {
        assert y in multiset(rest);
        assert y == x || y in xs[1..];
      }
    }
  }

  lemma {:induction false} SortSorts<T(!new)>(xs: seq<T>, leq: (T, T) -> bool)
    requires TotalPreorder(leq)
    ensures Sorted(Sort(xs, leq), leq)
  {
    if xs != [] {
      SortSorts(xs[1..], leq);
      InsertKeepsSorted(xs[0], Sort(xs[1..], leq), leq);
    }
  }

  /** The elements of a sequence on a par with `x`, in order. */
  function Ties<T>(xs: seq<T>, x: T, leq: (T, T) -> bool): seq<T> {
    if xs == [] then []
    else (if leq(xs[0], x) && leq(x, xs[0]) then [xs[0]] else []) + Ties(xs[1..], x, leq)
  }

  lemma {:induction false} InsertIsStable<T(!new)>(y: T, xs: seq<T>, x: T, leq: (T, T) -> bool)
    requires TotalPreorder(leq)
    ensures Ties(Insert(y, xs, leq), x, leq) == Ties([y] + xs, x, leq)
  {
    assert ([y] + xs)[1..] == xs;
    if xs != [] && !leq(y, xs[0]) {
      InsertIsStable(y, xs[1..], x, leq);
      assert ([y] + xs[1..])[1..] == xs[1..];
    }
  }

  /** Elements on a par keep their order. */
  lemma {:induction false} SortIsStable<T(!new)>(xs: seq<T>, x: T, leq: (T, T) -> bool)
    requires TotalPreorder(leq)
    ensures Ties(Sort(xs, leq), x, leq) == Ties(xs, x, leq)
  {
    if xs != [] {
      SortIsStable(xs[1..], x, leq);
      InsertIsStable(xs[0], Sort(xs[1..], leq), x, leq);
      assert ([xs[0]] + Sort(xs[1..], leq))[1..] == Sort(xs[1..], leq);
    }
  }

  lemma SameElements<T>(xs: seq<T>, ys: seq<T>)
    requires multiset(xs) == multiset(ys)
    ensures forall x :: x in xs <==> x in ys
  {
    assert forall x :: x in xs <==> x in multiset(xs);
    assert forall x :: x in ys <==> x in multiset(ys);
  }

  ghost predicate Distinct<T>(xs: seq<T>) {
    forall i, j | 0 <= i < j < |xs| :: xs[i] != xs[j]
  }

  lemma {:induction false} DistinctMeansOnce<T>(xs: seq<T>, x: T)
    ensures Distinct(xs) ==> multiset(xs)[x] <= 1
    ensures !Distinct(xs) ==> exists y :: multiset(xs)[y] > 1
  {
    if xs != [] {
      var init, last := xs[..|xs| - 1], xs[|xs| - 1];
      assert xs == init + [last];
      DistinctMeansOnce(init, x);
      if Distinct(init) && !Distinct(xs) {
        assert last in init;
        assert multiset(xs)[last] > 1;
      } else if !Distinct(init) {
        var y :| multiset(init)[y] > 1;
        assert multiset(xs)[y] > 1;
      } else if Distinct(xs) && x == last {
        assert x !in multiset(init);
      }
    }
  }

  lemma PermutationKeepsDistinct<T>(xs: seq<T>, ys: seq<T>)
    requires multiset(xs) == multiset(ys) && Distinct(xs)
    ensures Distinct(ys)
  {
    if !Distinct(ys) {
      DistinctMeansOnce(ys, ys[0]);
      var y :| multiset(ys)[y] > 1;
      DistinctMeansOnce(xs, y);
    }
  }

  /** Strings compare code point by code point. */
  predicate StringLeq(a: string, b: string) {
    a == "" || (b != "" && (a[0] < b[0] || (a[0] == b[0] && StringLeq(a[1..], b[1..]))))
  }

  lemma {:induction false} StringOrderIsTotal(a: string, b: string)
    ensures StringLeq(a, b) || StringLeq(b, a)
    ensures StringLeq(a, b) && StringLeq(b, a) ==> a == b
    decreases |a|
  {
    if a != "" && b != "" && a[0] == b[0] {
      StringOrderIsTotal(a[1..], b[1..]);
      assert a == [a[0]] + a[1..] && b == [b[0]] + b[1..];
    }
  }

  lemma {:induction false} StringOrderIsTransitive(a: string, b: string, c: string)
    requires StringLeq(a, b) && StringLeq(b, c)
    ensures StringLeq(a, c)
    decreases |a|
  {
    if a != "" && a[0] == b[0] == c[0] {
      StringOrderIsTransitive(a[1..], b[1..], c[1..]);
    }
  }

  lemma StringOrder()
    ensures TotalPreorder(StringLeq)
  {
    forall a, b
      ensures StringLeq(a, b) || StringLeq(b, a)
    {
      StringOrderIsTotal(a, b);
    }
    forall a, b, c | StringLeq(a, b) && StringLeq(b, c)
      ensures StringLeq(a, c)
    {
      StringOrderIsTransitive(a, b, c);
    }
  }
}
