/** Sorting by a total order: the result depends only on which elements are sorted. */
module Sorting {
  /** Any two elements compare, and comparison is transitive. */
  ghost predicate TotalPreorder<T(!new)>(leq: (T, T) -> bool) {
    && (forall x, y :: leq(x, y) || leq(y, x))
    && (forall x, y, z :: leq(x, y) && leq(y, z) ==> leq(x, z))
  }

  ghost predicate TotalOrder<T(!new)>(leq: (T, T) -> bool) {
    TotalPreorder(leq) && forall x, y :: leq(x, y) && leq(y, x) ==> x == y
  }

  /** Different elements of `xs` never tie. */
  ghost predicate NoTies<T>(xs: seq<T>, leq: (T, T) -> bool) {
    forall x, y | x in xs && y in xs && leq(x, y) && leq(y, x) :: x == y
  }

  predicate Sorted<T>(xs: seq<T>, leq: (T, T) -> bool) {
    forall i, j | 0 <= i < j < |xs| :: leq(xs[i], xs[j])
  }

  function Insert<T>(x: T, xs: seq<T>, leq: (T, T) -> bool): seq<T> {
    if xs == [] || leq(x, xs[0]) then [x] + xs else [xs[0]] + Insert(x, xs[1..], leq)
  }

  function Sort<T>(xs: seq<T>, leq: (T, T) -> bool): seq<T> {
    if xs == [] then [] else Insert(xs[0], Sort(xs[1..], leq), leq)
  }

  lemma {:induction false} InsertKeepsElements<T>(x: T, xs: seq<T>, leq: (T, T) -> bool)
    ensures multiset(Insert(x, xs, leq)) == multiset(xs) + multiset{x}
  {
    if xs != [] && !leq(x, xs[0]) {
      InsertKeepsElements(x, xs[1..], leq);
      assert xs == [xs[0]] + xs[1..];
    }
  }

  lemma {:induction false} InsertSorts<T(!new)>(x: T, xs: seq<T>, leq: (T, T) -> bool)
    requires TotalPreorder(leq) && Sorted(xs, leq)
    ensures Sorted(Insert(x, xs, leq), leq)
  {
    if xs != [] && !leq(x, xs[0]) {
      InsertSorts(x, xs[1..], leq);
      InsertKeepsElements(x, xs[1..], leq);
      var rest := Insert(x, xs[1..], leq);
      forall j | 0 <= j < |rest|
        ensures leq(xs[0], rest[j])
      {
        assert rest[j] in multiset(rest);
        assert rest[j] == x || rest[j] in xs[1..];
      }
    }
  }

  /** Sorting keeps the elements and orders them. */
  lemma {:induction false} SortSorts<T(!new)>(xs: seq<T>, leq: (T, T) -> bool)
    requires TotalPreorder(leq)
    ensures Sorted(Sort(xs, leq), leq)
    ensures multiset(Sort(xs, leq)) == multiset(xs)
    ensures |Sort(xs, leq)| == |xs|
  {
    if xs != [] {
      SortSorts(xs[1..], leq);
      InsertSorts(xs[0], Sort(xs[1..], leq), leq);
      InsertKeepsElements(xs[0], Sort(xs[1..], leq), leq);
      assert xs == [xs[0]] + xs[1..];
    }
    assert |multiset(Sort(xs, leq))| == |multiset(xs)|;
  }

  lemma {:induction false} SameMembers<T>(xs: seq<T>, ys: seq<T>)
    requires multiset(xs) == multiset(ys)
    ensures forall x :: x in xs <==> x in ys
  {
    forall x
      ensures x in xs <==> x in ys
    {
      assert x in xs <==> x in multiset(xs);
      assert x in ys <==> x in multiset(ys);
    }
  }

  /** Elements that do not tie can be inserted in either order. */
  lemma {:induction false} InsertsCommute<T(!new)>(x: T, y: T, xs: seq<T>, leq: (T, T) -> bool)
    requires TotalPreorder(leq) && (leq(x, y) && leq(y, x) ==> x == y)
    ensures Insert(x, Insert(y, xs, leq), leq) == Insert(y, Insert(x, xs, leq), leq)
  {
    if xs != [] {
      var head, rest := xs[0], xs[1..];
      if !leq(x, head) && !leq(y, head) {
        InsertsCommute(x, y, rest, leq);
        assert ([head] + Insert(x, rest, leq))[1..] == Insert(x, rest, leq);
        assert ([head] + Insert(y, rest, leq))[1..] == Insert(y, rest, leq);
      } else {
        assert ([x] + xs)[1..] == xs && ([y] + xs)[1..] == xs;
      }
    }
  }

  function WithoutAt<T>(xs: seq<T>, i: nat): seq<T>
    requires i < |xs|
  {
    xs[..i] + xs[i + 1..]
  }

  lemma {:induction false} WithoutAtElements<T>(xs: seq<T>, i: nat)
    requires i < |xs|
    ensures multiset(WithoutAt(xs, i)) == multiset(xs) - multiset{xs[i]}
    ensures forall x | x in WithoutAt(xs, i) :: x in xs
  {
    assert xs == xs[..i] + ([xs[i]] + xs[i + 1..]);
  }

  /** Any element can be the one inserted last. */
  lemma {:induction false} SortTakes<T(!new)>(xs: seq<T>, i: nat, leq: (T, T) -> bool)
    requires TotalPreorder(leq) && NoTies(xs, leq) && i < |xs|
    ensures Sort(xs, leq) == Insert(xs[i], Sort(WithoutAt(xs, i), leq), leq)
  {
    if i == 0 {
      assert WithoutAt(xs, i) == xs[1..];
    } else {
      SortTakes(xs[1..], i - 1, leq);
      var both := WithoutAt(xs[1..], i - 1);
      assert WithoutAt(xs, i)[0] == xs[0] && WithoutAt(xs, i)[1..] == both;
      InsertsCommute(xs[0], xs[i], Sort(both, leq), leq);
    }
  }

  /** Without ties the sorted list does not depend on the order of the input. */
  lemma {:induction false} SortIgnoresInputOrder<T(!new)>(xs: seq<T>, ys: seq<T>, leq: (T, T) -> bool)
    requires TotalPreorder(leq) && NoTies(xs, leq) && multiset(xs) == multiset(ys)
    ensures Sort(xs, leq) == Sort(ys, leq)
    decreases |xs|
  {
    SameMembers(xs, ys);
    if xs == [] {
      assert |multiset(ys)| == 0;
    } else {
      assert xs[0] in ys;
      var i :| 0 <= i < |ys| && ys[i] == xs[0];
      WithoutAtElements(xs, 0);
      WithoutAtElements(ys, i);
      assert WithoutAt(xs, 0) == xs[1..];
      SortIgnoresInputOrder(xs[1..], WithoutAt(ys, i), leq);
      SortTakes(ys, i, leq);
    }
  }

  /** Two lists sort alike exactly when one is a rearrangement of the other. */
  lemma {:induction false} SortAlike<T(!new)>(xs: seq<T>, ys: seq<T>, leq: (T, T) -> bool)
    requires TotalOrder(leq)
    ensures Sort(xs, leq) == Sort(ys, leq) <==> multiset(xs) == multiset(ys)
  {
    SortSorts(xs, leq);
    SortSorts(ys, leq);
    if multiset(xs) == multiset(ys) {
      SortIgnoresInputOrder(xs, ys, leq);
    }
  }

  /** Sorting a sorted list changes nothing. */
  lemma {:induction false} SortOfSorted<T>(xs: seq<T>, leq: (T, T) -> bool)
    requires Sorted(xs, leq)
    ensures Sort(xs, leq) == xs
  {
    if xs != [] {
      SortOfSorted(xs[1..], leq);
      assert |xs| > 1 ==> leq(xs[0], xs[1]);
    }
  }
}
