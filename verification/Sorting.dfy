/** Sorting by a total order: what sort.Strings and slices.Sort compute. */
module Sorting {

  ghost predicate TotalOrder<T(!new)>(le: (T, T) -> bool) {
    && (forall x, y :: le(x, y) || le(y, x))
    && (forall x, y :: le(x, y) && le(y, x) ==> x == y)
    && (forall x, y, z :: le(x, y) && le(y, z) ==> le(x, z))
  }

  ghost predicate Sorted<T>(le: (T, T) -> bool, xs: seq<T>) {
    forall i, j :: 0 <= i < j < |xs| ==> le(xs[i], xs[j])
  }

  function Insert<T>(le: (T, T) -> bool, x: T, xs: seq<T>): seq<T> {
    if xs == [] || le(x, xs[0]) then [x] + xs else [xs[0]] + Insert(le, x, xs[1..])
  }

  function Sort<T>(le: (T, T) -> bool, xs: seq<T>): seq<T> {
    if xs == [] then [] else Insert(le, xs[0], Sort(le, xs[1..]))
  }

  lemma {:induction false} InsertElements<T>(le: (T, T) -> bool, x: T, xs: seq<T>)
    ensures multiset(Insert(le, x, xs)) == multiset(xs) + multiset{x}
  {
    if xs != [] && !le(x, xs[0]) {
      assert xs == [xs[0]] + xs[1..];
      InsertElements(le, x, xs[1..]);
    }
  }

  lemma ConsSorted<T(!new)>(le: (T, T) -> bool, head: T, xs: seq<T>)
    requires Sorted(le, xs) && forall x :: x in xs ==> le(head, x)
    ensures Sorted(le, [head] + xs)
  {
  }

  lemma {:induction false} InsertSorts<T(!new)>(le: (T, T) -> bool, x: T, xs: seq<T>)
    requires TotalOrder(le) && Sorted(le, xs)
    ensures Sorted(le, Insert(le, x, xs))
  {
    if xs != [] && !le(x, xs[0]) {
      InsertSorts(le, x, xs[1..]);
      InsertElements(le, x, xs[1..]);
      var ins := Insert(le, x, xs[1..]);
      forall y | y in ins ensures le(xs[0], y) {
        assert y in multiset(ins);
      }
      ConsSorted(le, xs[0], ins);
    } else {
      forall y | y in xs ensures le(x, y) {
        assert le(x, xs[0]);
      }
      ConsSorted(le, x, xs);
    }
  }

  /** The result is sorted and a permutation of the input. */
  lemma {:induction false} SortSorts<T(!new)>(le: (T, T) -> bool, xs: seq<T>)
    requires TotalOrder(le)
    ensures Sorted(le, Sort(le, xs)) && multiset(Sort(le, xs)) == multiset(xs)
  {
    if xs != [] {
      assert xs == [xs[0]] + xs[1..];
      SortSorts(le, xs[1..]);
      InsertSorts(le, xs[0], Sort(le, xs[1..]));
      InsertElements(le, xs[0], Sort(le, xs[1..]));
    }
  }

  lemma HeadIsLeast<T(!new)>(le: (T, T) -> bool, a: seq<T>, x: T)
    requires TotalOrder(le) && Sorted(le, a) && x in a
    ensures le(a[0], x)
  {
    var i :| 0 <= i < |a| && a[i] == x;
    assert le(x, x);
  }

  lemma TailElements<T>(a: seq<T>)
    requires a != []
    ensures multiset(a[1..]) == multiset(a) - multiset{a[0]}
  {
    assert a == [a[0]] + a[1..];
  }

  /** A sorted list is determined by its elements. */
  lemma {:induction false} SortedUnique<T(!new)>(le: (T, T) -> bool, a: seq<T>, b: seq<T>)
    requires TotalOrder(le) && Sorted(le, a) && Sorted(le, b) && multiset(a) == multiset(b)
    ensures a == b
  {
    assert |multiset(a)| == |a| && |multiset(b)| == |b|;
    if a != [] {
      assert a[0] in multiset(b) && b[0] in multiset(a);
      HeadIsLeast(le, a, b[0]);
      HeadIsLeast(le, b, a[0]);
      TailElements(a);
      TailElements(b);
      SortedUnique(le, a[1..], b[1..]);
      assert a == [a[0]] + a[1..] && b == [b[0]] + b[1..];
    }
  }
}
