/** strings.Join and strings.Split with a one-element separator. */
module Splitting {

  function Join<T>(sep: T, parts: seq<seq<T>>): seq<T> {
    if parts == [] then []
    else if |parts| == 1 then parts[0]
    else parts[0] + [sep] + Join(sep, parts[1..])
  }

  function Split<T(==)>(sep: T, s: seq<T>): (r: seq<seq<T>>)
    ensures |r| > 0
  {
    if s == [] then [[]]
    else
      var rest := Split(sep, s[1..]);
      if s[0] == sep then [[]] + rest else [[s[0]] + rest[0]] + rest[1..]
  }

  lemma {:induction false} SplitFirst<T>(sep: T, a: seq<T>, rest: seq<T>)
    requires sep !in a
    ensures Split(sep, a + [sep] + rest) == [a] + Split(sep, rest)
    ensures Split(sep, a) == [a]
  {
    var s := a + [sep] + rest;
    if a == [] {
      assert s == [sep] + rest && s[1..] == rest;
    } else {
      SplitFirst(sep, a[1..], rest);
      assert s[1..] == a[1..] + [sep] + rest;
      assert [a[0]] + a[1..] == a;
    }
  }

  /** Splitting undoes joining for separator-free parts. */
  lemma {:induction false} SplitJoin<T>(sep: T, parts: seq<seq<T>>)
    requires parts != [] && forall p :: p in parts ==> sep !in p
    ensures Split(sep, Join(sep, parts)) == parts
  {
    if |parts| == 1 {
      SplitFirst(sep, parts[0], []);
    } else {
      SplitFirst(sep, parts[0], Join(sep, parts[1..]));
      SplitJoin(sep, parts[1..]);
      assert parts == [parts[0]] + parts[1..];
    }
  }

  /** The pieces of a concatenation: the last piece of `a` runs on into the first one of `b`. */
  function Meld<T>(xs: seq<seq<T>>, ys: seq<seq<T>>): seq<seq<T>>
    requires xs != [] && ys != []
  {
    xs[..|xs| - 1] + [xs[|xs| - 1] + ys[0]] + ys[1..]
  }

  lemma {:induction false} SplitConcat<T>(sep: T, a: seq<T>, b: seq<T>)
    ensures Split(sep, a + b) == Meld(Split(sep, a), Split(sep, b))
  {
    if a == [] {
      assert a + b == b;
      var tail := Split(sep, b);
      assert [] + tail[0] == tail[0];
      assert tail == [tail[0]] + tail[1..];
    } else {
      assert (a + b)[1..] == a[1..] + b;
      SplitConcat(sep, a[1..], b);
      var rest, tail := Split(sep, a[1..]), Split(sep, b);
      if a[0] == sep {
        assert [[]] + Meld(rest, tail) == Meld([[]] + rest, tail);
      } else {
        MeldFirst(a[0], rest, tail);
      }
    }
  }

  lemma MeldFirst<T>(x: T, xs: seq<seq<T>>, ys: seq<seq<T>>)
    requires xs != [] && ys != []
    ensures Meld([[x] + xs[0]] + xs[1..], ys) == [[x] + Meld(xs, ys)[0]] + Meld(xs, ys)[1..]
  {
    if |xs| == 1 {
      assert [x] + (xs[0] + ys[0]) == ([x] + xs[0]) + ys[0];
    }
  }

  /** The pieces hold no separator. */
  lemma {:induction false} PiecesPlain<T>(sep: T, s: seq<T>)
    ensures forall p :: p in Split(sep, s) ==> sep !in p
  {
    if s != [] {
      PiecesPlain(sep, s[1..]);
      assert Split(sep, s[1..])[0] in Split(sep, s[1..]);
    }
  }

  lemma Associate<T>(a: seq<T>, b: seq<T>, c: seq<T>)
    ensures (a + b) + c == a + (b + c)
  {
  }
}
