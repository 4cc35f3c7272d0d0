/** Sorting by insertion, for any total order. */
module Sorting {
  ghost predicate Total<T(!new)>(le: (T, T) -> bool) {
    && (forall a, b :: le(a, b) || le(b, a))
    && (forall a, b, c :: le(a, b) && le(b, c) ==> le(a, c))
  }

  ghost predicate InOrder<T>(le: (T, T) -> bool, xs: seq<T>) {
    forall i, j :: 0 <= i < j < |xs| ==> le(xs[i], xs[j])
  }

  function Insert<T>(le: (T, T) -> bool, x: T, xs: seq<T>): seq<T> {
    if xs == [] || le(x, xs[0]) then [x] + xs else [xs[0]] + Insert(le, x, xs[1..])
  }

  /** The stable sort. */
  function Sorted<T>(le: (T, T) -> bool, xs: seq<T>): seq<T> {
    if xs == [] then [] else Insert(le, xs[0], Sorted(le, xs[1..]))
  }

  lemma HeadFirst<T>(le: (T, T) -> bool, x: T, xs: seq<T>)
    requires InOrder(le, xs) && forall y :: y in multiset(xs) ==> le(x, y)
    ensures InOrder(le, [x] + xs)
  {
    forall j | 0 <= j < |xs|
      ensures le(x, xs[j])
    {
      assert xs[j] in multiset(xs);
    }
  }

  lemma TailInOrder<T>(le: (T, T) -> bool, xs: seq<T>)
    requires InOrder(le, xs) && xs != []
    ensures InOrder(le, xs[1..]) && multiset(xs) == multiset{xs[0]} + multiset(xs[1..])
  {
    assert xs == [xs[0]] + xs[1..];
  }

  lemma LeastFirst<T(!new)>(le: (T, T) -> bool, xs: seq<T>, y: T)
    requires Total(le) && InOrder(le, xs) && y in multiset(xs)
    ensures xs != [] && le(xs[0], y)
  {
    var j :| 0 <= j < |xs| && xs[j] == y;
    assert le(y, y);
  }

  lemma {:induction false} InsertKeeps<T(!new)>(le: (T, T) -> bool, x: T, xs: seq<T>)
    requires Total(le) && InOrder(le, xs)
    ensures InOrder(le, Insert(le, x, xs))
    ensures multiset(Insert(le, x, xs)) == multiset{x} + multiset(xs)
  {
    if xs == [] || le(x, xs[0]) {
      forall y | y in multiset(xs)
        ensures le(x, y)
      {
        LeastFirst(le, xs, y);
      }
      hide InOrder;
      HeadFirst(le, x, xs);
    } else {
      hide InOrder;
      TailInOrder(le, xs);
      InsertKeeps(le, x, xs[1..]);
      forall y | y in multiset{x} + multiset(xs[1..])
        ensures le(xs[0], y)
      {
        if y != x {
          LeastFirst(le, xs, y);
        }
      }
      HeadFirst(le, xs[0], Insert(le, x, xs[1..]));
    }
  }

  lemma {:induction false} SortKeeps<T(!new)>(le: (T, T) -> bool, xs: seq<T>)
    requires Total(le)
    ensures InOrder(le, Sorted(le, xs)) && multiset(Sorted(le, xs)) == multiset(xs)
  {
    if xs != [] {
      hide InOrder;
      SortKeeps(le, xs[1..]);
      InsertKeeps(le, xs[0], Sorted(le, xs[1..]));
      assert xs == [xs[0]] + xs[1..];
    }
  }

  lemma SameHead<T(!new)>(le: (T, T) -> bool, xs: seq<T>, ys: seq<T>)
    requires Total(le) && (forall a, b :: le(a, b) && le(b, a) ==> a == b)
    requires InOrder(le, xs) && InOrder(le, ys) && multiset(xs) == multiset(ys) && xs != []
    ensures ys != [] && xs[0] == ys[0]
  {
    hide InOrder;
    assert xs[0] in multiset(xs);
    LeastFirst(le, ys, xs[0]);
    assert ys[0] in multiset(ys);
    LeastFirst(le, xs, ys[0]);
  }

  /** With an antisymmetric order, the multiset of elements determines the sorted sequence. */
  lemma {:induction false} OrderDetermines<T(!new)>(le: (T, T) -> bool, xs: seq<T>, ys: seq<T>)
    requires Total(le) && (forall a, b :: le(a, b) && le(b, a) ==> a == b)
    requires InOrder(le, xs) && InOrder(le, ys) && multiset(xs) == multiset(ys)
    ensures xs == ys
  {
    hide InOrder;
    if xs == [] {
      assert |multiset(ys)| == |ys|;
    } else {
      SameHead(le, xs, ys);
      TailInOrder(le, xs);
      TailInOrder(le, ys);
      assert multiset(xs[1..]) == multiset(xs) - multiset{xs[0]};
      assert multiset(ys[1..]) == multiset(ys) - multiset{ys[0]};
      OrderDetermines(le, xs[1..], ys[1..]);
      assert xs == [xs[0]] + xs[1..] && ys == [ys[0]] + ys[1..];
    }
  }
}
