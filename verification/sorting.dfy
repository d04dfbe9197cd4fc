/** Insertion sort by a strict order, for lists whose elements the order tells apart. */
module Sorting {
  predicate Ordered<T>(before: (T, T) -> bool, xs: seq<T>) {
    forall i, j :: 0 <= i < j < |xs| ==> before(xs[i], xs[j])
  }

  ghost predicate Transitive<T(!new)>(before: (T, T) -> bool) {
    forall x, y, z :: before(x, y) && before(y, z) ==> before(x, z)
  }

  /** Any two elements come one before the other. */
  predicate ToldApart<T>(before: (T, T) -> bool, xs: seq<T>) {
    forall i, j :: 0 <= i < j < |xs| ==> before(xs[i], xs[j]) || before(xs[j], xs[i])
  }

  function Insert<T>(before: (T, T) -> bool, xs: seq<T>, x: T): seq<T> {
    if xs == [] then [x]
    else if before(x, xs[0]) then [x] + xs
    else [xs[0]] + Insert(before, xs[1..], x)
  }

  function Sort<T>(before: (T, T) -> bool, xs: seq<T>): seq<T> {
    if xs == [] then [] else Insert(before, Sort(before, xs[1..]), xs[0])
  }

  lemma {:induction false} InsertAdds<T>(before: (T, T) -> bool, xs: seq<T>, x: T)
    ensures multiset(Insert(before, xs, x)) == multiset(xs) + multiset{x} && |Insert(before, xs, x)| == |xs| + 1
  {
    if xs != [] {
      assert xs == [xs[0]] + xs[1..];
      InsertAdds(before, xs[1..], x);
    }
  }

  lemma InsertMembers<T>(before: (T, T) -> bool, xs: seq<T>, x: T, y: T)
    requires y in Insert(before, xs, x)
    ensures y == x || y in xs
  {
    InsertAdds(before, xs, x);
    assert y in multiset(Insert(before, xs, x));
  }

  lemma {:induction false} InsertOrders<T(!new)>(before: (T, T) -> bool, xs: seq<T>, x: T)
    requires Transitive(before) && Ordered(before, xs) && forall y <- xs :: before(x, y) || before(y, x)
    ensures Ordered(before, Insert(before, xs, x))
  {
    if xs != [] {
      assert xs[0] in xs;
      if before(x, xs[0]) {
        assert forall k :: 0 < k < |xs| ==> before(x, xs[k]);
      } else {
        assert forall y <- xs[1..] :: y in xs;
        InsertOrders(before, xs[1..], x);
        forall y | y in Insert(before, xs[1..], x)
          ensures before(xs[0], y)
        {
          InsertMembers(before, xs[1..], x, y);
        }
      }
    }
  }

  /** The list is permuted and put in order. */
  lemma {:induction false} SortOrders<T(!new)>(before: (T, T) -> bool, xs: seq<T>)
    requires Transitive(before) && ToldApart(before, xs)
    ensures Ordered(before, Sort(before, xs))
  {
    if xs != [] {
      SortOrders(before, xs[1..]);
      SortPermutes(before, xs[1..]);
      forall y | y in Sort(before, xs[1..])
        ensures before(xs[0], y) || before(y, xs[0])
      {
        assert y in multiset(xs[1..]);
        var k :| 0 <= k < |xs[1..]| && xs[1..][k] == y;
        assert xs[k + 1] == y;
      }
      InsertOrders(before, Sort(before, xs[1..]), xs[0]);
    }
  }

  lemma {:induction false} SortPermutes<T>(before: (T, T) -> bool, xs: seq<T>)
    ensures multiset(Sort(before, xs)) == multiset(xs) && |Sort(before, xs)| == |xs|
    ensures forall x :: x in Sort(before, xs) <==> x in xs
  {
    if xs != [] {
      SortPermutes(before, xs[1..]);
      InsertAdds(before, Sort(before, xs[1..]), xs[0]);
      assert xs == [xs[0]] + xs[1..];
    }
    forall x
      ensures x in Sort(before, xs) <==> x in xs
    {
      assert x in Sort(before, xs) <==> x in multiset(Sort(before, xs));
    }
  }
}
