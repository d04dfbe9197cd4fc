/** The first element of a finite set under a strict total order. */
module Minimum {
  predicate IsFirst<T(==)>(before: (T, T) -> bool, xs: set<T>, x: T) {
    x in xs && forall y <- xs :: x == y || before(x, y)
  }

  /** Strict, and total on the set. */
  ghost predicate Orders<T(!new)>(before: (T, T) -> bool, xs: set<T>) {
    && (forall x :: !before(x, x))
    && (forall x, y, z :: before(x, y) && before(y, z) ==> before(x, z))
    && (forall x, y :: x in xs && y in xs ==> x == y || before(x, y) || before(y, x))
  }

  lemma {:induction false} FirstExists<T(!new)>(before: (T, T) -> bool, xs: set<T>) returns (first: T)
    requires xs != {} && Orders(before, xs)
    ensures IsFirst(before, xs, first)
  {
    var x :| x in xs;
    if xs == {x} {
      first := x;
    } else {
      var y := FirstExists(before, xs - {x});
      first := if before(y, x) then y else x;
    }
  }

  lemma FirstUnique<T(!new)>(before: (T, T) -> bool, xs: set<T>, x: T, y: T)
    requires Orders(before, xs) && IsFirst(before, xs, x) && IsFirst(before, xs, y)
    ensures x == y
  {
  }
}
