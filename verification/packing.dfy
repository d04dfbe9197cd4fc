/** Greedy packing of a sequence into consecutive groups under a bound; an item too large by itself forms a group. */
module Packing {

  function Size<T>(xs: seq<T>, size: T -> nat): nat {
    if xs == [] then 0 else Size(xs[..|xs| - 1], size) + size(xs[|xs| - 1])
  }

  function Flatten<T>(groups: seq<seq<T>>): seq<T> {
    if groups == [] then [] else Flatten(groups[..|groups| - 1]) + groups[|groups| - 1]
  }

  predicate Fits<T>(group: seq<T>, size: T -> nat, bound: nat) {
    Size(group, size) <= bound || |group| == 1
  }

  /** A way to cut `xs` into consecutive non-empty groups, each within the bound or a single item. */
  ghost predicate Grouping<T(!new)>(groups: seq<seq<T>>, xs: seq<T>, size: T -> nat, bound: nat) {
    && Flatten(groups) == xs
    && forall g <- groups :: g != [] && Fits(g, size, bound)
  }

  /** The greedy loop: an item joins the last group unless that would exceed the bound. */
  function Pack<T>(xs: seq<T>, size: T -> nat, bound: nat): seq<seq<T>> {
    if xs == [] then []
    else Place(Pack(xs[..|xs| - 1], size, bound), xs[|xs| - 1], size, bound)
  }

  function Place<T>(groups: seq<seq<T>>, x: T, size: T -> nat, bound: nat): seq<seq<T>> {
    if groups == [] then [[x]]
    else
      var last := groups[|groups| - 1];
      if Size(last, size) + size(x) > bound then groups + [[x]]
      else groups[..|groups| - 1] + [last + [x]]
  }

  /** Placing an item when the open group is kept apart, as the loops keep it. */
  lemma PlaceOpen<T>(closed: seq<seq<T>>, open: seq<T>, x: T, size: T -> nat, bound: nat)
    ensures Place(closed + [open], x, size, bound) ==
            if Size(open, size) + size(x) > bound then closed + [open] + [[x]] else closed + [open + [x]]
  {
    assert (closed + [open])[..|closed|] == closed;
  }

  /** The groups of a loop that keeps its open group apart. */
  function WithOpen<T(==)>(closed: seq<seq<T>>, open: seq<T>): seq<seq<T>> {
    if open == [] then closed else closed + [open]
  }

  lemma FlattenOneMore<T>(groups: seq<seq<T>>, g: seq<T>)
    ensures Flatten(groups + [g]) == Flatten(groups) + g
  {
    assert (groups + [g])[..|groups|] == groups;
  }

  lemma {:induction false} FlattenAppend<T>(a: seq<seq<T>>, b: seq<seq<T>>)
    ensures Flatten(a + b) == Flatten(a) + Flatten(b)
  {
    if b == [] {
      assert a + b == a;
    } else {
      FlattenAppend(a, b[..|b| - 1]);
      assert (a + b)[..|a + b| - 1] == a + b[..|b| - 1];
    }
  }

  lemma SizeOneMore<T>(xs: seq<T>, x: T, size: T -> nat)
    ensures Size(xs + [x], size) == Size(xs, size) + size(x)
  {
    assert (xs + [x])[..|xs|] == xs;
  }

  lemma {:induction false} SizeSplit<T>(a: seq<T>, b: seq<T>, size: T -> nat)
    ensures Size(a + b, size) == Size(a, size) + Size(b, size)
  {
    if b == [] {
      assert a + b == a;
    } else {
      SizeSplit(a, b[..|b| - 1], size);
      assert (a + b)[..|a + b| - 1] == a + b[..|b| - 1];
    }
  }

  lemma PlaceKeepsGrouping<T(!new)>(groups: seq<seq<T>>, xs: seq<T>, x: T, size: T -> nat, bound: nat)
    requires Grouping(groups, xs, size, bound)
    ensures Grouping(Place(groups, x, size, bound), xs + [x], size, bound)
  {
    if groups == [] {
      FlattenOneMore([], [x]);
    } else {
      var front, last := groups[..|groups| - 1], groups[|groups| - 1];
      if Size(last, size) + size(x) > bound {
        FlattenOneMore(groups, [x]);
      } else {
        SizeOneMore(last, x, size);
        FlattenOneMore(front, last + [x]);
        assert Flatten(front) + (last + [x]) == xs + [x];
      }
    }
  }

  /** Nothing lost, nothing reordered, every group within the bound or a single item. */
  lemma {:induction false} PackGroups<T(!new)>(xs: seq<T>, size: T -> nat, bound: nat)
    ensures Grouping(Pack(xs, size, bound), xs, size, bound)
  {
    if xs != [] {
      PackGroups(xs[..|xs| - 1], size, bound);
      PlaceKeepsGrouping(Pack(xs[..|xs| - 1], size, bound), xs[..|xs| - 1], xs[|xs| - 1], size, bound);
      assert xs[..|xs| - 1] + [xs[|xs| - 1]] == xs;
    }
  }

  /** Greedy stays ahead: no more groups than any other grouping and, with as many, no longer a last group. */
  predicate Ahead<T>(greedy: seq<seq<T>>, other: seq<seq<T>>) {
    && |greedy| <= |other|
    && (greedy != [] && |greedy| == |other| ==> |greedy[|greedy| - 1]| <= |other[|other| - 1]|)
  }

  /** The last group of a grouping is a suffix of the items. */
  lemma LastIsSuffix<T(!new)>(groups: seq<seq<T>>, xs: seq<T>, size: T -> nat, bound: nat)
    requires Grouping(groups, xs, size, bound) && groups != []
    ensures var last := groups[|groups| - 1];
            1 <= |last| <= |xs| && last == xs[|xs| - |last|..] && Flatten(groups[..|groups| - 1]) == xs[..|xs| - |last|]
  {
    assert groups[|groups| - 1] in groups;
  }

  /** Another grouping of the items without the last one: drop it from its group, or drop its group. */
  function WithoutLast<T>(groups: seq<seq<T>>): seq<seq<T>>
    requires groups != [] && groups[|groups| - 1] != []
  {
    var front, last := groups[..|groups| - 1], groups[|groups| - 1];
    if |last| == 1 then front else front + [last[..|last| - 1]]
  }

  lemma WithoutLastGroups<T(!new)>(groups: seq<seq<T>>, xs: seq<T>, size: T -> nat, bound: nat)
    requires Grouping(groups, xs, size, bound) && xs != []
    ensures groups != [] && groups[|groups| - 1] != []
    ensures Grouping(WithoutLast(groups), xs[..|xs| - 1], size, bound)
  {
    LastIsSuffix(groups, xs, size, bound);
    var front, last := groups[..|groups| - 1], groups[|groups| - 1];
    assert last in groups && forall g <- front :: g in groups;
    if |last| > 1 {
      var shorter := last[..|last| - 1];
      FlattenOneMore(front, shorter);
      assert Fits(shorter, size, bound) by {
        assert Size(last, size) == Size(shorter, size) + size(last[|last| - 1]);
      }
      assert forall g <- front + [shorter] :: g in front || g == shorter;
    }
  }

  lemma {:induction false} StaysAhead<T(!new)>(xs: seq<T>, other: seq<seq<T>>, size: T -> nat, bound: nat)
    requires Grouping(other, xs, size, bound)
    ensures Ahead(Pack(xs, size, bound), other)
  {
    if xs != [] {
      var front, x := xs[..|xs| - 1], xs[|xs| - 1];
      WithoutLastGroups(other, xs, size, bound);
      StaysAhead(front, WithoutLast(other), size, bound);
      PackGroups(front, size, bound);
      PlaceStaysAhead(Pack(front, size, bound), other, front, x, size, bound);
    }
  }

  lemma PlaceStaysAhead<T(!new)>(greedy: seq<seq<T>>, other: seq<seq<T>>, front: seq<T>, x: T, size: T -> nat,
                                 bound: nat)
    requires Grouping(greedy, front, size, bound) && Grouping(other, front + [x], size, bound)
    requires other != [] && other[|other| - 1] != [] && Ahead(greedy, WithoutLast(other))
    ensures Ahead(Place(greedy, x, size, bound), other)
  {
    var xs := front + [x];
    LastIsSuffix(other, xs, size, bound);
    if greedy != [] {
      LastIsSuffix(greedy, front, size, bound);
      var last, last' := greedy[|greedy| - 1], other[|other| - 1];
      if Size(last, size) + size(x) > bound && |other| == |greedy| {
        // The other grouping's last group would hold all of `last` and `x`.
        assert last' in other;
        assert |last| <= |last'| - 1;
        var extra := last'[..|last'| - 1 - |last|];
        assert last' == extra + (last + [x]);
        SizeSplit(extra, last + [x], size);
        SizeOneMore(last, x, size);
      }
    }
  }

  /** No grouping of the items, in order and within the bound, has fewer groups. */
  lemma PackOptimal<T(!new)>(xs: seq<T>, other: seq<seq<T>>, size: T -> nat, bound: nat)
    requires Grouping(other, xs, size, bound)
    ensures |Pack(xs, size, bound)| <= |other|
  {
    StaysAhead(xs, other, size, bound);
  }
}
