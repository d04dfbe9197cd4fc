/** Sets of names in text order, as `sorted` lists them. */
module Names {
  import Minimum
  import Text

  predicate IsLeast(names: set<string>, x: string) {
    Minimum.IsFirst(Text.Less, names, x)
  }

  lemma TextOrders(names: set<string>)
    ensures Minimum.Orders(Text.Less, names)
  {
    forall x, y | x in names && y in names
      ensures x == y || Text.Less(x, y) || Text.Less(y, x)
    {
      Text.LessTotal(x, y);
    }
    forall x, y, z | Text.Less(x, y) && Text.Less(y, z)
      ensures Text.Less(x, z)
    {
      Text.LessTransitive(x, y, z);
    }
    forall x: string
      ensures !Text.Less(x, x)
    {
      Text.LessIrreflexive(x);
    }
  }

  function Least(names: set<string>): (x: string)
    requires names != {}
    ensures IsLeast(names, x)
  {
    TextOrders(names);
    assert exists x :: x in names && IsLeast(names, x) by { var x := Minimum.FirstExists(Text.Less, names); }
    assert forall x, y :: IsLeast(names, x) && IsLeast(names, y) ==> x == y by {
      forall x, y | IsLeast(names, x) && IsLeast(names, y) { Minimum.FirstUnique(Text.Less, names, x, y); }
    }
    var x :| x in names && IsLeast(names, x); x
  }

  function Sorted(names: set<string>): seq<string> {
    if names == {} then [] else [Least(names)] + Sorted(names - {Least(names)})
  }

  predicate NoRepeats(s: seq<string>) {
    forall i, j :: 0 <= i < j < |s| ==> s[i] != s[j]
  }

  ghost predicate Lists(order: seq<string>, names: set<string>) {
    NoRepeats(order) && forall x :: x in order <==> x in names
  }

  lemma {:induction false} SortedIsSorted(names: set<string>)
    ensures Lists(Sorted(names), names) && |Sorted(names)| == |names|
    ensures forall i, j :: 0 <= i < j < |Sorted(names)| ==> Text.Less(Sorted(names)[i], Sorted(names)[j])
  {
    if names != {} {
      var x := Least(names);
      var rest := Sorted(names - {x});
      SortedIsSorted(names - {x});
      forall j | 0 <= j < |rest|
        ensures rest[j] != x && Text.Less(x, rest[j])
      {
        assert rest[j] in rest;
      }
    }
  }
}
