/** Finite sums over sets. */
module Sums {
  ghost function Sum<T(!new)>(s: set<T>, f: T -> real): real {
    if s == {} then 0.0
    else
      var x :| x in s;
      f(x) + Sum(s - {x}, f)
  }

  lemma {:induction false} SumTakeOut<T(!new)>(s: set<T>, f: T -> real, x: T)
    requires x in s
    ensures Sum(s, f) == f(x) + Sum(s - {x}, f)
  {
    var y :| y in s && Sum(s, f) == f(y) + Sum(s - {y}, f);
    if y != x {
      SumTakeOut(s - {y}, f, x);
      SumTakeOut(s - {x}, f, y);
      assert s - {y} - {x} == s - {x} - {y};
    }
  }

  lemma {:induction false} SumEqual<T(!new)>(s: set<T>, f: T -> real, g: T -> real)
    requires forall x <- s :: f(x) == g(x)
    ensures Sum(s, f) == Sum(s, g)
  {
    if s != {} {
      var x :| x in s;
      SumTakeOut(s, f, x);
      SumTakeOut(s, g, x);
      SumEqual(s - {x}, f, g);
    }
  }

  lemma {:induction false} SumOfZeros<T(!new)>(s: set<T>, f: T -> real)
    requires forall x <- s :: f(x) == 0.0
    ensures Sum(s, f) == 0.0
  {
    if s != {} {
      var x :| x in s;
      SumTakeOut(s, f, x);
      SumOfZeros(s - {x}, f);
    }
  }

  /** Terms outside `part` that are zero may be left out. */
  lemma {:induction false} SumRestrict<T(!new)>(s: set<T>, part: set<T>, f: T -> real)
    requires part <= s && forall x <- s - part :: f(x) == 0.0
    ensures Sum(s, f) == Sum(part, f)
    decreases |s - part|
  {
    if s - part == {} {
      assert s == part;
    } else {
      var x :| x in s - part;
      SumTakeOut(s, f, x);
      SumRestrict(s - {x}, part, f);
    }
  }

  lemma SumOfTwo<T(!new)>(s: set<T>, f: T -> real, a: T, b: T)
    requires a in s && b in s && a != b && forall x <- s :: x != a && x != b ==> f(x) == 0.0
    ensures Sum(s, f) == f(a) + f(b)
  {
    SumRestrict(s, {a, b}, f);
    SumTakeOut({a, b}, f, a);
    assert {a, b} - {a} == {b};
    SumTakeOut({b}, f, b);
  }

  ghost function At<T, U>(w: (T, U) -> real, u: U): T -> real {
    t => w(t, u)
  }

  ghost function Over<T(!new), U>(s: set<T>, w: (T, U) -> real): U -> real {
    u => Sum(s, At(w, u))
  }

  ghost function Swapped<T, U>(w: (T, U) -> real): (U, T) -> real {
    (u, t) => w(t, u)
  }

  lemma {:induction false} SumAdds<T(!new)>(s: set<T>, f: T -> real, g: T -> real, h: T -> real)
    requires forall x <- s :: h(x) == f(x) + g(x)
    ensures Sum(s, h) == Sum(s, f) + Sum(s, g)
  {
    if s != {} {
      var x :| x in s;
      SumTakeOut(s, f, x);
      SumTakeOut(s, g, x);
      SumTakeOut(s, h, x);
      SumAdds(s - {x}, f, g, h);
    }
  }

  /** Double counting: summing rows first or columns first gives the same. */
  lemma {:induction false} SumSwap<T(!new), U(!new)>(s: set<T>, r: set<U>, w: (T, U) -> real)
    ensures Sum(r, Over(s, w)) == Sum(s, Over(r, Swapped(w)))
  {
    if s == {} {
      SumOfZeros(r, Over(s, w));
    } else {
      var x :| x in s;
      forall u | u in r
        ensures Over(s, w)(u) == At(Swapped(w), x)(u) + Over(s - {x}, w)(u)
      {
        SumTakeOut(s, At(w, u), x);
      }
      SumAdds(r, At(Swapped(w), x), Over(s - {x}, w), Over(s, w));
      SumSwap(s - {x}, r, w);
      SumTakeOut(s, Over(r, Swapped(w)), x);
    }
  }
}
