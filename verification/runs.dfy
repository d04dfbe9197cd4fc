/** Runs of a deterministic machine: one state after each call. */
module Runs {
  function After<S, E>(step: (S, E) -> S, start: S, events: seq<E>, n: nat): S
    requires n <= |events|
  {
    if n == 0 then start else step(After(step, start, events, n - 1), events[n - 1])
  }

  /** What every step keeps holds in every reachable state. */
  lemma {:induction false} Invariant<S(!new), E(!new)>(step: (S, E) -> S, start: S, events: seq<E>, n: nat,
                                                       inv: S -> bool)
    requires n <= |events|
    requires inv(start) && forall s, e :: inv(s) ==> inv(step(s, e))
    ensures inv(After(step, start, events, n))
  {
    if n > 0 {
      Invariant(step, start, events, n - 1, inv);
    }
  }

  /** A preorder that every step of a run from `m` on respects relates the state at `m` to every later one. */
  lemma {:induction false} Respects<S(!new), E>(step: (S, E) -> S, start: S, events: seq<E>, m: nat, n: nat,
                                                rel: (S, S) -> bool)
    requires m <= n <= |events|
    requires (forall s :: rel(s, s)) && (forall s, t, u :: rel(s, t) && rel(t, u) ==> rel(s, u))
    requires forall k :: m <= k < n ==>
               rel(After(step, start, events, k), step(After(step, start, events, k), events[k]))
    ensures rel(After(step, start, events, m), After(step, start, events, n))
  {
    if m < n {
      Respects(step, start, events, m, n - 1, rel);
      assert rel(After(step, start, events, n - 1), After(step, start, events, n));
    }
  }

  /** The call after `k` others causes the change. */
  ghost predicate CausedAt<S, E>(step: (S, E) -> S, start: S, events: seq<E>, k: nat, cause: (S, E) -> bool) {
    k < |events| && cause(After(step, start, events, k), events[k])
  }

  ghost predicate CausedBefore<S, E>(step: (S, E) -> S, start: S, events: seq<E>, n: nat, cause: (S, E) -> bool) {
    exists k: nat :: k < n && CausedAt(step, start, events, k, cause)
  }

  /** A property that is never lost, and gained by a cause only, holds exactly after a cause. */
  lemma {:induction false} HoldsAfterCause<S(!new), E(!new)>(step: (S, E) -> S, start: S, events: seq<E>, n: nat,
                                                             holds: S -> bool, cause: (S, E) -> bool)
    requires n <= |events| && !holds(start)
    requires forall s, e :: holds(step(s, e)) <==> holds(s) || cause(s, e)
    ensures holds(After(step, start, events, n)) <==> CausedBefore(step, start, events, n, cause)
  {
    if n > 0 {
      HoldsAfterCause(step, start, events, n - 1, holds, cause);
      assert CausedBefore(step, start, events, n, cause) <==>
             CausedBefore(step, start, events, n - 1, cause) || CausedAt(step, start, events, n - 1, cause);
    }
  }
}
