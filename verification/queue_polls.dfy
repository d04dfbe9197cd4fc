/** Poll merging: batches are all-or-nothing and idempotent, and arrival order and batching do not matter. */
module QueuePolls {
  import opened Directories
  import opened Wrappers
  import opened QueueTable
  import opened QueueRuns
  import opened PostgameQueue

  predicate Considered(p: Poll, directory: Directory) {
    Canonical(p, directory) && InvolvesFbs(p, directory)
  }

  /** A batch is admitted exactly when no poll in it, judged against the table before the call, is invalid. */
  lemma {:induction false} AdmittedExactlyWhen(t: Table, polls: seq<Poll>, directory: Directory, at: int)
    ensures Admit(t, polls, directory, at).Admitted? <==>
            Distinct(polls) && forall p <- polls ::
              p.gameId != "" && !Screen(Lookup(t, p.gameId), p, directory, at).Refused?
    ensures var a := Admit(t, polls, directory, at);
            a.Admitted? ==> forall p <- polls ::
              p in a.polls <==> Screen(Lookup(t, p.gameId), p, directory, at) == Taken
  {
    if polls != [] {
      var earlier, p := polls[..|polls| - 1], polls[|polls| - 1];
      AdmittedExactlyWhen(t, earlier, directory, at);
      assert polls == earlier + [p];
      DistinctOneMore(earlier, p);
      if Admit(t, earlier, directory, at).Admitted? {
        AdmittedAreDistinct(t, earlier, directory, at);
      }
    }
  }

  lemma DistinctOneMore(polls: seq<Poll>, p: Poll)
    ensures Distinct(polls + [p]) <==> Distinct(polls) && !Mentions(polls, p.gameId)
  {
    if Distinct(polls + [p]) {
      forall i, j | 0 <= i < j < |polls|
        ensures polls[i].gameId != polls[j].gameId
      {
        assert (polls + [p])[i] == polls[i] && (polls + [p])[j] == polls[j];
      }
      forall q | q in polls
        ensures q.gameId != p.gameId
      {
        var i :| 0 <= i < |polls| && polls[i] == q;
        assert (polls + [p])[i] == q && (polls + [p])[|polls|] == p;
      }
    }
  }

  lemma InvalidBatchChangesNothing(t: Table, polls: seq<Poll>, directory: Directory, at: int, p: Poll)
    requires p in polls
    requires p.gameId == "" || Screen(Lookup(t, p.gameId), p, directory, at).Refused?
    ensures Apply(t, Reconcile(polls, directory, at)) == t
  {
    AdmittedExactlyWhen(t, polls, directory, at);
  }

  lemma TablesEqual(a: Table, b: Table)
    requires forall g :: Lookup(a, g) == Lookup(b, g)
    ensures a == b
  {
    assert forall g :: (g in a <==> Lookup(a, g).Some?) && (g in b <==> Lookup(b, g).Some?);
    assert forall g <- a :: Lookup(a, g) == Lookup(b, g) && a[g] == b[g];
  }

  /** The same batch again, at the same or a later clock, is admitted again and changes nothing. */
  lemma BatchTwice(t: Table, polls: seq<Poll>, directory: Directory, at: int, later: int)
    requires at <= later && Admit(t, polls, directory, at).Admitted?
    ensures var t' := Apply(t, Reconcile(polls, directory, at));
            && Admit(t', polls, directory, later).Admitted?
            && Apply(t', Reconcile(polls, directory, later)) == t'
  {
    var e, e' := Reconcile(polls, directory, at), Reconcile(polls, directory, later);
    var t' := Apply(t, e);
    AdmittedExactlyWhen(t, polls, directory, at);
    AdmittedExactlyWhen(t', polls, directory, later);
    forall p | p in polls {
      PollAgain(t, e, p, later);
    }
    AdmittedAreDistinct(t', polls, directory, later);
    forall g
      ensures Lookup(Apply(t', e'), g) == Lookup(t', g)
    {
      RowStep(t', e', g);
      if p :| Writes(t', e', p) && p.gameId == g {
        PollAgain(t, e, p, later);
      }
    }
    TablesEqual(Apply(t', e'), t');
  }

  /** A poll of an admitted batch, met again: never refused, and taken only to write what is there. */
  lemma PollAgain(t: Table, e: Event, p: Poll, later: int)
    requires e.Reconcile? && e.at <= later && Admit(t, e.polls, e.directory, e.at).Admitted? && p in e.polls
    ensures var row := Lookup(Apply(t, e), p.gameId);
            && !Screen(row, p, e.directory, later).Refused?
            && (Screen(row, p, e.directory, later) == Taken ==> row.Some? && Merge(row, p, later) == row.value)
  {
    AdmittedExactlyWhen(t, e.polls, e.directory, e.at);
    if Screen(Lookup(t, p.gameId), p, e.directory, e.at) == Taken {
      assert Writes(t, e, p);
      RowTakes(t, e, p);
      MergeAgain(Lookup(t, p.gameId), p, e.directory, e.at, later);
    } else {
      NotTakenNotWritten(t, e, p);
    }
  }

  lemma MergeAgain(prior: Option<Row>, p: Poll, directory: Directory, at: int, later: int)
    requires at <= later && Screen(prior, p, directory, at) == Taken
    ensures var row := Merge(prior, p, at);
            Screen(Some(row), p, directory, later) == Taken && Merge(Some(row), p, later) == row
  {
  }

  lemma NotTakenNotWritten(t: Table, e: Event, p: Poll)
    requires e.Reconcile? && Admit(t, e.polls, e.directory, e.at).Admitted? && p in e.polls
    requires Screen(Lookup(t, p.gameId), p, e.directory, e.at) != Taken
    ensures Lookup(Apply(t, e), p.gameId) == Lookup(t, p.gameId)
  {
    AdmittedExactlyWhen(t, e.polls, e.directory, e.at);
    AdmittedAreDistinct(t, e.polls, e.directory, e.at);
    RowStep(t, e, p.gameId);
    forall q | Writes(t, e, q)
      ensures q.gameId != p.gameId
    {
      if q.gameId == p.gameId {
        SameGameSamePoll(e.polls, p, q);
      }
    }
  }

  lemma SameGameSamePoll(polls: seq<Poll>, p: Poll, q: Poll)
    requires Distinct(polls) && p in polls && q in polls && p.gameId == q.gameId
    ensures p == q
  {
  }

  // ---- convergence ----

  ghost predicate AdmittedAt(es: seq<Event>, i: nat) {
    i < |es| && es[i].Reconcile? && Admit(After(es, i), es[i].polls, es[i].directory, es[i].at).Admitted?
  }

  ghost predicate OffersAt(es: seq<Event>, i: nat, p: Poll) {
    i < |es| && es[i].Reconcile? && p in es[i].polls && Considered(p, es[i].directory)
  }

  /** Poll `p` of an FBS game was part of an admitted batch among the first `n` calls. */
  ghost predicate Told(es: seq<Event>, n: nat, p: Poll) {
    exists i: nat :: i < n && OffersAt(es, i, p) && AdmittedAt(es, i)
  }

  predicate Agrees(row: Row, p: Poll) {
    && SameGame(row, p)
    && p.observed <= row.observed
    && (p.observed == row.observed ==> p.status == row.status)
  }

  /** How a row may change: it keeps its identity, and its observation never gets older or changes status in place. */
  predicate Evolves(row: Row, row': Row) {
    && row'.season == row.season && row'.identity == row.identity && row'.source == row.source
    && row.observed <= row'.observed
    && (row.observed == row'.observed ==> row.status == row'.status)
  }

  /** Polls of `g` that call `e` considered. */
  ghost predicate Hears(t: Table, e: Event, g: string, p: Poll) {
    && e.Reconcile? && Admit(t, e.polls, e.directory, e.at).Admitted?
    && p in e.polls && p.gameId == g && Considered(p, e.directory)
  }

  predicate Carries(row: Row, p: Poll) {
    SameGame(row, p) && p.observed == row.observed && p.status == row.status
  }

  lemma RowHears(t: Table, e: Event, g: string)
    ensures g in t ==> g in Apply(t, e) && Evolves(t[g], Apply(t, e)[g])
    ensures forall p :: Hears(t, e, g, p) ==> g in Apply(t, e) && Agrees(Apply(t, e)[g], p)
    ensures g in Apply(t, e) ==> HeardOrKept(t, e, g, Apply(t, e)[g])
  {
    if q :| Writes(t, e, q) && q.gameId == g {
      RowTakes(t, e, q);
    } else {
      RowStep(t, e, g);
      forall p | Hears(t, e, g, p)
        ensures g in t && Lookup(Apply(t, e), g) == Lookup(t, g) && Agrees(t[g], p)
      {
        AdmittedExactlyWhen(t, e.polls, e.directory, e.at);
        assert !Writes(t, e, p);
        assert Screen(Lookup(t, g), p, e.directory, e.at) == Ignored;
      }
    }
  }

  ghost predicate HeardOrKept(t: Table, e: Event, g: string, row: Row) {
    || (g in t && t[g].observed == row.observed && t[g].status == row.status)
    || exists p :: Hears(t, e, g, p) && Carries(row, p)
  }

  /** A written poll is the only one of its game in the batch, and the row then carries it. */
  lemma RowTakes(t: Table, e: Event, q: Poll)
    requires Writes(t, e, q)
    ensures Screen(Lookup(t, q.gameId), q, e.directory, e.at) == Taken
    ensures Lookup(Apply(t, e), q.gameId) == Some(Merge(Lookup(t, q.gameId), q, e.at))
    ensures Hears(t, e, q.gameId, q)
    ensures forall p :: Hears(t, e, q.gameId, p) ==> p == q
  {
    AdmittedExactlyWhen(t, e.polls, e.directory, e.at);
    AdmittedAreDistinct(t, e.polls, e.directory, e.at);
    RowStep(t, e, q.gameId);
    forall p | Hears(t, e, q.gameId, p)
      ensures p == q
    {
      SameGameSamePoll(e.polls, p, q);
    }
  }

  ghost predicate Reports(es: seq<Event>, n: nat, p: Poll, row: Row) {
    Told(es, n, p) && Carries(row, p)
  }

  /** The row carries the latest told poll: it is one of them, none is newer and none contradicts it. */
  ghost predicate LatestTold(es: seq<Event>, n: nat, g: string, t: Table) {
    && (g in t ==> exists p: Poll :: p.gameId == g && Reports(es, n, p, t[g]))
    && (forall p :: Told(es, n, p) && p.gameId == g ==> g in t && Agrees(t[g], p))
  }

  lemma ToldStep(es: seq<Event>, n: nat, g: string, p: Poll)
    requires n < |es| && p.gameId == g
    ensures Told(es, n + 1, p) <==> Told(es, n, p) || Hears(After(es, n), es[n], g, p)
  {
    assert Hears(After(es, n), es[n], g, p) <==> OffersAt(es, n, p) && AdmittedAt(es, n);
    if Told(es, n + 1, p) {
      var i: nat :| i < n + 1 && OffersAt(es, i, p) && AdmittedAt(es, i);
      assert i < n ==> Told(es, n, p);
    }
  }

  /** In every run, with claims, finishes, stale polls and refused batches mixed in. */
  lemma {:induction false} LatestWins(es: seq<Event>, n: nat, g: string)
    requires n <= |es|
    ensures LatestTold(es, n, g, After(es, n))
  {
    if n > 0 {
      LatestWins(es, n - 1, g);
      RowHears(After(es, n - 1), es[n - 1], g);
      LatestStep(es, n - 1, g, After(es, n - 1), After(es, n));
    }
  }

  lemma LatestStep(es: seq<Event>, n: nat, g: string, t: Table, t': Table)
    requires n < |es| && t == After(es, n) && t' == Apply(t, es[n])
    requires LatestTold(es, n, g, t)
    requires g in t ==> g in t' && Evolves(t[g], t'[g])
    requires forall p :: Hears(t, es[n], g, p) ==> g in t' && Agrees(t'[g], p)
    requires g in t' ==> HeardOrKept(t, es[n], g, t'[g])
    ensures LatestTold(es, n + 1, g, t')
  {
    forall p | Told(es, n + 1, p) && p.gameId == g
      ensures g in t' && Agrees(t'[g], p)
    {
      ToldStep(es, n, g, p);
    }
    if g in t' {
      if p :| Hears(t, es[n], g, p) && Carries(t'[g], p) {
        ToldStep(es, n, g, p);
        assert Reports(es, n + 1, p, t'[g]);
      } else {
        var p: Poll :| p.gameId == g && Reports(es, n, p, t[g]);
        ToldStep(es, n, g, p);
        assert Reports(es, n + 1, p, t'[g]);
      }
    }
  }

  /** Two runs that were told the same polls of a game end with the same status and observation time. */
  lemma SameNewsSameStatus(a: seq<Event>, b: seq<Event>, g: string)
    requires forall p: Poll :: p.gameId == g ==> (Told(a, |a|, p) <==> Told(b, |b|, p))
    ensures var s, t := After(a, |a|), After(b, |b|);
            && (g in s <==> g in t)
            && (g in s ==> s[g].status == t[g].status && s[g].observed == t[g].observed
                           && s[g].season == t[g].season && s[g].identity == t[g].identity
                           && s[g].source == t[g].source)
  {
    LatestWins(a, |a|, g);
    LatestWins(b, |b|, g);
    SameNewsSameRow(a, b, g, After(a, |a|), After(b, |b|));
  }

  lemma SameNewsSameRow(a: seq<Event>, b: seq<Event>, g: string, s: Table, t: Table)
    requires LatestTold(a, |a|, g, s) && LatestTold(b, |b|, g, t)
    requires forall p: Poll :: p.gameId == g ==> (Told(a, |a|, p) <==> Told(b, |b|, p))
    ensures g in s <==> g in t
    ensures g in s ==> Evolves(s[g], t[g]) && Evolves(t[g], s[g])
  {
    if g in s {
      var p: Poll :| p.gameId == g && Reports(a, |a|, p, s[g]);
      assert Told(b, |b|, p) && Agrees(t[g], p);
    }
    if g in t {
      var q: Poll :| q.gameId == g && Reports(b, |b|, q, t[g]);
      assert Told(a, |a|, q) && Agrees(s[g], q);
    }
  }

  predicate WellFormed(p: Poll, directory: Directory, at: int) {
    && p.gameId != "" && p.observed <= at && p.source != ""
    && |p.teams| == 2 && p.teams[0].teamId != p.teams[1].teamId
    && Canonical(p, directory)
    && !p.status.Unrecognized?
  }

  predicate SameStory(p: Poll, q: Poll) {
    && p.season == q.season && Identity(p) == Identity(q) && p.source == q.source
    && (p.observed == q.observed ==> p.status == q.status)
  }

  /** Every poll of the run is well formed on its own, and no two polls of a game contradict each other. */
  ghost predicate Consistent(es: seq<Event>) {
    && (forall i :: 0 <= i < |es| && es[i].Reconcile? ==>
          Distinct(es[i].polls) && forall p <- es[i].polls :: WellFormed(p, es[i].directory, es[i].at))
    && (forall i: nat, j: nat, p, q ::
          OffersAt(es, i, p) && OffersAt(es, j, q) && p.gameId == q.gameId ==> SameStory(p, q))
  }

  lemma {:induction false} ConsistentAdmitted(es: seq<Event>, i: nat)
    requires Consistent(es) && i < |es| && es[i].Reconcile?
    ensures AdmittedAt(es, i)
  {
    var t, e := After(es, i), es[i];
    AdmittedExactlyWhen(t, e.polls, e.directory, e.at);
    forall p | p in e.polls
      ensures !Screen(Lookup(t, p.gameId), p, e.directory, e.at).Refused?
    {
      LatestWins(es, i, p.gameId);
      ConsistentNotRefused(es, i, p, t);
    }
  }

  lemma ConsistentNotRefused(es: seq<Event>, i: nat, p: Poll, t: Table)
    requires Consistent(es) && i < |es| && es[i].Reconcile? && p in es[i].polls
    requires LatestTold(es, i, p.gameId, t)
    ensures !Screen(Lookup(t, p.gameId), p, es[i].directory, es[i].at).Refused?
  {
    assert WellFormed(p, es[i].directory, es[i].at);
    if p.gameId in t && Considered(p, es[i].directory) {
      var q: Poll :| q.gameId == p.gameId && Reports(es, i, q, t[p.gameId]);
      ToldIsOffered(es, i, q);
      var j: nat :| OffersAt(es, j, q);
      assert OffersAt(es, i, p);
      SameStoryNotRefused(t[p.gameId], p, q, es[i].directory, es[i].at);
    } else {
      UncontestedNotRefused(Lookup(t, p.gameId), p, es[i].directory, es[i].at);
    }
  }

  lemma SameStoryNotRefused(row: Row, p: Poll, q: Poll, directory: Directory, at: int)
    requires WellFormed(p, directory, at) && Carries(row, q) && SameStory(p, q)
    ensures !Screen(Some(row), p, directory, at).Refused?
  {
  }

  lemma UncontestedNotRefused(prior: Option<Row>, p: Poll, directory: Directory, at: int)
    requires WellFormed(p, directory, at) && (prior.None? || !Considered(p, directory))
    ensures !Screen(prior, p, directory, at).Refused?
  {
  }

  lemma ToldIsOffered(es: seq<Event>, n: nat, q: Poll)
    requires Told(es, n, q)
    ensures exists j: nat :: OffersAt(es, j, q)
  {
  }

  ghost predicate Offered(es: seq<Event>, p: Poll) {
    exists i: nat :: OffersAt(es, i, p)
  }

  /** Arrival order and batching are irrelevant: two consistent runs offering the same polls, in whatever order and
      batches and with whatever claims and finishes between them, agree on every game. */
  lemma OrderAndBatchingIrrelevant(a: seq<Event>, b: seq<Event>, g: string)
    requires Consistent(a) && Consistent(b)
    requires forall p: Poll :: p.gameId == g ==> (Offered(a, p) <==> Offered(b, p))
    ensures var s, t := After(a, |a|), After(b, |b|);
            && (g in s <==> g in t) && (g in s <==> exists p: Poll :: Offered(a, p) && p.gameId == g)
            && (g in s ==> s[g].status == t[g].status && s[g].observed == t[g].observed)
  {
    OfferedIsTold(a);
    OfferedIsTold(b);
    LatestWins(a, |a|, g);
    SameNewsSameStatus(a, b, g);
  }

  lemma OfferedIsTold(es: seq<Event>)
    requires Consistent(es)
    ensures forall p :: Offered(es, p) <==> Told(es, |es|, p)
  {
    forall p | Offered(es, p)
      ensures Told(es, |es|, p)
    {
      var i: nat :| OffersAt(es, i, p);
      ConsistentAdmitted(es, i);
    }
  }
}
