/** The queue's calls told by the columns of its rows alone: every condition and every written value is spelled out. */
module QueueFacts {
  import opened Directories
  import opened PostgameQueue
  import opened QueuePolls
  import opened QueueRuns
  import opened QueueTable
  import opened Wrappers
  import Minimum
  import Runs
  import Text

  // ---- reconcile ----

  /** A poll with evidence and two distinct teams, each listed for the season under its provider identity. */
  predicate FitToRead(p: Poll, directory: Directory, at: int) {
    && p.gameId != "" && p.observed <= at && p.source != ""
    && |p.teams| == 2 && p.teams[0].teamId != p.teams[1].teamId
    && forall i :: 0 <= i < 2 ==>
         && (p.teams[i].teamId, p.season) in directory
         && directory[(p.teams[i].teamId, p.season)].providerId == p.teams[i].providerId
  }

  predicate ListedFbs(p: Poll, directory: Directory) {
    exists i :: 0 <= i < |p.teams| && (p.teams[i].teamId, p.season) in directory
                && directory[(p.teams[i].teamId, p.season)].classification == "FBS"
  }

  predicate Official(s: Status) {
    s == Scheduled || s == InProgress || s == Final || s == Postponed || s == Cancelled || s == Suspended
  }

  /** The poll speaks of the row's game, and of the same moment it says the same. */
  predicate AgreesWith(row: Row, p: Poll)
    requires |p.teams| == 2
  {
    && row.season == p.season && row.source == p.source && row.identity == {p.teams[0], p.teams[1]}
    && (row.observed == p.observed ==> row.status == p.status)
  }

  predicate FitFor(t: Table, p: Poll, directory: Directory, at: int) {
    && FitToRead(p, directory, at)
    && (ListedFbs(p, directory) ==> Official(p.status) && (p.gameId in t ==> AgreesWith(t[p.gameId], p)))
  }

  lemma CanonicalByFields(p: Poll, directory: Directory, at: int)
    requires |p.teams| == 2
    ensures Canonical(p, directory) <==>
            forall i :: 0 <= i < 2 ==>
              && (p.teams[i].teamId, p.season) in directory
              && directory[(p.teams[i].teamId, p.season)].providerId == p.teams[i].providerId
    ensures Canonical(p, directory) ==> (InvolvesFbs(p, directory) <==> ListedFbs(p, directory))
    ensures Identity(p) == {p.teams[0], p.teams[1]}
  {
    assert forall i :: 0 <= i < 2 ==> p.teams[i] in p.teams;
    assert forall x <- p.teams :: x == p.teams[0] || x == p.teams[1];
  }

  lemma ScreenByFields(t: Table, p: Poll, directory: Directory, at: int)
    requires p.gameId != ""
    ensures !Screen(Lookup(t, p.gameId), p, directory, at).Refused? <==> FitFor(t, p, directory, at)
    ensures Screen(Lookup(t, p.gameId), p, directory, at) == Taken <==>
            && FitFor(t, p, directory, at) && ListedFbs(p, directory)
            && (p.gameId in t ==> t[p.gameId].observed <= p.observed)
  {
    if |p.teams| == 2 {
      CanonicalByFields(p, directory, at);
    }
  }

  /** A batch is admitted exactly when its games are distinct and each poll is fit for its row. */
  lemma AdmittedByFields(t: Table, polls: seq<Poll>, directory: Directory, at: int)
    ensures Admit(t, polls, directory, at).Admitted? <==>
            && (forall i, j :: 0 <= i < j < |polls| ==> polls[i].gameId != polls[j].gameId)
            && (forall p <- polls :: FitFor(t, p, directory, at))
    ensures var a := Admit(t, polls, directory, at);
            a.Admitted? ==> forall p: Poll :: p in a.polls <==>
              p in polls && ListedFbs(p, directory) && (p.gameId in t ==> t[p.gameId].observed <= p.observed)
  {
    AdmittedExactlyWhen(t, polls, directory, at);
    forall p | p in polls && p.gameId != ""
      ensures !Screen(Lookup(t, p.gameId), p, directory, at).Refused? <==> FitFor(t, p, directory, at)
      ensures Screen(Lookup(t, p.gameId), p, directory, at) == Taken <==>
              && FitFor(t, p, directory, at) && ListedFbs(p, directory)
              && (p.gameId in t ==> t[p.gameId].observed <= p.observed)
    {
      ScreenByFields(t, p, directory, at);
    }
    if Admit(t, polls, directory, at).Admitted? {
      AdmittedAreDistinct(t, polls, directory, at);
    }
  }

  /** What an admitted poll leaves in the row of its game. */
  predicate RowTold(before: Option<Row>, after: Row, p: Poll, at: int) {
    && after.status == p.status && after.observed == p.observed
    && (match before
        case None =>
          && |p.teams| == 2 && after.identity == {p.teams[0], p.teams[1]}
          && after.season == p.season && after.source == p.source
          && after.token == None && after.leaseUntil == None && after.attempts == 0
          && after.error == None && after.verified == None
        case Some(row) =>
          && after.identity == row.identity && after.season == row.season && after.source == row.source
          && after.token == row.token && after.leaseUntil == row.leaseUntil && after.attempts == row.attempts
          && after.error == row.error && after.verified == row.verified)
    && (if p.status != Final then
          && after.due == None
          && var reversed := before.Some? && before.value.verified.Some? && before.value.verified != Some("");
             after.state == if reversed then Quarantined else Reported(p.status)
        else if before.Some? && before.value.status == Final then
          after.state == before.value.state && after.due == before.value.due
        else after.state == FinalDetected && after.due == Some(at))
  }

  /** The whole effect of a poll of an admitted batch on the row of its game. */
  lemma PolledRowByFields(t: Table, polls: seq<Poll>, directory: Directory, at: int, p: Poll)
    requires Admit(t, polls, directory, at).Admitted? && p in polls
    ensures var t' := Apply(t, Reconcile(polls, directory, at));
            if ListedFbs(p, directory) && (p.gameId in t ==> t[p.gameId].observed <= p.observed)
            then p.gameId in t' && RowTold(Lookup(t, p.gameId), t'[p.gameId], p, at)
            else (p.gameId in t' <==> p.gameId in t) && (p.gameId in t ==> t'[p.gameId] == t[p.gameId])
  {
    AdmittedByFields(t, polls, directory, at);
    var e := Reconcile(polls, directory, at);
    if ListedFbs(p, directory) && (p.gameId in t ==> t[p.gameId].observed <= p.observed) {
      assert Writes(t, e, p);
      RowStep(t, e, p.gameId);
      CanonicalByFields(p, directory, at);
    } else {
      NotTakenNotWritten(t, e, p);
    }
  }

  /** Games not polled keep their rows, and a refused batch keeps every row. */
  lemma OtherGamesByFields(t: Table, polls: seq<Poll>, directory: Directory, at: int, g: string)
    requires forall p <- polls :: p.gameId != g
    ensures var t' := Apply(t, Reconcile(polls, directory, at));
            (g in t' <==> g in t) && (g in t ==> t'[g] == t[g])
  {
    if Admit(t, polls, directory, at).Admitted? {
      AdmittedAreDistinct(t, polls, directory, at);
    }
    RowStep(t, Reconcile(polls, directory, at), g);
  }

  /** A new game gets a row exactly when one of its two listings is FBS. */
  lemma NewGameQueuedExactlyWhen(t: Table, p: Poll, directory: Directory, at: int)
    requires FitToRead(p, directory, at) && p.gameId !in t && Official(p.status)
    ensures p.gameId in Apply(t, Reconcile([p], directory, at)) <==>
            || directory[(p.teams[0].teamId, p.season)].classification == "FBS"
            || directory[(p.teams[1].teamId, p.season)].classification == "FBS"
  {
    AdmittedByFields(t, [p], directory, at);
    assert p in [p];
    PolledRowByFields(t, [p], directory, at, p);
  }

  /** The call is an admitted batch with a poll of the game one of whose teams is listed FBS. */
  ghost predicate PollsFbs(t: Table, e: Event, g: string) {
    && e.Reconcile? && Admit(t, e.polls, e.directory, e.at).Admitted?
    && exists p <- e.polls :: p.gameId == g && ListedFbs(p, e.directory)
  }

  lemma QueuedStep(t: Table, e: Event, g: string)
    ensures g in Apply(t, e) <==> g in t || PollsFbs(t, e, g)
  {
    RowStep(t, e, g);
    if e.Reconcile? && Admit(t, e.polls, e.directory, e.at).Admitted? {
      if p :| p in e.polls && p.gameId == g {
        PolledRowByFields(t, e.polls, e.directory, e.at, p);
        AdmittedAreDistinct(t, e.polls, e.directory, e.at);
        forall q | q in e.polls && q.gameId == g
          ensures q == p
        {
          SameGameSamePoll(e.polls, p, q);
        }
      } else {
        OtherGamesByFields(t, e.polls, e.directory, e.at, g);
      }
    }
  }

  ghost predicate FbsPollAt(es: seq<Event>, k: nat, g: string) {
    k < |es| && PollsFbs(After(es, k), es[k], g)
  }

  /** After any run a game has a row exactly when an admitted batch held a poll of it with a team listed FBS. */
  lemma QueuedExactlyWhen(es: seq<Event>, n: nat, g: string)
    requires n <= |es|
    ensures g in After(es, n) <==> exists k: nat :: k < n && FbsPollAt(es, k, g)
  {
    forall t, e
      ensures g in Apply(t, e) <==> g in t || PollsFbs(t, e, g)
    {
      QueuedStep(t, e, g);
    }
    var cause := (t, e) => PollsFbs(t, e, g);
    Runs.HoldsAfterCause(Apply, map[], es, n, (t: Table) => g in t, cause);
    assert forall k: nat :: Runs.CausedAt(Apply, map[], es, k, cause) <==> FbsPollAt(es, k, g);
  }

  // ---- claim ----

  /** A final game that is due, under no running lease, in a state that waits for work. */
  predicate Waits(row: Row, at: int) {
    && row.status == Final && row.due.Some? && row.due.value <= at
    && (row.leaseUntil.Some? ==> row.leaseUntil.value <= at)
    && (|| row.state == FinalDetected || row.state == SourcePending || row.state == PartialSource
        || row.state == RetryPending || row.state == Validating || row.state == Verified || row.state == Corrected)
  }

  predicate DueFirst(t: Table, g: string, h: string)
    requires g in t && h in t && t[g].due.Some? && t[h].due.Some?
  {
    t[g].due.value < t[h].due.value || (t[g].due.value == t[h].due.value && Text.Less(g, h))
  }

  /** The whole answer and effect of `claim`. */
  lemma ClaimByFields(t: Table, at: int, seconds: int, token: string)
    ensures var (t', reply) := Claimed(t, at, seconds, token);
            && (reply == BadLease <==> seconds < 1 || seconds > 3600)
            && (reply == NothingDue <==> 1 <= seconds <= 3600 && forall g <- t :: !Waits(t[g], at))
            && (!reply.Granted? ==> t' == t)
            && (reply.Granted? ==>
                  var g := reply.grant.gameId;
                  && g in t && Waits(t[g], at)
                  && (forall h <- t :: h != g && Waits(t[h], at) ==> DueFirst(t, g, h))
                  && reply.grant == Grant(g, token, at + seconds, t[g].verified)
                  && t' == t[g := t[g].(state := Validating, token := Some(token), leaseUntil := Some(at + seconds),
                                        attempts := t[g].attempts + 1)])
  {
    WaitingGames(t, at);
    var (t', reply) := Claimed(t, at, seconds, token);
    if reply.Granted? {
      var g := reply.grant.gameId;
      forall h | h in t && h != g && Waits(t[h], at)
        ensures DueFirst(t, g, h)
      {
        assert Minimum.IsFirst(DueOrder(t), EligibleIds(t, at), g);
        assert Precedes(t, g, h);
      }
    }
  }

  lemma WaitingGames(t: Table, at: int)
    ensures forall g :: g in EligibleIds(t, at) <==> g in t && Waits(t[g], at)
  {
  }

  /** Claiming again and again at one clock grants the waiting games once each, oldest due time first. */
  lemma DrainByFields(t: Table, at: int, seconds: int, tokens: seq<string>)
    requires 1 <= seconds <= 3600 && |tokens| > |t|
    ensures var d := Drain(t, at, seconds, tokens);
            && (forall g :: g in d <==> g in t && Waits(t[g], at))
            && (forall i, j :: 0 <= i < j < |d| ==> d[i] in t && d[j] in t && Waits(t[d[i]], at) && Waits(t[d[j]], at)
                                                    && d[i] != d[j] && DueFirst(t, d[i], d[j]))
  {
    SubsetSize(EligibleIds(t, at), t.Keys);
    assert |t| == |t.Keys|;
    DrainGrantsAllOnce(t, at, seconds, tokens);
    WaitingGames(t, at);
    var d := Drain(t, at, seconds, tokens);
    forall i, j | 0 <= i < j < |d|
      ensures d[i] in t && d[j] in t && Waits(t[d[i]], at) && Waits(t[d[j]], at)
      ensures d[i] != d[j] && DueFirst(t, d[i], d[j])
    {
      assert d[i] in d && d[j] in d;
      assert Precedes(t, d[i], d[j]);
      Text.LessIrreflexive(d[i]);
    }
  }

  lemma {:induction false} SubsetSize<T>(a: set<T>, b: set<T>)
    requires a <= b
    ensures |a| <= |b|
  {
    assert b == a + (b - a);
  }

  /** In every reachable state: a final game waits from its due time and the end of its lease on, unless it is
      quarantined, and then it has no due time. */
  lemma FinalGameWaits(es: seq<Event>, n: nat, g: string, at: int)
    requires n <= |es| && g in After(es, n) && After(es, n)[g].status == Final
    ensures var row := After(es, n)[g];
            if row.state == Quarantined then row.due == None
            else row.due.Some? && (Waits(row, at) <==>
                   row.due.value <= at && (row.leaseUntil.Some? ==> row.leaseUntil.value <= at))
  {
    ReachableSound(es, n, g);
  }

  // ---- finish ----

  predicate Filled(text: Option<string>) {
    text.Some? && text.value != ""
  }

  /** What `finish` accepts. */
  predicate MayFinish(t: Table, e: Event)
    requires e.Finish?
  {
    && 1 <= e.retry <= 86400
    && e.gameId in t && t[e.gameId].status == Final && t[e.gameId].state == Validating
    && t[e.gameId].token == Some(e.token) && t[e.gameId].leaseUntil.Some? && e.at < t[e.gameId].leaseUntil.value
    && if Filled(e.version) then !Filled(e.error) && e.failure == None
       else || e.failure == Some(SourcePending) || e.failure == Some(PartialSource)
            || e.failure == Some(RetryPending) || e.failure == Some(Quarantined)
  }

  /** What it stores. */
  predicate RowClosed(before: Row, after: Row, e: Event)
    requires e.Finish?
  {
    && after.status == before.status && after.observed == before.observed && after.season == before.season
    && after.identity == before.identity && after.source == before.source && after.attempts == before.attempts
    && after.token == None && after.leaseUntil == None && after.error == e.error
    && after.verified == (if e.version.Some? then e.version else before.verified)
    && (if Filled(e.version)
        then after.state == (if Filled(before.verified) && before.verified != e.version then Corrected else Verified)
        else e.failure == Some(after.state))
    && after.due == (if after.state == Quarantined then None else Some(e.at + e.retry))
  }

  /** The whole answer and effect of `finish`. */
  lemma FinishByFields(t: Table, e: Event)
    requires e.Finish?
    ensures FinishAnswer(t, e.gameId, e.token, e.at, e.version, e.error, e.failure, e.retry) == Finished <==>
            MayFinish(t, e)
    ensures MayFinish(t, e) ==>
              && Apply(t, e).Keys == t.Keys && RowClosed(t[e.gameId], Apply(t, e)[e.gameId], e)
              && forall h <- t :: h != e.gameId ==> Apply(t, e)[h] == t[h]
    ensures !MayFinish(t, e) ==> Apply(t, e) == t
  {
  }
}
