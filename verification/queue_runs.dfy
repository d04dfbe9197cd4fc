/** Whole runs of the queue: lease exclusion, revocation, and that no final game is lost. */
module QueueRuns {
  import opened Directories
  import opened Wrappers
  import opened QueueTable
  import PostgameQueue
  import Runs

  /** The table after the first `n` calls of a run on a new queue. */
  ghost function After(es: seq<Event>, n: nat): Table
    requires n <= |es|
  {
    Runs.After(Apply, map[], es, n)
  }

  // ---- what one call does to one game ----

  ghost predicate Grants(t: Table, e: Event, g: string) {
    e.Claim? && var reply := Claimed(t, e.at, e.seconds, e.token).1; reply.Granted? && reply.grant.gameId == g
  }

  predicate Finishes(t: Table, e: Event, g: string) {
    && e.Finish? && e.gameId == g
    && FinishAnswer(t, g, e.token, e.at, e.version, e.error, e.failure, e.retry) == Finished
  }

  predicate Writes(t: Table, e: Event, p: Poll) {
    e.Reconcile? && var a := Admit(t, e.polls, e.directory, e.at); a.Admitted? && p in a.polls
  }

  lemma {:induction false} UpsertsAt(t: Table, taken: seq<Poll>, at: int, p: Poll)
    requires PostgameQueue.Distinct(taken) && p in taken
    ensures Lookup(Upserts(t, taken, at), p.gameId) == Some(Merge(Lookup(t, p.gameId), p, at))
  {
    if p != taken[|taken| - 1] {
      UpsertsAt(t, taken[..|taken| - 1], at, p);
    }
  }

  /** The four ways a call can treat game `g`; everything below rests on this frame. */
  lemma RowStep(t: Table, e: Event, g: string)
    ensures Grants(t, e, g) ==>
              g in t && Eligible(t[g], e.at) && 1 <= e.seconds <= 3600 &&
              Lookup(Apply(t, e), g) == Some(Lease(t[g], e.at, e.seconds, e.token))
    ensures Finishes(t, e, g) ==>
              Holds(t, g, e.token, e.at) &&
              Lookup(Apply(t, e), g) == Some(Close(t[g], e.at, e.version, e.error, e.failure, e.retry))
    ensures forall p :: Writes(t, e, p) && p.gameId == g ==>
              Lookup(Apply(t, e), g) == Some(Merge(Lookup(t, g), p, e.at))
    ensures !Grants(t, e, g) && !Finishes(t, e, g) && !(exists p :: Writes(t, e, p) && p.gameId == g) ==>
              Lookup(Apply(t, e), g) == Lookup(t, g)
  {
    if e.Reconcile? && Admit(t, e.polls, e.directory, e.at).Admitted? {
      var taken := Admit(t, e.polls, e.directory, e.at).polls;
      PostgameQueue.AdmittedAreDistinct(t, e.polls, e.directory, e.at);
      if p :| p in taken && p.gameId == g {
        assert Writes(t, e, p);
        UpsertsAt(t, taken, e.at, p);
        forall q | q in taken && q.gameId == g
          ensures q == p
        {
        }
      } else {
        assert forall p <- taken :: Writes(t, e, p);
        PostgameQueue.UpsertsLookup(t, taken, e.at, g);
      }
    }
  }

  // ---- lease exclusion ----

  ghost predicate GrantsAt(es: seq<Event>, i: nat, g: string) {
    i < |es| && Grants(After(es, i), es[i], g)
  }

  ghost predicate FinishesAt(es: seq<Event>, k: nat, g: string) {
    k < |es| && Finishes(After(es, k), es[k], g)
  }

  ghost predicate NoGrantBetween(es: seq<Event>, i: nat, n: nat, g: string) {
    forall m: nat :: i < m < n ==> !GrantsAt(es, m, g)
  }

  /** The finish, strictly between calls `i` and `n`, that presented grant `i`'s token. */
  ghost predicate FinishedBetween(es: seq<Event>, i: nat, n: nat, g: string)
    requires i < |es| && es[i].Claim?
  {
    exists k: nat :: i < k < n && FinishesAt(es, k, g) && es[k].token == es[i].token
  }

  function Expiry(e: Event): int
    requires e.Claim?
  {
    e.at + e.seconds
  }

  predicate Leased(t: Table, g: string, token: string, until: int) {
    g in t && t[g].token == Some(token) && t[g].leaseUntil == Some(until)
  }

  lemma LeaseWritten(t: Table, e: Event, g: string)
    requires Grants(t, e, g)
    ensures Leased(Apply(t, e), g, e.token, Expiry(e))
  {
    RowStep(t, e, g);
  }

  lemma LeaseStep(t: Table, e: Event, g: string, token: string, until: int)
    requires Leased(t, g, token, until) && !Grants(t, e, g) && !(Finishes(t, e, g) && e.token == token)
    ensures Leased(Apply(t, e), g, token, until)
  {
    RowStep(t, e, g);
  }

  /** A grant's lease stays in the row until that grant is finished or another is made. */
  lemma {:induction false} LeaseStands(es: seq<Event>, i: nat, n: nat, g: string)
    requires i < n <= |es| && GrantsAt(es, i, g)
    requires NoGrantBetween(es, i, n, g) && !FinishedBetween(es, i, n, g)
    ensures Leased(After(es, n), g, es[i].token, Expiry(es[i]))
  {
    if i == n - 1 {
      LeaseWritten(After(es, i), es[i], g);
    } else {
      LeaseStands(es, i, n - 1, g);
      assert !GrantsAt(es, n - 1, g);
      LeaseStep(After(es, n - 1), es[n - 1], g, es[i].token, Expiry(es[i]));
    }
  }

  /** Two consecutive grants of a game, whatever the clocks of the calls do. */
  lemma LeaseExclusion(es: seq<Event>, i: nat, j: nat, g: string)
    requires i < j && GrantsAt(es, i, g) && GrantsAt(es, j, g) && NoGrantBetween(es, i, j, g)
    ensures FinishedBetween(es, i, j, g) || es[j].at >= Expiry(es[i])
  {
    RowStep(After(es, j), es[j], g);
    if !FinishedBetween(es, i, j, g) {
      LeaseStands(es, i, j, g);
    }
  }

  /** No claim reads a clock from before an expiry that an earlier claim's clock had reached. A clock that never runs
      backwards has no such relapse. */
  predicate NoRelapse(es: seq<Event>) {
    forall i, m, j :: 0 <= i < m < j < |es| && es[i].Claim? && es[m].Claim? && es[j].Claim? ==>
      (Expiry(es[i]) <= es[m].at ==> Expiry(es[i]) <= es[j].at)
  }

  /** The first grant after another, when there is one before `j`. */
  lemma {:induction false} NextGrant(es: seq<Event>, i: nat, j: nat, g: string) returns (m: nat)
    requires i < j && GrantsAt(es, j, g)
    ensures i < m <= j && GrantsAt(es, m, g) && NoGrantBetween(es, i, m, g)
    decreases j
  {
    m := j;
    if k: nat :| i < k < j && GrantsAt(es, k, g) {
      m := NextGrant(es, i, k, g);
    }
  }

  /** The next grant comes after this one's expiry or after its finish. */
  lemma NextExcluded(es: seq<Event>, i: nat, j: nat, g: string) returns (m: nat)
    requires i < j && GrantsAt(es, i, g) && GrantsAt(es, j, g)
    ensures i < m <= j && es[i].Claim? && es[m].Claim? && es[j].Claim?
    ensures FinishedBetween(es, i, j, g) || es[m].at >= Expiry(es[i])
  {
    m := NextGrant(es, i, j, g);
    LeaseExclusion(es, i, m, g);
  }

  /** Any two grants of a game, when the claim clocks do not relapse. */
  lemma LeaseExclusionAnyPair(es: seq<Event>, i: nat, j: nat, g: string)
    requires i < j && GrantsAt(es, i, g) && GrantsAt(es, j, g) && NoRelapse(es)
    ensures FinishedBetween(es, i, j, g) || es[j].at >= Expiry(es[i])
  {
    var m := NextExcluded(es, i, j, g);
    StillExpired(es, i, m, j, FinishedBetween(es, i, j, g));
  }

  lemma StillExpired(es: seq<Event>, i: nat, m: nat, j: nat, finished: bool)
    requires NoRelapse(es) && i < m <= j < |es| && es[i].Claim? && es[m].Claim? && es[j].Claim?
    requires finished || es[m].at >= Expiry(es[i])
    ensures finished || es[j].at >= Expiry(es[i])
  {
  }

  /** A lease still running and never finished, the next grant, and a later grant before the lease expires. */
  ghost predicate Overtaken(es: seq<Event>, i: nat, m: nat, j: nat, g: string) {
    && i < m < j && GrantsAt(es, i, g) && GrantsAt(es, m, g) && GrantsAt(es, j, g) && NoGrantBetween(es, i, m, g)
    && !FinishedBetween(es, i, j, g) && es[j].at < Expiry(es[i])
  }

  function FirstSight(at: int): Poll {
    Poll("g", 1, at, "s", Final, [Participant("h", "1"), Participant("a", "2")])
  }

  const TEAMS: Directory := map[("h", 1) := Listing("1", "FBS"), ("a", 1) := Listing("2", "FCS")]

  /** A game that is final when `a` claims it; `b` claims it and finishes by a clock just before `c` claims. */
  function OvertakenRun(a: Event, b: Event, c: Event): seq<Event>
    requires b.Claim?
  {
    [Reconcile([FirstSight(a.at)], TEAMS, a.at), a, b, Finish("g", b.token, c.at - 1, Some("v"), None, None, 1), c]
  }

  /** Three claims can end up that way exactly when the last one's clock is behind an expiry the second one's had
      reached. */
  lemma OvertakenExactlyWhen(a: Event, b: Event, c: Event)
    requires a.Claim? && b.Claim? && c.Claim? && a.token != b.token
    requires 1 <= a.seconds <= 3600 && 1 <= b.seconds <= 3600 && 1 <= c.seconds <= 3600
    ensures (exists es, i, m, j, g :: Overtaken(es, i, m, j, g) && es[i] == a && es[m] == b && es[j] == c)
            <==> c.at < Expiry(a) <= b.at
  {
    forall es, i, m, j, g | Overtaken(es, i, m, j, g) && es[i] == a && es[m] == b && es[j] == c
      ensures Expiry(a) <= b.at
    {
      LeaseExclusion(es, i, m, g);
    }
    if c.at < Expiry(a) <= b.at {
      RelapseOvertakes(a, b, c);
    }
  }

  lemma RelapseOvertakes(a: Event, b: Event, c: Event)
    requires a.Claim? && b.Claim? && c.Claim? && a.token != b.token
    requires 1 <= a.seconds <= 3600 && 1 <= b.seconds <= 3600 && 1 <= c.seconds <= 3600
    requires c.at < Expiry(a) <= b.at
    ensures Overtaken(OvertakenRun(a, b, c), 1, 2, 4, "g")
  {
    ThreeGrants(a, b, c);
  }

  /** The game's row after the poll, the first claim, the second claim and the finish. */
  function FirstRow(a: Event): Row { Merge(None, FirstSight(a.at), a.at) }
  function LeasedRow(a: Event): Row
    requires a.Claim?
  {
    Lease(FirstRow(a), a.at, a.seconds, a.token)
  }
  function AgainLeasedRow(a: Event, b: Event): Row
    requires a.Claim? && b.Claim?
  {
    Lease(LeasedRow(a), b.at, b.seconds, b.token)
  }
  function FinishedRow(a: Event, b: Event, c: Event): Row
    requires a.Claim? && b.Claim?
  {
    Close(AgainLeasedRow(a, b), c.at - 1, Some("v"), None, None, 1)
  }

  predicate Bounded(e: Event) {
    e.Claim? && 1 <= e.seconds <= 3600
  }

  lemma OvertakenTables(es: seq<Event>, a: Event, b: Event, f: Event)
    requires Bounded(a) && Bounded(b) && Expiry(a) <= b.at && |es| >= 4
    requires es[0] == Reconcile([FirstSight(a.at)], TEAMS, a.at) && es[1] == a && es[2] == b && es[3] == f
    requires Finishes(map["g" := AgainLeasedRow(a, b)], f, "g")
    ensures After(es, 1) == map["g" := FirstRow(a)] && After(es, 2) == map["g" := LeasedRow(a)]
    ensures After(es, 4) ==
            map["g" := Close(AgainLeasedRow(a, b), f.at, f.version, f.error, f.failure, f.retry)]
  {
    FourSteps(es);
    SolePoll(a.at);
    SoleGrant(FirstRow(a), a);
    SoleGrant(LeasedRow(a), b);
    SoleFinish(AgainLeasedRow(a, b), f);
  }

  lemma ThreeGrants(a: Event, b: Event, c: Event)
    requires Bounded(a) && Bounded(b) && Bounded(c) && c.at < Expiry(a) <= b.at
    ensures var es := OvertakenRun(a, b, c); GrantsAt(es, 1, "g") && GrantsAt(es, 2, "g") && GrantsAt(es, 4, "g")
  {
    var es := OvertakenRun(a, b, c);
    OvertakenTables(es, a, b, es[3]);
    SoleGrant(FirstRow(a), a);
    SoleGrant(LeasedRow(a), b);
    SoleGrant(FinishedRow(a, b, c), c);
  }

  lemma FourSteps(es: seq<Event>)
    requires |es| >= 4
    ensures After(es, 1) == Apply(map[], es[0]) && After(es, 2) == Apply(After(es, 1), es[1])
    ensures After(es, 3) == Apply(After(es, 2), es[2]) && After(es, 4) == Apply(After(es, 3), es[3])
  {
    assert After(es, 0) == map[];
  }

  lemma SoleScreened(at: int)
    ensures Screen(None, FirstSight(at), TEAMS, at) == Taken
  {
    var p := FirstSight(at);
    assert p.teams[0] in p.teams;
  }

  /** One poll that is taken, on a new queue. */
  lemma SoleTaken(p: Poll, directory: Directory, at: int)
    requires p.gameId != "" && Screen(None, p, directory, at) == Taken
    ensures Apply(map[], Reconcile([p], directory, at)) == map[p.gameId := Merge(None, p, at)]
  {
    var polls, none: Table := [p], map[];
    assert polls[..0] == [] && Admit(none, [], directory, at) == Admitted([]);
    assert Admit(none, polls, directory, at) == Admitted([] + [p]);
    assert [] + [p] == polls;
    assert Upserts(none, polls, at) == none[p.gameId := Merge(None, p, at)];
  }

  lemma SolePoll(at: int)
    ensures Apply(map[], Reconcile([FirstSight(at)], TEAMS, at)) == map["g" := Merge(None, FirstSight(at), at)]
  {
    SoleScreened(at);
    SoleTaken(FirstSight(at), TEAMS, at);
  }

  lemma SoleFinish(row: Row, e: Event)
    requires Finishes(map["g" := row], e, "g")
    ensures Apply(map["g" := row], e) == map["g" := Close(row, e.at, e.version, e.error, e.failure, e.retry)]
  {
  }

  lemma SoleGrant(row: Row, e: Event)
    requires e.Claim? && 1 <= e.seconds <= 3600 && Eligible(row, e.at)
    ensures Grants(map["g" := row], e, "g")
    ensures Apply(map["g" := row], e) == map["g" := Lease(row, e.at, e.seconds, e.token)]
  {
    var t := map["g" := row];
    assert IsFirst(t, EligibleIds(t, e.at), "g");
    ClaimDetermined(t, e.at, e.seconds, e.token, t["g" := Lease(row, e.at, e.seconds, e.token)],
                    Granted(Grant("g", e.token, e.at + e.seconds, row.verified)));
  }

  // ---- finishing and revocation ----

  /** uuid4: no two claims are handed the same token. */
  predicate FreshTokens(es: seq<Event>) {
    forall i, j :: 0 <= i < j < |es| && es[i].Claim? && es[j].Claim? ==> es[i].token != es[j].token
  }

  /** The row still honours this token: the state, not only the token column, says so. */
  predicate Live(t: Table, g: string, token: string) {
    g in t && t[g].status == Final && t[g].state == Validating && t[g].token == Some(token)
  }

  lemma DeadStaysDead(t: Table, e: Event, g: string, token: string)
    requires !Live(t, g, token)
    requires !(Grants(t, e, g) && e.token == token)
    ensures !Live(Apply(t, e), g, token)
  {
    RowStep(t, e, g);
  }

  lemma {:induction false} StaysDead(es: seq<Event>, i: nat, m: nat, n: nat, g: string)
    requires FreshTokens(es) && i < m <= n <= |es| && GrantsAt(es, i, g)
    requires !Live(After(es, m), g, es[i].token)
    ensures !Live(After(es, n), g, es[i].token)
  {
    if m < n {
      StaysDead(es, i, m, n - 1, g);
      DeadStaysDead(After(es, n - 1), es[n - 1], g, es[i].token);
    }
  }

  /** Once a grant's token is dead it can never finish the game again. */
  lemma RevokedForGood(es: seq<Event>, i: nat, m: nat, k: nat, g: string)
    requires FreshTokens(es) && i < m <= k < |es| && GrantsAt(es, i, g)
    requires !Live(After(es, m), g, es[i].token)
    ensures !Live(After(es, k), g, es[i].token)
    ensures !(FinishesAt(es, k, g) && es[k].token == es[i].token)
  {
    StaysDead(es, i, m, k, g);
  }

  /** A poll that un-finals a leased game revokes the lease, even if the game becomes final again. */
  lemma UnfinalRevokes(es: seq<Event>, i: nat, m: nat, k: nat, g: string)
    requires FreshTokens(es) && i < m <= k < |es| && GrantsAt(es, i, g)
    requires g in After(es, m) && After(es, m)[g].status != Final
    ensures !(FinishesAt(es, k, g) && es[k].token == es[i].token)
  {
    RevokedForGood(es, i, m, k, g);
  }

  /** A grant finishes at most once. */
  lemma FinishOnce(es: seq<Event>, k: nat, l: nat, g: string)
    requires FreshTokens(es) && k < l && FinishesAt(es, k, g) && FinishesAt(es, l, g)
    ensures es[k].token != es[l].token
  {
    var i := FinishNeedsLatestGrant(es, k, g);
    DeadAfterFinish(es, k, g);
    RevokedForGood(es, i, k + 1, l, g);
  }

  lemma DeadAfterFinish(es: seq<Event>, k: nat, g: string)
    requires FinishesAt(es, k, g)
    ensures !Live(After(es, k + 1), g, es[k].token)
  {
    FinishKills(After(es, k), es[k], g);
  }

  lemma FinishKills(t: Table, e: Event, g: string)
    requires Finishes(t, e, g)
    ensures !Live(Apply(t, e), g, e.token)
  {
    RowStep(t, e, g);
  }

  /** The row's lease columns are those grant `i` wrote. */
  ghost predicate LeasedBy(es: seq<Event>, i: nat, n: nat, g: string, t: Table) {
    i < n && GrantsAt(es, i, g) && NoGrantBetween(es, i, n, g) && Leased(t, g, es[i].token, Expiry(es[i]))
  }

  /** The token column always names the latest grant, and the lease column its expiry. */
  lemma {:induction false} TokenNamesLatestGrant(es: seq<Event>, n: nat, g: string) returns (i: nat)
    requires n <= |es| && g in After(es, n) && After(es, n)[g].token.Some?
    ensures LeasedBy(es, i, n, g, After(es, n))
  {
    if GrantsAt(es, n - 1, g) {
      i := n - 1;
      LeaseWritten(After(es, n - 1), es[n - 1], g);
    } else {
      TokenKept(After(es, n - 1), es[n - 1], g);
      i := TokenNamesLatestGrant(es, n - 1, g);
      OneMoreWithoutGrant(es, i, n, g);
    }
  }

  lemma OneMoreWithoutGrant(es: seq<Event>, i: nat, n: nat, g: string)
    requires 0 < n && NoGrantBetween(es, i, n - 1, g) && !GrantsAt(es, n - 1, g)
    ensures NoGrantBetween(es, i, n, g)
  {
  }

  lemma TokenKept(t: Table, e: Event, g: string)
    requires !Grants(t, e, g) && g in Apply(t, e) && Apply(t, e)[g].token.Some?
    ensures g in t && Apply(t, e)[g].token == t[g].token && Apply(t, e)[g].leaseUntil == t[g].leaseUntil
  {
    RowStep(t, e, g);
  }

  /** A finish that succeeds presents the latest grant's token before its expiry, with the game final ever since. */
  lemma FinishNeedsLatestGrant(es: seq<Event>, k: nat, g: string) returns (i: nat)
    requires FreshTokens(es) && FinishesAt(es, k, g)
    ensures i < k && GrantsAt(es, i, g) && NoGrantBetween(es, i, k, g)
    ensures es[k].token == es[i].token && es[k].at < Expiry(es[i])
    ensures forall m: nat :: i < m <= k ==> g in After(es, m) && After(es, m)[g].status == Final
  {
    RowStep(After(es, k), es[k], g);
    i := TokenNamesLatestGrant(es, k, g);
    forall m: nat | i < m <= k
      ensures g in After(es, m) && After(es, m)[g].status == Final
    {
      if !Live(After(es, m), g, es[i].token) {
        RevokedForGood(es, i, m, k, g);
      }
    }
  }

  /** Every grant of a game is one of its attempts. */
  ghost function GrantCount(es: seq<Event>, n: nat, g: string): nat
    requires n <= |es|
  {
    if n == 0 then 0 else GrantCount(es, n - 1, g) + if GrantsAt(es, n - 1, g) then 1 else 0
  }

  lemma {:induction false} AttemptsCountGrants(es: seq<Event>, n: nat, g: string)
    requires n <= |es|
    ensures GrantCount(es, n, g) == if g in After(es, n) then After(es, n)[g].attempts else 0
  {
    if n > 0 {
      AttemptsCountGrants(es, n - 1, g);
      RowStep(After(es, n - 1), es[n - 1], g);
    }
  }

  // ---- the verified version ----

  /** No row is deleted, and only a successful finish that carries a version changes the verified one. */
  lemma VerifiedStep(t: Table, e: Event, g: string)
    requires g in t
    ensures g in Apply(t, e)
    ensures Apply(t, e)[g].verified != t[g].verified ==>
              Finishes(t, e, g) && e.version.Some? && Apply(t, e)[g].verified == e.version
    ensures t[g].verified.Some? ==> Apply(t, e)[g].verified.Some?
  {
    RowStep(t, e, g);
  }

  lemma {:induction false} VerifiedNeverNull(es: seq<Event>, m: nat, n: nat, g: string)
    requires m <= n <= |es| && g in After(es, m) && After(es, m)[g].verified.Some?
    ensures g in After(es, n) && After(es, n)[g].verified.Some?
  {
    if m < n {
      VerifiedNeverNull(es, m, n - 1, g);
      VerifiedStep(After(es, n - 1), es[n - 1], g);
    }
  }

  /** It can still become empty, exactly by a call with an empty version, a failure state, a bounded delay and the
      live lease: the branch on the version takes the empty text for none, and COALESCE stores it as a version. */
  lemma VerifiedLostExactlyWhen(t: Table, e: Event, g: string)
    requires g in t && Truthy(t[g].verified)
    ensures g in Apply(t, e)
    ensures !Truthy(Apply(t, e)[g].verified) <==>
            && e.Finish? && e.gameId == g && e.version == Some("")
            && 1 <= e.retry <= 86400 && Holds(t, g, e.token, e.at) && FailureState(e.failure)
  {
    VerifiedStep(t, e, g);
    RowStep(t, e, g);
  }

  /** A game is polled, claimed, verified, claimed again, and closed with an empty version and a failure. */
  function ErasingRun(version: string): seq<Event> {
    [Reconcile([FirstSight(0)], TEAMS, 0), Claim(0, 300, "x"), Finish("g", "x", 1, Some(version), None, None, 1),
     Claim(2, 300, "y"), Finish("g", "y", 3, Some(""), Some("timeout"), Some(RetryPending), 900)]
  }

  lemma EmptyVersionErasesVerification(version: string)
    requires version != ""
    ensures var es := ErasingRun(version);
            && "g" in After(es, 4) && After(es, 4)["g"].verified == Some(version)
            && FinishesAt(es, 4, "g") && "g" in After(es, 5) && After(es, 5)["g"].verified == Some("")
  {
    var es := ErasingRun(version);
    var r0 := Merge(None, FirstSight(0), 0);
    var r1 := Lease(r0, 0, 300, "x");
    var r2 := Close(r1, 1, Some(version), None, None, 1);
    var r3 := Lease(r2, 2, 300, "y");
    SolePoll(0);
    SoleGrant(r0, es[1]);
    SoleFinish(r1, es[2]);
    SoleGrant(r2, es[3]);
    SoleFinish(r3, es[4]);
    FourSteps(es);
  }

  // ---- no final game is lost ----

  predicate RowSound(row: Row) {
    && (row.token.Some? <==> row.leaseUntil.Some?)
    && (row.status == Final ==>
          if row.state == Quarantined then row.due.None?
          else row.due.Some? && Claimable(row.state) && (row.state == Validating ==> row.token.Some?))
    && (row.status != Final ==>
          row.due.None? && row.state == if Truthy(row.verified) then Quarantined else Reported(row.status))
    && !row.status.Unrecognized?
  }

  lemma {:induction false} AdmittedAreRecognized(t: Table, polls: seq<Poll>, directory: Directory, at: int)
    requires Admit(t, polls, directory, at).Admitted?
    ensures forall p <- Admit(t, polls, directory, at).polls ::
              !p.status.Unrecognized? && Screen(Lookup(t, p.gameId), p, directory, at) == Taken
  {
    if polls != [] {
      AdmittedAreRecognized(t, polls[..|polls| - 1], directory, at);
    }
  }

  lemma StepSound(t: Table, e: Event, g: string)
    requires g in t ==> RowSound(t[g])
    ensures g in Apply(t, e) ==> RowSound(Apply(t, e)[g])
  {
    RowStep(t, e, g);
    if p :| Writes(t, e, p) && p.gameId == g {
      AdmittedAreRecognized(t, e.polls, e.directory, e.at);
    }
  }

  /** Every reachable row: non-final games are idle, a reversed verified result is quarantined, and a final game is
      quarantined or waits, with a due time, in a state `claim` accepts. */
  lemma {:induction false} ReachableSound(es: seq<Event>, n: nat, g: string)
    requires n <= |es| && g in After(es, n)
    ensures RowSound(After(es, n)[g])
  {
    if n > 0 {
      if g in After(es, n - 1) {
        ReachableSound(es, n - 1, g);
      }
      StepSound(After(es, n - 1), es[n - 1], g);
    }
  }

  function DueFrom(row: Row): int
    requires row.due.Some?
  {
    if row.leaseUntil.Some? && row.leaseUntil.value > row.due.value then row.leaseUntil.value else row.due.value
  }

  /** A final game that is not quarantined qualifies exactly from the later of its due time and lease expiry on. */
  lemma FinalGameNotLost(es: seq<Event>, n: nat, g: string, at: int)
    requires n <= |es| && g in After(es, n)
    ensures var row := After(es, n)[g];
            if row.status == Final && row.state != Quarantined
            then row.due.Some? && (Eligible(row, at) <==> DueFrom(row) <= at)
            else !Eligible(row, at)
  {
    ReachableSound(es, n, g);
  }

  // ---- draining the queue at one clock ----

  /** The games granted by claiming again and again at the same clock. */
  ghost function Drain(t: Table, at: int, seconds: int, tokens: seq<string>): seq<string> {
    if tokens == [] then []
    else
      var (t', reply) := Claimed(t, at, seconds, tokens[0]);
      if reply.Granted? then [reply.grant.gameId] + Drain(t', at, seconds, tokens[1..]) else []
  }

  /** Enough claims grant every eligible game once, in (due, game id) order, and the next one grants nothing. */
  lemma {:induction false} DrainGrantsAllOnce(t: Table, at: int, seconds: int, tokens: seq<string>)
    requires 1 <= seconds <= 3600 && |tokens| > |EligibleIds(t, at)|
    ensures var d := Drain(t, at, seconds, tokens);
            && |d| == |EligibleIds(t, at)|
            && (forall g :: g in d <==> g in EligibleIds(t, at))
            && (forall i, j :: 0 <= i < j < |d| ==> Precedes(t, d[i], d[j]))
    decreases |tokens|
  {
    var ids := EligibleIds(t, at);
    if ids != {} {
      var (t', reply) := Claimed(t, at, seconds, tokens[0]);
      var g := reply.grant.gameId;
      GrantTakesOne(t, at, seconds, tokens[0]);
      DrainGrantsAllOnce(t', at, seconds, tokens[1..]);
      FirstThenRest(t, t', g, Drain(t', at, seconds, tokens[1..]));
    }
  }

  /** A grant makes its game, and no other, ineligible at the same clock. */
  lemma GrantTakesOne(t: Table, at: int, seconds: int, token: string)
    requires 1 <= seconds <= 3600 && EligibleIds(t, at) != {}
    ensures var (t', reply) := Claimed(t, at, seconds, token);
            && reply.Granted? && reply.grant.gameId in EligibleIds(t, at)
            && EligibleIds(t', at) == EligibleIds(t, at) - {reply.grant.gameId}
            && (forall h <- EligibleIds(t', at) :: Precedes(t, reply.grant.gameId, h))
            && forall h <- EligibleIds(t', at) :: h in t && t'[h] == t[h]
  {
  }

  lemma FirstThenRest(t: Table, t': Table, g: string, rest: seq<string>)
    requires forall h <- rest :: Precedes(t, g, h) && h in t && h in t' && t'[h] == t[h]
    requires forall i, j :: 0 <= i < j < |rest| ==> Precedes(t', rest[i], rest[j])
    ensures forall i, j :: 0 <= i < j < |[g] + rest| ==> Precedes(t, ([g] + rest)[i], ([g] + rest)[j])
  {
    forall i, j | 0 <= i < j < |[g] + rest|
      ensures Precedes(t, ([g] + rest)[i], ([g] + rest)[j])
    {
      assert rest[j - 1] in rest;
      if i > 0 {
        assert rest[i - 1] in rest;
        assert Precedes(t', rest[i - 1], rest[j - 1]);
      }
    }
  }
}
