/** The ledger's calls told by the fields of payloads and rows alone: when a payload is accepted, and what follows. */
module LedgerFacts {
  import opened Aggregates
  import opened Cards
  import opened Directories
  import opened Games
  import opened LedgerRuns
  import opened LedgerStore
  import opened Wrappers

  // ---- payloads ----

  predicate WithinRange(m: Metrics, made: string, attempts: string) {
    made in m && attempts in m ==>
      match (m[made], m[attempts])
      case (Whole(a), Whole(b)) => 0 <= a <= b
      case (Whole(a), Decimal(y)) => 0 <= a && a as real <= y
      case (Decimal(x), Whole(b)) => 0.0 <= x <= b as real
      case (Decimal(x), Decimal(y)) => 0.0 <= x <= y
      case _ => true
  }

  /** Numbers or nothing, and no more completions, conversions and goals than attempts. */
  predicate PlainMetrics(m: Metrics) {
    && (forall key <- m :: m[key] != NotANumber)
    && WithinRange(m, "completions", "pass_attempts") && WithinRange(m, "third_conversions", "third_attempts")
    && WithinRange(m, "fourth_conversions", "fourth_attempts") && WithinRange(m, "field_goals", "field_goal_attempts")
  }

  predicate PlainPlayer(p: Player, team: string, c: Content, memberships: Memberships) {
    && p.participated && (p.id, team, c.season) in memberships
    && (exists s <- memberships[(p.id, team, c.season)] ::
          s.providerId == p.providerId && s.from <= c.gameAt.at && c.gameAt.at < s.to)
  }

  predicate PlainPlayers(t: Team, c: Content, memberships: Memberships) {
    && (forall i, j :: 0 <= i < j < |t.players| ==> t.players[i].id != t.players[j].id)
    && (forall p <- t.players :: PlainPlayer(p, t.id, c, memberships))
  }

  /** The team is listed under its provider id, and its points are the score given for its side. */
  predicate PlainScore(t: Team, score: int, c: Content, directory: Directory) {
    && (t.id, c.season) in directory && directory[(t.id, c.season)].providerId == t.providerId
    && "points" in t.metrics && t.metrics["points"] == Whole(score) && score >= 0
  }

  predicate PlainTeam(t: Team, score: int, c: Content, directory: Directory, memberships: Memberships) {
    && PlainScore(t, score, c, directory) && t.teamComplete && t.playerComplete
    && PlainPlayers(t, c, memberships) && PlainMetrics(t.metrics) && forall p <- t.players :: PlainMetrics(p.metrics)
  }

  /** Final, sourced, in order of time, of a declared class, with one home team at index `h` and one away team. */
  predicate PlainHeader(p: Payload, h: nat, at: int) {
    var c := p.content;
    && c.status == "FINAL" && c.source != "" && c.providerGameId != ""
    && c.gameAt.at < p.observed && p.observed <= at
    && (p.providerFinal.Some? ==> c.gameAt.at <= p.providerFinal.value && p.providerFinal.value <= p.observed)
    && (p.sourceAvailable.Some? ==> p.sourceAvailable.value <= p.observed)
    && (c.temporal == PostgameObserved || c.temporal == Retrospective)
    && |c.teams| == 2 && h < 2 && c.teams[0].id != c.teams[1].id
    && c.teams[h].side == "home" && c.teams[1 - h].side == "away"
  }

  predicate PlainGame(p: Payload, h: nat, directory: Directory, memberships: Memberships, at: int) {
    var c := p.content;
    && PlainHeader(p, h, at)
    && PlainTeam(c.teams[h], c.homeScore, c, directory, memberships)
    && PlainTeam(c.teams[1 - h], c.awayScore, c, directory, memberships)
    && exists i :: 0 <= i < 2 && directory[(c.teams[i].id, c.season)].classification == "FBS"
  }

  predicate PlainPayload(p: Payload, directory: Directory, memberships: Memberships, at: int) {
    PlainGame(p, 0, directory, memberships, at) || PlainGame(p, 1, directory, memberships, at)
  }

  lemma WithinByFields(m: Metrics, made: string, attempts: string)
    ensures WithinAttempts(m, made, attempts) <==> WithinRange(m, made, attempts)
  {
  }

  lemma MetricsByFields(m: Metrics)
    ensures SoundMetrics(m) <==> PlainMetrics(m)
  {
    WithinByFields(m, "completions", "pass_attempts");
    WithinByFields(m, "third_conversions", "third_attempts");
    WithinByFields(m, "fourth_conversions", "fourth_attempts");
    WithinByFields(m, "field_goals", "field_goal_attempts");
  }

  lemma PlayersByFields(t: Team, c: Content, memberships: Memberships)
    ensures SoundPlayers(t, c, memberships) <==> PlainPlayers(t, c, memberships)
  {
    forall p | p in t.players
      ensures Member(Stints(memberships, p.id, t.id, c.season), p.providerId, c.gameAt.at) && p.participated <==>
              PlainPlayer(p, t.id, c, memberships)
    {
    }
  }

  lemma TeamByFields(t: Team, score: int, c: Content, directory: Directory, memberships: Memberships)
    requires t.side == "home" ==> score == c.homeScore
    requires t.side == "away" ==> score == c.awayScore
    requires t.side == "home" || t.side == "away"
    ensures SoundTeam(t, c, directory, memberships) <==> PlainTeam(t, score, c, directory, memberships)
    ensures Identified(t, c, directory) && Reconciled(t, c) <==> PlainScore(t, score, c, directory)
  {
    PlayersByFields(t, c, memberships);
    MetricsByFields(t.metrics);
    forall p | p in t.players
      ensures SoundMetrics(p.metrics) <==> PlainMetrics(p.metrics)
    {
      MetricsByFields(p.metrics);
    }
  }

  lemma HeaderByFields(p: Payload, at: int)
    ensures SoundHeader(p, at) <==> PlainHeader(p, 0, at) || PlainHeader(p, 1, at)
    ensures !(PlainHeader(p, 0, at) && PlainHeader(p, 1, at))
  {
    var c := p.content;
    if |c.teams| == 2 {
      SidesByFields(c.teams[0].side, c.teams[1].side);
    }
  }

  lemma SidesByFields(a: string, b: string)
    ensures {a, b} == {"home", "away"} <==> (a == "home" && b == "away") || (a == "away" && b == "home")
  {
    assert "home"[0] != "away"[0];
    if {a, b} == {"home", "away"} {
      assert a in {"home", "away"} && b in {"home", "away"} && "home" in {a, b} && "away" in {a, b};
    }
  }

  lemma GameByFields(p: Payload, h: nat, directory: Directory, memberships: Memberships, at: int)
    requires PlainHeader(p, h, at)
    ensures Acceptable(p, directory, memberships, at) <==> PlainGame(p, h, directory, memberships, at)
  {
    var c := p.content;
    HeaderByFields(p, at);
    TeamByFields(c.teams[h], c.homeScore, c, directory, memberships);
    TeamByFields(c.teams[1 - h], c.awayScore, c, directory, memberships);
    assert c.teams[0] in c.teams && c.teams[1] in c.teams;
    assert forall t <- c.teams :: t == c.teams[h] || t == c.teams[1 - h];
  }

  /** A payload is accepted exactly when its fields are in order, whatever helper reads them. */
  lemma AcceptedByFields(p: Payload, directory: Directory, memberships: Memberships, at: int)
    ensures Validate(p, directory, memberships, at) == Accepted <==> PlainPayload(p, directory, memberships, at)
  {
    HeaderByFields(p, at);
    if PlainHeader(p, 0, at) {
      GameByFields(p, 0, directory, memberships, at);
    } else if PlainHeader(p, 1, at) {
      GameByFields(p, 1, directory, memberships, at);
    }
  }

  function GivenScore(t: Team, c: Content): int {
    if t.side == "away" then c.awayScore else c.homeScore
  }

  /** The team's identity and score are in order, and it is declared incomplete. */
  predicate DeclaredPartial(t: Team, c: Content, directory: Directory) {
    PlainScore(t, GivenScore(t, c), c, directory) && !(t.teamComplete && t.playerComplete)
  }

  /** A payload is partial exactly when its header is in order and the first team that is not in order is declared
      incomplete. */
  lemma PartialByFields(p: Payload, directory: Directory, memberships: Memberships, at: int)
    ensures Validate(p, directory, memberships, at) == Partial <==>
            var c := p.content;
            && (PlainHeader(p, 0, at) || PlainHeader(p, 1, at))
            && (|| DeclaredPartial(c.teams[0], c, directory)
                || (&& PlainTeam(c.teams[0], GivenScore(c.teams[0], c), c, directory, memberships)
                    && DeclaredPartial(c.teams[1], c, directory)))
  {
    HeaderByFields(p, at);
    if PlainHeader(p, 0, at) || PlainHeader(p, 1, at) {
      var c := p.content;
      TeamByFields(c.teams[0], GivenScore(c.teams[0], c), c, directory, memberships);
      TeamByFields(c.teams[1], GivenScore(c.teams[1], c), c, directory, memberships);
    }
  }

  // ---- process ----

  predicate SameMatchByFields(g: Content, c: Content) {
    && |g.teams| == 2 && |c.teams| == 2 && g.season == c.season && g.gameAt == c.gameAt
    && (|| (g.teams[0].id == c.teams[0].id && g.teams[1].id == c.teams[1].id)
        || (g.teams[0].id == c.teams[1].id && g.teams[1].id == c.teams[0].id))
  }

  /** New content that every stored version of its game precedes, of the same match. */
  predicate News(versions: seq<Version>, p: Payload) {
    forall v <- versions ::
      && v.game != p.content
      && (v.game.gameId == p.content.gameId ==> v.observed < p.observed && SameMatchByFields(v.game, p.content))
  }

  lemma MatchByFields(g: Game, c: Content)
    requires Settled(c)
    ensures SameMatch(g, c) <==> SameMatchByFields(g, c)
  {
    var a, b, x, y := g.teams[0].id, g.teams[1].id, c.teams[0].id, c.teams[1].id;
    if {a, b} == {x, y} {
      assert a in {x, y} && b in {x, y} && x in {a, b} && y in {a, b};
    }
  }

  lemma MatchesAlike(g: Game, h: Game, c: Content)
    requires Settled(c) && SameMatch(g, h) && SameMatch(h, c)
    ensures SameMatchByFields(g, c)
  {
    MatchByFields(g, c);
  }

  /** What comes after the head of its game, and is of its match, comes after every version of the game. */
  lemma NewsByHead(versions: seq<Version>, head: Option<Version>, p: Payload)
    requires Settled(p.content)
    requires if head.Some? then IsLast(versions, p.content.gameId, head.value)
             else forall v <- versions :: v.game.gameId != p.content.gameId
    ensures News(versions, p) <==>
            && !Stored(versions, p.content)
            && (head.Some? ==> head.value.observed < p.observed && SameMatch(head.value.game, p.content))
  {
    if head.Some? {
      MatchByFields(head.value.game, p.content);
    }
    if !Stored(versions, p.content) && head.Some? && head.value.observed < p.observed
       && SameMatch(head.value.game, p.content)
    {
      forall v | v in versions && v.game.gameId == p.content.gameId
        ensures v.observed < p.observed && SameMatchByFields(v.game, p.content)
      {
        if v != head.value {
          MatchesAlike(v.game, head.value.game, p.content);
        }
      }
    }
  }

  lemma JudgeAccepted(t: Tables, p: Payload, directory: Directory, memberships: Memberships, at: int)
    requires Validate(p, directory, memberships, at) == Accepted
    ensures var c := p.content; var j := Judge(t, p, directory, memberships, at);
            && (j == Repoll <==> c.gameId in t.current && t.current[c.gameId] == c)
            && (j == Fresh <==>
                  && j != Repoll && !Stored(t.versions, c)
                  && (c.gameId in t.current ==>
                        && SameMatch(t.current[c.gameId], c)
                        && var since := ObservedOf(t.versions, t.current[c.gameId]);
                           since.Some? ==> since.value < p.observed))
  {
  }

  /** In a reachable state the judgement that follows acceptance is about all stored versions. */
  lemma JudgedByFields(t: Tables, p: Payload, directory: Directory, memberships: Memberships, at: int)
    requires Coherent(t) && Validate(p, directory, memberships, at) == Accepted
    ensures var c := p.content; var j := Judge(t, p, directory, memberships, at);
            && (j == Repoll <==> c.gameId in t.current && t.current[c.gameId] == c)
            && (j == Fresh <==> News(t.versions, p))
  {
    JudgeAccepted(t, p, directory, memberships, at);
    var head := HeadIsGreatest(t.versions, p.content.gameId);
    NewsByHead(t.versions, head, p);
    if head.Some? {
      ObservedOfVersion(t.versions, head.value);
    }
  }

  predicate Fails(failAt: Option<nat>) {
    failAt == Some(0) || failAt == Some(1)
  }

  /** The job of the payload's game after the call; no other job changes. */
  predicate JobAfter(before: map<string, Job>, after: map<string, Job>, id: string, state: JobState, notes: nat,
                     failed: bool, at: int)
  {
    && after.Keys == before.Keys + {id} && (forall other <- before :: other != id ==> after[other] == before[other])
    && after[id].state == state && after[id].updated == at && (after[id].fault.Some? <==> failed)
    && after[id].attempts == notes + if id in before then before[id].attempts else 0
  }

  /** The payload is the current content of its game. */
  predicate Again(t: Tables, c: Content) {
    c.gameId in t.current && t.current[c.gameId] == c
  }

  /** The judgement in plain terms. */
  predicate Judged(j: Judgement, t: Tables, p: Payload, plain: bool) {
    if plain then (j == Repoll <==> Again(t, p.content)) && (j == Fresh <==> News(t.versions, p)) else j.Refuse?
  }

  lemma ReachableJudged(calls: seq<Call>, n: nat, p: Payload, directory: Directory, memberships: Memberships, at: int)
    requires n <= |calls|
    ensures var t := After(calls, n).tables;
            Judged(Judge(t, p, directory, memberships, at), t, p, PlainPayload(p, directory, memberships, at))
  {
    ReachableCoherent(calls, n);
    AcceptedByFields(p, directory, memberships, at);
    if PlainPayload(p, directory, memberships, at) {
      JudgedByFields(After(calls, n).tables, p, directory, memberships, at);
    }
  }

  function ThreeNotices(c: Game): seq<Notice> {
    [Notice(CacheInvalidation, c, c.gameId, [c.teams[0].id, c.teams[1].id]),
     Notice(ModelStateResearchRefresh, c, c.gameId, [c.teams[0].id, c.teams[1].id]),
     Notice(DependentRatingsRecompute, c, c.gameId, [c.teams[0].id, c.teams[1].id])]
  }

  /** What the call made of a judgement. */
  predicate ProcessTells(s: Store, s': Store, out: Outcome, p: Payload, at: int, again: bool, commits: bool) {
    var c, t, t' := p.content, s.tables, s'.tables;
    && s'.raw == s.raw + {p} && s'.snapshots == s.snapshots
    && (out.Returned? <==> again || commits) && (out.Returned? ==> out.version == c)
    && (if commits then
          && Settled(c) && t'.versions == t.versions + [Version(c, p.observed, p, at)]
          && t'.current == t.current[c.gameId := c] && t'.outbox == t.outbox + ThreeNotices(c)
        else t' == t)
  }

  lemma ProcessOfJudgement(s: Store, p: Payload, directory: Directory, memberships: Memberships, at: int,
                           failAt: Option<nat>)
    ensures var (s', out) := Process(s, p, directory, memberships, at, failAt);
            var j := Judge(s.tables, p, directory, memberships, at);
            ProcessTells(s, s', out, p, at, j == Repoll, j == Fresh && !Fails(failAt))
  {
  }

  /** The answer of `process` and what it does to evidence and tables, cards apart, in every reachable state: the
      payload is returned when it is in order and either current already or news, and committed when it is news. */
  lemma ProcessByFields(calls: seq<Call>, n: nat, p: Payload, directory: Directory, memberships: Memberships, at: int,
                        failAt: Option<nat>)
    requires n <= |calls|
    ensures var s := After(calls, n); var (s', out) := Process(s, p, directory, memberships, at, failAt);
            var plain := PlainPayload(p, directory, memberships, at);
            ProcessTells(s, s', out, p, at, plain && Again(s.tables, p.content),
                         plain && News(s.tables.versions, p) && !Fails(failAt))
  {
    ReachableJudged(calls, n, p, directory, memberships, at);
    ProcessOfJudgement(After(calls, n), p, directory, memberships, at, failAt);
  }

  lemma NotedTwice(jobs: map<string, Job>, id: string, state: JobState, at: int, fault: Option<Fault>)
    ensures JobAfter(jobs, Note(Note(jobs, id, Validating, at, None), id, state, at, fault), id, state, 2,
                     fault.Some?, at)
  {
  }

  lemma NotedAndClosed(jobs: map<string, Job>, id: string, state: JobState, at: int)
    ensures JobAfter(jobs, LedgerStore.Close(Note(jobs, id, Validating, at, None), id, state, at), id, state, 1,
                     false, at)
  {
  }

  /** What a judgement makes of the job. */
  lemma JobsOfJudgement(jobs: map<string, Job>, id: string, corrects: bool, j: Judgement, at: int, failAt: Option<nat>)
    ensures var jobs' := NextJobs(Note(jobs, id, Validating, at, None), id, corrects, j, at, failAt);
            match j
            case Refuse(fault) => JobAfter(jobs, jobs', id, StateAfter(fault), 2, true, at)
            case Repoll => JobAfter(jobs, jobs', id, Verified, 2, false, at)
            case Fresh =>
              if Fails(failAt) then JobAfter(jobs, jobs', id, RetryPending, 2, true, at)
              else JobAfter(jobs, jobs', id, if corrects then Corrected else Verified, 1, false, at)
  {
    match j {
      case Refuse(fault) => NotedTwice(jobs, id, StateAfter(fault), at, Some(fault));
      case Repoll => NotedTwice(jobs, id, Verified, at, None);
      case Fresh =>
        NotedTwice(jobs, id, RetryPending, at, Some(Injected));
        NotedAndClosed(jobs, id, if corrects then Corrected else Verified, at);
    }
  }

  lemma JudgeNotAccepted(t: Tables, p: Payload, directory: Directory, memberships: Memberships, at: int)
    ensures var j := Judge(t, p, directory, memberships, at);
            j.Refuse? ==> (StateAfter(j.fault) == PartialSource <==> Validate(p, directory, memberships, at) == Partial)
                          && (StateAfter(j.fault) == PartialSource || StateAfter(j.fault) == Quarantined)
  {
  }

  /** And to the jobs: one more note for a commit, two for everything else. */
  lemma JobsByFields(calls: seq<Call>, n: nat, p: Payload, directory: Directory, memberships: Memberships, at: int,
                     failAt: Option<nat>)
    requires n <= |calls|
    ensures var s := After(calls, n); var (s', out) := Process(s, p, directory, memberships, at, failAt);
            var c, t := p.content, s.tables;
            if out.Returned? && !Again(t, c) then
              JobAfter(s.jobs, s'.jobs, c.gameId, if c.gameId in t.current then Corrected else Verified, 1, false, at)
            else if out.Returned? then JobAfter(s.jobs, s'.jobs, c.gameId, Verified, 2, false, at)
            else
              var state := if Validate(p, directory, memberships, at) == Partial then PartialSource
                           else if PlainPayload(p, directory, memberships, at) && News(t.versions, p) then RetryPending
                           else Quarantined;
              JobAfter(s.jobs, s'.jobs, c.gameId, state, 2, true, at)
  {
    var s := After(calls, n);
    var j := Judge(s.tables, p, directory, memberships, at);
    ReachableJudged(calls, n, p, directory, memberships, at);
    AcceptedByFields(p, directory, memberships, at);
    JobsOfJudgement(s.jobs, p.content.gameId, p.content.gameId in s.tables.current, j, at, failAt);
    JudgeNotAccepted(s.tables, p, directory, memberships, at);
    NotBoth(calls, n, p);
  }

  lemma NotBoth(calls: seq<Call>, n: nat, p: Payload)
    requires n <= |calls|
    ensures !(Again(After(calls, n).tables, p.content) && News(After(calls, n).tables.versions, p))
  {
    ReachableCoherent(calls, n);
    var head := HeadIsGreatest(After(calls, n).tables.versions, p.content.gameId);
  }

  /** Call `k` offers a payload in order, and the version is what a commit of it stores. */
  predicate StoredBy(calls: seq<Call>, k: nat, v: Version) {
    && k < |calls| && calls[k].ProcessCall?
    && PlainPayload(calls[k].p, calls[k].directory, calls[k].memberships, calls[k].at)
    && v == Version(calls[k].p.content, calls[k].p.observed, calls[k].p, calls[k].at)
  }

  ghost predicate StoredBefore(calls: seq<Call>, n: nat, v: Version) {
    exists k: nat :: k < n && StoredBy(calls, k, v)
  }

  lemma VersionOfCall(s: Store, calls: seq<Call>, k: nat, v: Version)
    requires k < |calls| && v in LedgerStore.Apply(s, calls[k]).tables.versions
    ensures v in s.tables.versions || StoredBy(calls, k, v)
  {
    var c := calls[k];
    OnlyCommitsCount(s, c);
    if Commits(s, c) {
      AcceptedByFields(c.p, c.directory, c.memberships, c.at);
    }
  }

  /** Every stored version was in order when it was committed. */
  lemma {:induction false} EveryVersionWasPlain(calls: seq<Call>, n: nat, v: Version)
    requires n <= |calls| && v in After(calls, n).tables.versions
    ensures StoredBefore(calls, n, v)
  {
    VersionOfCall(After(calls, n - 1), calls, n - 1, v);
    if !StoredBy(calls, n - 1, v) {
      EveryVersionWasPlain(calls, n - 1, v);
    }
  }

  /** From a new ledger a payload in order is returned and current. */
  lemma FirstPayloadCommitted(p: Payload, directory: Directory, memberships: Memberships, at: int)
    requires PlainPayload(p, directory, memberships, at)
    ensures var calls := [ProcessCall(p, directory, memberships, at, None)];
            && Process(EMPTY, p, directory, memberships, at, None).1.Returned?
            && p.content.gameId in After(calls, 1).tables.current
            && After(calls, 1).tables.current[p.content.gameId] == p.content
  {
    var calls := [ProcessCall(p, directory, memberships, at, None)];
    assert After(calls, 0) == EMPTY;
    ProcessByFields(calls, 0, p, directory, memberships, at, None);
  }

  // ---- discover ----

  /** The whole effect of `discover`. */
  lemma DiscoverByFields(s: Store, id: string, status: string, at: int)
    ensures var s' := Discover(s, id, status, at);
            var known := || status == "SCHEDULED" || status == "IN_PROGRESS" || status == "FINAL"
                         || status == "CANCELLED" || status == "POSTPONED" || status == "SUSPENDED";
            var reconciled := id in s.jobs && (s.jobs[id].state == Verified || s.jobs[id].state == Corrected);
            && s'.raw == s.raw && s'.tables == s.tables && s'.snapshots == s.snapshots
            && (!known || reconciled ==> s' == s)
            && (known && !reconciled ==>
                  JobAfter(s.jobs, s'.jobs, id, Discovered(if status == "FINAL" then "FINAL_DETECTED" else status), 1,
                           false, at))
  {
  }
}
