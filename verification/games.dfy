/** Source payloads of final games, and the validation every payload passes before it is versioned. */
module Games {
  import opened Aggregates
  import opened Directories
  import opened Wrappers

  datatype Player = Player(id: string, providerId: string, participated: bool, metrics: Metrics)
  datatype Team = Team(id: string, providerId: string, side: string, teamComplete: bool, playerComplete: bool,
                       metrics: Metrics, players: seq<Player>)
  datatype TemporalClass = PostgameObserved | Retrospective | Unclassified(text: string)
  /** A clock as written, and the instant it names. Corrections compare the writing. */
  datatype Clock = Clock(text: string, at: int)

  /** What the version digest covers. The digest is taken to be injective, so the content is its own version id. */
  datatype Content = Content(gameId: string, providerGameId: string, season: int, gameAt: Clock, source: string,
                             status: string, homeScore: int, awayScore: int, temporal: TemporalClass,
                             teams: seq<Team>, extra: string)
  /** The retrieval clocks stay outside the version digest but inside the raw evidence digest. */
  datatype Payload = Payload(content: Content, observed: int, sourceAvailable: Option<int>, providerFinal: Option<int>)

  datatype Stint = Stint(providerId: string, from: int, to: int)
  type Memberships = map<(string, string, int), seq<Stint>>

  /** The exception a check raises: ValueError, or LookupError for a partial source. */
  datatype Verdict = Accepted | Invalid | Partial

  predicate Numeric(v: Value) {
    !v.NotANumber?
  }

  predicate WithinAttempts(m: Metrics, made: string, attempts: string) {
    var x, y := Number(m, made), Number(m, attempts);
    x.Some? && y.Some? ==> 0.0 <= x.value <= y.value
  }

  predicate SoundMetrics(m: Metrics) {
    && (forall key <- m :: Numeric(m[key]))
    && WithinAttempts(m, "completions", "pass_attempts")
    && WithinAttempts(m, "third_conversions", "third_attempts")
    && WithinAttempts(m, "fourth_conversions", "fourth_attempts")
    && WithinAttempts(m, "field_goals", "field_goal_attempts")
  }

  /** A stint of this provider identity that covers the game, half-open. */
  predicate Member(stints: seq<Stint>, providerId: string, gameAt: int) {
    exists s <- stints :: s.providerId == providerId && s.from <= gameAt < s.to
  }

  function Stints(memberships: Memberships, playerId: string, teamId: string, season: int): seq<Stint> {
    if (playerId, teamId, season) in memberships then memberships[(playerId, teamId, season)] else []
  }

  predicate SoundPlayers(t: Team, c: Content, memberships: Memberships) {
    && (forall i, j :: 0 <= i < j < |t.players| ==> t.players[i].id != t.players[j].id)
    && (forall p <- t.players ::
          Member(Stints(memberships, p.id, t.id, c.season), p.providerId, c.gameAt.at) && p.participated)
  }

  function Score(c: Content, side: string): int {
    if side == "home" then c.homeScore else c.awayScore
  }

  /** The team is known for the season under this provider identity. */
  predicate Identified(t: Team, c: Content, directory: Directory) {
    (t.id, c.season) in directory && directory[(t.id, c.season)].providerId == t.providerId
  }

  /** The team's points are a whole number and the score of its side. */
  predicate Reconciled(t: Team, c: Content) {
    && "points" in t.metrics && t.metrics["points"].Whole?
    && t.metrics["points"].n >= 0 && t.metrics["points"].n == Score(c, t.side)
  }

  predicate AllMetricsSound(t: Team) {
    SoundMetrics(t.metrics) && forall p <- t.players :: SoundMetrics(p.metrics)
  }

  function JudgeTeam(t: Team, c: Content, directory: Directory, memberships: Memberships): Verdict {
    if !Identified(t, c, directory) || !Reconciled(t, c) then Invalid
    else if !t.teamComplete || !t.playerComplete then Partial
    else if !SoundPlayers(t, c, memberships) || !AllMetricsSound(t) then Invalid
    else Accepted
  }

  predicate SoundTeam(t: Team, c: Content, directory: Directory, memberships: Memberships) {
    && Identified(t, c, directory) && Reconciled(t, c) && t.teamComplete && t.playerComplete
    && SoundPlayers(t, c, memberships) && AllMetricsSound(t)
  }

  predicate SoundHeader(p: Payload, at: int) {
    var c := p.content;
    && c.status == "FINAL" && c.source != "" && c.providerGameId != ""
    && c.gameAt.at < p.observed <= at
    && (p.providerFinal.Some? ==> c.gameAt.at <= p.providerFinal.value <= p.observed)
    && (p.sourceAvailable.Some? ==> p.sourceAvailable.value <= p.observed)
    && !c.temporal.Unclassified?
    && |c.teams| == 2 && {c.teams[0].side, c.teams[1].side} == {"home", "away"} && c.teams[0].id != c.teams[1].id
  }

  /** Everything an accepted payload has passed. */
  predicate Acceptable(p: Payload, directory: Directory, memberships: Memberships, at: int) {
    && SoundHeader(p, at)
    && (forall t <- p.content.teams :: SoundTeam(t, p.content, directory, memberships))
    && exists t <- p.content.teams :: directory[(t.id, p.content.season)].classification == "FBS"
  }

  function Validate(p: Payload, directory: Directory, memberships: Memberships, at: int): (verdict: Verdict)
    ensures verdict == Accepted ==> Settled(p.content) && p.content.gameAt.at < p.observed <= at
    ensures verdict == Accepted <==> Acceptable(p, directory, memberships, at)
    ensures verdict == Partial ==> exists t <- p.content.teams :: !t.teamComplete || !t.playerComplete
  {
    var c := p.content;
    if !SoundHeader(p, at) then Invalid
    else
      assert c.teams[0] in c.teams && c.teams[1] in c.teams;
      assert forall t <- c.teams :: t == c.teams[0] || t == c.teams[1];
      var first := JudgeTeam(c.teams[0], c, directory, memberships);
      if first != Accepted then first
      else
        var second := JudgeTeam(c.teams[1], c, directory, memberships);
        if second != Accepted then second
        else if forall t <- c.teams :: directory[(t.id, c.season)].classification != "FBS" then Invalid
        else Accepted
  }

  /** Two distinct teams, each with a whole number of points: all that the derived tables rely on. */
  predicate Settled(c: Content) {
    && |c.teams| == 2 && c.teams[0].id != c.teams[1].id
    && forall t <- c.teams :: "points" in t.metrics && t.metrics["points"].Whole?
  }

  const NOBODY := Team("", "", "", false, false, map["points" := Whole(0)], [])
  type Game = c: Content | Settled(c)
    witness Content("", "", 0, Clock("", 0), "", "", 0, 0, PostgameObserved, [NOBODY, NOBODY.(id := "other")], "")

  // ---- a game as one of its teams sees it ----

  predicate Plays(g: Game, team: string) {
    team in TeamIds(g)
  }

  function Own(g: Game, team: string): Team {
    if g.teams[0].id == team then g.teams[0] else g.teams[1]
  }

  function Opponent(g: Game, team: string): Team {
    if g.teams[0].id != team then g.teams[0] else g.teams[1]
  }

  function Points(g: Game, t: Team): int
    requires t in g.teams
  {
    t.metrics["points"].n
  }

  /** Points for minus points against. */
  function Margin(g: Game, team: string): int {
    Points(g, Own(g, team)) - Points(g, Opponent(g, team))
  }

  function TeamIds(g: Game): set<string> {
    {g.teams[0].id, g.teams[1].id}
  }

  predicate SameMatch(g: Game, h: Game) {
    g.season == h.season && g.gameAt == h.gameAt && TeamIds(g) == TeamIds(h)
  }
}
