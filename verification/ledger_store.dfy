/** The ledger's tables and what one call of `process`, `discover` or `snapshot` does to them. */
module LedgerStore {
  import opened Aggregates
  import opened Cards
  import opened Directories
  import opened Games
  import opened Wrappers

  datatype Version = Version(game: Game, observed: int, evidence: Payload, committed: int)

  datatype Kind = CacheInvalidation | ModelStateResearchRefresh | DependentRatingsRecompute
  datatype Notice = Notice(kind: Kind, version: Game, gameId: string, teams: seq<string>)

  datatype JobState = Discovered(status: string) | Validating | Verified | Corrected | PartialSource | Quarantined
                    | RetryPending
  datatype Job = Job(state: JobState, attempts: nat, fault: Option<Fault>, updated: int)

  datatype Fault = ChecksFailed | SourcePartial | OldReplay | StaleObservation | ChangedIdentity | Injected
  datatype Outcome = Returned(version: Game) | Raised(fault: Fault)

  /** The tables the versioning transaction writes. */
  datatype Tables = Tables(versions: seq<Version>, current: Board, cardVersions: map<Card, int>,
                           cards: map<CardKey, Card>, outbox: seq<Notice>)
  datatype Store = Store(raw: set<Payload>, tables: Tables, jobs: map<string, Job>, snapshots: set<Snapshot>)

  const EMPTY := Store({}, Tables([], map[], map[], map[], []), map[], {})

  // ---- jobs ----

  /** `Ledger.state`: every note of a job counts as an attempt. */
  function Note(jobs: map<string, Job>, id: string, state: JobState, at: int, fault: Option<Fault>): map<string, Job> {
    jobs[id := Job(state, if id in jobs then jobs[id].attempts + 1 else 1, fault, at)]
  }

  predicate KnownStatus(status: string) {
    status in {"SCHEDULED", "IN_PROGRESS", "FINAL", "CANCELLED", "POSTPONED", "SUSPENDED"}
  }

  /** `discover`; an unknown status raises before anything is written. */
  function Discover(s: Store, id: string, status: string, at: int): Store {
    if !KnownStatus(status) then s
    else if id in s.jobs && s.jobs[id].state in {Verified, Corrected} then s
    else s.(jobs := Note(s.jobs, id, Discovered(if status == "FINAL" then "FINAL_DETECTED" else status), at, None))
  }

  // ---- process ----

  datatype Judgement = Repoll | Refuse(fault: Fault) | Fresh

  predicate Stored(versions: seq<Version>, content: Content) {
    exists v <- versions :: v.game == content
  }

  /** The observation clock of a stored version; ids are unique, so the first hit is the only one. */
  function ObservedOf(versions: seq<Version>, game: Game): Option<int> {
    if versions == [] then None
    else if versions[0].game == game then Some(versions[0].observed)
    else ObservedOf(versions[1..], game)
  }

  /** Content never stored before and, for a correction, of the same match and observed later than the current
      version. */
  predicate NewFor(t: Tables, p: Payload, at: int)
    requires Settled(p.content)
  {
    var c := p.content;
    && c.gameAt.at < p.observed <= at
    && !Stored(t.versions, c)
    && (c.gameId in t.current ==>
          && SameMatch(t.current[c.gameId], c)
          && var since := ObservedOf(t.versions, t.current[c.gameId]); since.Some? ==> since.value < p.observed)
  }

  function Judge(t: Tables, p: Payload, directory: Directory, memberships: Memberships, at: int): (j: Judgement)
    ensures j == Fresh ==> Settled(p.content) && NewFor(t, p, at)
    ensures j == Repoll ==> p.content.gameId in t.current && t.current[p.content.gameId] == p.content
    ensures j != Refuse(Injected)
  {
    var c, verdict := p.content, Validate(p, directory, memberships, at);
    if verdict == Invalid then Refuse(ChecksFailed)
    else if verdict == Partial then Refuse(SourcePartial)
    else if c.gameId in t.current && t.current[c.gameId] == c then Repoll
    else if Stored(t.versions, c) then Refuse(OldReplay)
    else if c.gameId !in t.current then Fresh
    else
      var prior := t.current[c.gameId];
      var since := ObservedOf(t.versions, prior);
      if since.Some? && p.observed <= since.value then Refuse(StaleObservation)
      else if !SameMatch(prior, c) then Refuse(ChangedIdentity)
      else Fresh
  }

  function StateAfter(fault: Fault): JobState {
    match fault
    case SourcePartial => PartialSource
    case Injected => RetryPending
    case _ => Quarantined
  }

  function Publish(cardVersions: map<Card, int>, card: Card, at: int): map<Card, int> {
    if card in cardVersions then cardVersions else cardVersions[card := at]
  }

  function NoticesOf(g: Game): seq<Notice> {
    var teams := [g.teams[0].id, g.teams[1].id];
    [Notice(CacheInvalidation, g, g.gameId, teams),
     Notice(ModelStateResearchRefresh, g, g.gameId, teams),
     Notice(DependentRatingsRecompute, g, g.gameId, teams)]
  }

  /** The versioning transaction: a version, the pointer, the two cards and three notices. */
  function Commit(t: Tables, p: Payload, at: int): Tables
    requires Settled(p.content)
  {
    var board := t.current[p.content.gameId := p.content];
    CommitCards(t, Version(p.content, p.observed, p, at), board, CardAt(board))
  }

  function CommitCards(t: Tables, v: Version, board: Board, card: CardKey -> Card): Tables {
    var (c, d) := (card(FirstKey(v.game)), card(SecondKey(v.game)));
    Tables(t.versions + [v], board, Publish(Publish(t.cardVersions, c, v.committed), d, v.committed),
           t.cards[FirstKey(v.game) := c][SecondKey(v.game) := d],
           t.outbox + NoticesOf(v.game))
  }

  /** The job update inside that transaction is not an attempt. */
  function Close(jobs: map<string, Job>, id: string, state: JobState, at: int): map<string, Job> {
    if id in jobs then jobs[id := jobs[id].(state := state, fault := None, updated := at)] else jobs
  }

  // What follows the judgement `j` of a payload: the tables, the jobs and the answer.

  predicate Ready(t: Tables, p: Payload, j: Judgement) {
    (j == Fresh ==> Settled(p.content)) && (j == Repoll ==> p.content.gameId in t.current)
  }

  predicate Injects(failAt: Option<nat>) {
    failAt in {Some(0), Some(1)}
  }

  function NextTables(t: Tables, p: Payload, j: Judgement, at: int, failAt: Option<nat>): Tables
    requires Ready(t, p, j)
  {
    if j == Fresh && !Injects(failAt) then Commit(t, p, at) else t
  }

  function NextJobs(jobs: map<string, Job>, id: string, corrects: bool, j: Judgement, at: int, failAt: Option<nat>):
    map<string, Job>
  {
    match j
    case Refuse(fault) => Note(jobs, id, StateAfter(fault), at, Some(fault))
    case Repoll => Note(jobs, id, Verified, at, None)
    case Fresh =>
      if Injects(failAt) then Note(jobs, id, RetryPending, at, Some(Injected))
      else Close(jobs, id, if corrects then Corrected else Verified, at)
  }

  function Answer(t: Tables, p: Payload, j: Judgement, failAt: Option<nat>): Outcome
    requires Ready(t, p, j)
  {
    match j
    case Refuse(fault) => Raised(fault)
    case Repoll => Returned(t.current[p.content.gameId])
    case Fresh => if Injects(failAt) then Raised(Injected) else Returned(p.content)
  }

  /** Raw evidence and the first job note are kept whatever is decided. */
  function Process(s: Store, p: Payload, directory: Directory, memberships: Memberships, at: int,
                   failAt: Option<nat>): (Store, Outcome)
  {
    var id, t := p.content.gameId, s.tables;
    var j := Judge(t, p, directory, memberships, at);
    var jobs := NextJobs(Note(s.jobs, id, Validating, at, None), id, id in t.current, j, at, failAt);
    (Store(s.raw + {p}, NextTables(t, p, j, at, failAt), jobs, s.snapshots), Answer(t, p, j, failAt))
  }

  // ---- snapshot ----

  predicate Visible(v: Version, cutoff: int) {
    && v.committed <= cutoff && v.game.temporal == PostgameObserved && v.observed <= cutoff
    && v.game.gameAt.at < cutoff
  }

  /** The scan over the version table: the latest visible version of each game. */
  function Candidates(versions: seq<Version>, cutoff: int): map<string, Version> {
    if versions == [] then map[]
    else
      var seen, v := Candidates(versions[..|versions| - 1], cutoff), versions[|versions| - 1];
      var id := v.game.gameId;
      if Visible(v, cutoff) && (id !in seen || v.observed > seen[id].observed) then seen[id := v] else seen
  }

  datatype TeamState = TeamState(games: nat, offense: map<string, Entry>, defense: map<string, Entry>)
  datatype Snapshot = Snapshot(gameId: string, cutoff: int, kickoff: int, season: int, teams: seq<string>,
                               versions: set<Game>, teamState: map<string, TeamState>)

  function BoardOf(seen: map<string, Version>): Board {
    map id | id in seen :: seen[id].game
  }

  /** The games as they were known at the cutoff. */
  function BoardAt(versions: seq<Version>, cutoff: int): Board {
    BoardOf(Candidates(versions, cutoff))
  }

  function StateOf(board: Board, team: string, season: int): TeamState {
    var games := Season(board, team, season);
    TeamState(|games|, Aggregate(OwnMetrics(games, team)), Aggregate(OpponentMetrics(games, team)))
  }

  function TeamStates(board: Board, teams: seq<string>, season: int): map<string, TeamState> {
    Tabulate((set team | team in teams), StateAt(board, season))
  }

  function StateAt(board: Board, season: int): string -> TeamState {
    (team: string) => StateOf(board, team, season)
  }

  function Relevant(board: Board, teams: seq<string>, season: int): set<Game> {
    set id | id in board && board[id].season == season && (exists team <- teams :: Plays(board[id], team)) :: board[id]
  }

  function SnapshotOf(versions: seq<Version>, gameId: string, teams: seq<string>, season: int, cutoff: int,
                      kickoff: int): Snapshot
  {
    var board := BoardAt(versions, cutoff);
    Snapshot(gameId, cutoff, kickoff, season, teams, Relevant(board, teams, season),
             TeamStates(board, teams, season))
  }

  /** A decision cutoff at or after kickoff raises. */
  function TakeSnapshot(s: Store, gameId: string, teams: seq<string>, season: int, cutoff: int, kickoff: int):
    (Store, Option<Snapshot>)
  {
    if cutoff >= kickoff then (s, None)
    else
      var body := SnapshotOf(s.tables.versions, gameId, teams, season, cutoff, kickoff);
      (s.(snapshots := s.snapshots + {body}), Some(body))
  }

  // ---- health ----

  /** `health`'s test of one team of one current game. */
  predicate Affected(cards: map<CardKey, Card>, g: Game, team: string) {
    var k := (team, g.season);
    k !in cards || cards[k].team != team || cards[k].season != g.season || g !in cards[k].versions
  }

  function StaleTeams(cards: map<CardKey, Card>, g: Game): set<string> {
    set team | team in TeamIds(g) && Affected(cards, g, team)
  }

  function StaleGames(t: Tables): set<string> {
    set id | id in t.current && StaleTeams(t.cards, t.current[id]) != {}
  }

  // ---- one call ----

  datatype Call =
    | ProcessCall(p: Payload, directory: Directory, memberships: Memberships, at: int, failAt: Option<nat>)
    | DiscoverCall(gameId: string, status: string, at: int)
    | SnapshotCall(gameId: string, teams: seq<string>, season: int, cutoff: int, kickoff: int)

  function Apply(s: Store, c: Call): Store {
    match c
    case ProcessCall(p, directory, memberships, at, failAt) => Process(s, p, directory, memberships, at, failAt).0
    case DiscoverCall(id, status, at) => Discover(s, id, status, at)
    case SnapshotCall(id, teams, season, cutoff, kickoff) => TakeSnapshot(s, id, teams, season, cutoff, kickoff).0
  }
}
