/** The postgame queue table and what one call of `reconcile`, `claim` or `finish` does to it. Instants are integers;
    module `ClockText` justifies comparing the stored clock texts that way. */
module QueueTable {
  import opened Wrappers
  import opened Directories
  import Minimum
  import Text

  datatype Status = Scheduled | InProgress | Final | Postponed | Cancelled | Suspended | Unrecognized(text: string)

  datatype State =
    | Reported(status: Status) | FinalDetected | SourcePending | PartialSource | RetryPending
    | Validating | Verified | Corrected | Quarantined

  datatype Participant = Participant(teamId: string, providerId: string)

  datatype Poll = Poll(gameId: string, season: int, observed: int, source: string, status: Status,
                       teams: seq<Participant>)

  datatype Row = Row(season: int, identity: set<Participant>, source: string, status: Status, state: State,
                     observed: int, due: Option<int>, token: Option<string>, leaseUntil: Option<int>,
                     attempts: nat, error: Option<string>, verified: Option<string>)
  type Table = map<string, Row>

  /** Python truth of an optional text: neither missing nor empty. */
  predicate Truthy(text: Option<string>) {
    text.Some? && text.value != ""
  }

  function Lookup(t: Table, id: string): Option<Row> {
    if id in t then Some(t[id]) else None
  }

  // ---- reconcile ----

  datatype Refusal = DuplicateOrEmpty | BadEvidence | NotTwoTeams | UnverifiedIdentity | UnknownStatus
                   | IdentityChanged | SameTimeConflict
  datatype Screening = Refused(why: Refusal) | Ignored | Taken

  predicate Canonical(p: Poll, directory: Directory) {
    forall x <- p.teams ::
      (x.teamId, p.season) in directory && directory[(x.teamId, p.season)].providerId == x.providerId
  }

  predicate InvolvesFbs(p: Poll, directory: Directory)
    requires Canonical(p, directory)
  {
    exists x <- p.teams :: directory[(x.teamId, p.season)].classification == "FBS"
  }

  function Identity(p: Poll): set<Participant> {
    set x | x in p.teams
  }

  predicate SameGame(row: Row, p: Poll) {
    row.season == p.season && row.identity == Identity(p) && row.source == p.source
  }

  /** One pass of the validation loop over a poll, after the duplicate check. */
  function Screen(prior: Option<Row>, p: Poll, directory: Directory, at: int): Screening {
    if p.observed > at || p.source == "" then Refused(BadEvidence)
    else if |p.teams| != 2 || p.teams[0].teamId == p.teams[1].teamId then Refused(NotTwoTeams)
    else if !Canonical(p, directory) then Refused(UnverifiedIdentity)
    else if !InvolvesFbs(p, directory) then Ignored
    else if p.status.Unrecognized? then Refused(UnknownStatus)
    else if prior.None? then Taken
    else if !SameGame(prior.value, p) then Refused(IdentityChanged)
    else if p.observed < prior.value.observed then Ignored
    else if p.observed == prior.value.observed && p.status != prior.value.status then Refused(SameTimeConflict)
    else Taken
  }

  datatype Admission = Rejected(why: Refusal) | Admitted(polls: seq<Poll>)

  predicate Mentions(polls: seq<Poll>, id: string) {
    exists p <- polls :: p.gameId == id
  }

  /** The validation loop over a whole batch: the polls to write, or the first refusal. */
  function Admit(t: Table, polls: seq<Poll>, directory: Directory, at: int): Admission {
    if polls == [] then Admitted([])
    else
      var earlier, p := polls[..|polls| - 1], polls[|polls| - 1];
      match Admit(t, earlier, directory, at)
      case Rejected(why) => Rejected(why)
      case Admitted(taken) =>
        if p.gameId == "" || Mentions(earlier, p.gameId) then Rejected(DuplicateOrEmpty)
        else
          match Screen(Lookup(t, p.gameId), p, directory, at)
          case Refused(why) => Rejected(why)
          case Ignored => Admitted(taken)
          case Taken => Admitted(taken + [p])
  }

  /** The upsert of one admitted poll. */
  function Merge(prior: Option<Row>, p: Poll, at: int): Row {
    var (state, due) :=
      if prior.Some? && Truthy(prior.value.verified) && p.status != Final then (Quarantined, None)
      else if p.status != Final then (Reported(p.status), None)
      else if prior.Some? && prior.value.status == Final then (prior.value.state, prior.value.due)
      else (FinalDetected, Some(at));
    match prior
    case None => Row(p.season, Identity(p), p.source, p.status, state, p.observed, due, None, None, 0, None, None)
    case Some(row) => row.(status := p.status, state := state, observed := p.observed, due := due)
  }

  /** The write loop: `t` is the table the polls were validated against. */
  function Upserts(t: Table, taken: seq<Poll>, at: int): Table {
    if taken == [] then t
    else
      var p := taken[|taken| - 1];
      Upserts(t, taken[..|taken| - 1], at)[p.gameId := Merge(Lookup(t, p.gameId), p, at)]
  }

  // ---- claim ----

  predicate Claimable(s: State) {
    s in {FinalDetected, SourcePending, PartialSource, RetryPending, Validating, Verified, Corrected}
  }

  predicate Eligible(row: Row, at: int) {
    && row.status == Final
    && row.due.Some? && row.due.value <= at
    && (row.leaseUntil.None? || row.leaseUntil.value <= at)
    && Claimable(row.state)
  }

  function EligibleIds(t: Table, at: int): set<string> {
    set g | g in t && Eligible(t[g], at)
  }

  /** `ORDER BY due_at, game_id`, strictly. */
  predicate Precedes(t: Table, g: string, h: string) {
    && g in t && t[g].due.Some? && h in t && t[h].due.Some?
    && (t[g].due.value < t[h].due.value || (t[g].due.value == t[h].due.value && Text.Less(g, h)))
  }

  function DueOrder(t: Table): (string, string) -> bool {
    (g, h) => Precedes(t, g, h)
  }

  predicate AllDue(t: Table, ids: set<string>) {
    forall g <- ids :: g in t && t[g].due.Some?
  }

  predicate IsFirst(t: Table, ids: set<string>, g: string) {
    Minimum.IsFirst(DueOrder(t), ids, g)
  }

  datatype Grant = Grant(gameId: string, token: string, until: int, previous: Option<string>)
  datatype ClaimReply = BadLease | NothingDue | Granted(grant: Grant)

  function Lease(row: Row, at: int, seconds: int, token: string): Row {
    row.(state := Validating, token := Some(token), leaseUntil := Some(at + seconds), attempts := row.attempts + 1)
  }

  /** What a claim may answer, and the table it leaves. */
  ghost predicate Claims(t: Table, at: int, seconds: int, token: string, t': Table, reply: ClaimReply) {
    if !(1 <= seconds <= 3600) then t' == t && reply == BadLease
    else if EligibleIds(t, at) == {} then t' == t && reply == NothingDue
    else
      && reply.Granted?
      && IsFirst(t, EligibleIds(t, at), reply.grant.gameId)
      && reply.grant == Grant(reply.grant.gameId, token, at + seconds, t[reply.grant.gameId].verified)
      && t' == t[reply.grant.gameId := Lease(t[reply.grant.gameId], at, seconds, token)]
  }

  lemma PrecedesOrders(t: Table, ids: set<string>)
    requires AllDue(t, ids)
    ensures Minimum.Orders(DueOrder(t), ids)
  {
    forall x, y | x in ids && y in ids
      ensures x == y || Precedes(t, x, y) || Precedes(t, y, x)
    {
      Text.LessTotal(x, y);
    }
    forall x, y, z | Precedes(t, x, y) && Precedes(t, y, z)
      ensures Precedes(t, x, z)
    {
      if t[x].due.value == t[y].due.value == t[z].due.value {
        Text.LessTransitive(x, y, z);
      }
    }
    forall x: string
      ensures !Precedes(t, x, x)
    {
      Text.LessIrreflexive(x);
    }
  }

  lemma FirstUnique(t: Table, ids: set<string>, g: string, h: string)
    requires AllDue(t, ids) && IsFirst(t, ids, g) && IsFirst(t, ids, h)
    ensures g == h
  {
    PrecedesOrders(t, ids);
    Minimum.FirstUnique(DueOrder(t), ids, g, h);
  }

  ghost function First(t: Table, ids: set<string>): (g: string)
    requires ids != {} && AllDue(t, ids)
    ensures IsFirst(t, ids, g)
  {
    assert exists g :: IsFirst(t, ids, g) by {
      PrecedesOrders(t, ids);
      var g := Minimum.FirstExists(DueOrder(t), ids);
      assert IsFirst(t, ids, g);
    }
    var g :| IsFirst(t, ids, g); g
  }

  /** The answer of a claim is determined, and there always is one. */
  ghost function Claimed(t: Table, at: int, seconds: int, token: string): (r: (Table, ClaimReply))
    ensures Claims(t, at, seconds, token, r.0, r.1)
  {
    if !(1 <= seconds <= 3600) then (t, BadLease)
    else if EligibleIds(t, at) == {} then (t, NothingDue)
    else
      var g := First(t, EligibleIds(t, at));
      (t[g := Lease(t[g], at, seconds, token)], Granted(Grant(g, token, at + seconds, t[g].verified)))
  }

  lemma ClaimDetermined(t: Table, at: int, seconds: int, token: string, t': Table, reply: ClaimReply)
    requires Claims(t, at, seconds, token, t', reply)
    ensures (t', reply) == Claimed(t, at, seconds, token)
  {
    var r := Claimed(t, at, seconds, token);
    if reply.Granted? {
      FirstUnique(t, EligibleIds(t, at), reply.grant.gameId, r.1.grant.gameId);
    }
  }

  // ---- finish ----

  datatype FinishReply = BadDelay | ExpiredOrSuperseded | VerifyAndFail | NoFailureState | Finished

  predicate FailureState(s: Option<State>) {
    s in {Some(SourcePending), Some(PartialSource), Some(RetryPending), Some(Quarantined)}
  }

  /** The lease test at the head of `finish`. */
  predicate Holds(t: Table, g: string, token: string, at: int) {
    && g in t
    && t[g].status == Final
    && t[g].state == Validating
    && t[g].token == Some(token)
    && t[g].leaseUntil.Some? && at < t[g].leaseUntil.value
  }

  function FinishAnswer(t: Table, g: string, token: string, at: int, version: Option<string>,
                        error: Option<string>, failure: Option<State>, retry: int): FinishReply {
    if !(1 <= retry <= 86400) then BadDelay
    else if !Holds(t, g, token, at) then ExpiredOrSuperseded
    else if Truthy(version) then
      if Truthy(error) || failure.Some? then VerifyAndFail else Finished
    else if !FailureState(failure) then NoFailureState
    else Finished
  }

  function Close(row: Row, at: int, version: Option<string>, error: Option<string>, failure: Option<State>,
                 retry: int): Row {
    var state :=
      if !Truthy(version) then (if failure.Some? then failure.value else row.state)
      else if Truthy(row.verified) && row.verified != version then Corrected
      else Verified;
    row.(state := state,
         due := if state == Quarantined then None else Some(at + retry),
         token := None, leaseUntil := None, error := error,
         verified := if version.Some? then version else row.verified)
  }

  // ---- one call ----

  datatype Event =
    | Reconcile(polls: seq<Poll>, directory: Directory, at: int)
    | Claim(at: int, seconds: int, token: string)
    | Finish(gameId: string, token: string, at: int, version: Option<string>, error: Option<string>,
             failure: Option<State>, retry: int)

  ghost function Apply(t: Table, e: Event): Table {
    match e
    case Reconcile(polls, directory, at) =>
      (match Admit(t, polls, directory, at)
       case Rejected(_) => t
       case Admitted(taken) => Upserts(t, taken, at))
    case Claim(at, seconds, token) => Claimed(t, at, seconds, token).0
    case Finish(g, token, at, version, error, failure, retry) =>
      if FinishAnswer(t, g, token, at, version, error, failure, retry) != Finished then t
      else t[g := Close(t[g], at, version, error, failure, retry)]
  }
}
