/** What the current cards say, told by the ids and points of the current games. */
module CardFacts {
  import opened Aggregates
  import opened Cards
  import opened EntryFacts
  import opened Games
  import opened LedgerFacts
  import opened LedgerHistory
  import opened LedgerRuns
  import opened LedgerStore
  import opened Wrappers
  import Minimum
  import Sequences
  import Text

  /** The ids of a team's games of a season. */
  function PlayedIn(board: Board, team: string, season: int): set<string> {
    set id | id in board && board[id].season == season
             && (board[id].teams[0].id == team || board[id].teams[1].id == team)
  }

  /** The team's own metrics, and those of the team with the other id. */
  function Self(team: string): Pick {
    (g: Game) => if g.teams[0].id == team then g.teams[0].metrics else g.teams[1].metrics
  }

  function Facing(team: string): Pick {
    (g: Game) => if g.teams[0].id == team then g.teams[1].metrics else g.teams[0].metrics
  }

  function PointsAt(g: Game, i: nat): int
    requires i < 2
  {
    assert g.teams[i] in g.teams;
    g.teams[i].metrics["points"].n
  }

  /** The team scored more points than the other one. */
  predicate Beats(g: Game, team: string) {
    || (g.teams[0].id == team && PointsAt(g, 0) > PointsAt(g, 1))
    || (g.teams[1].id == team && PointsAt(g, 1) > PointsAt(g, 0))
  }

  predicate Loses(g: Game, team: string) {
    || (g.teams[0].id == team && PointsAt(g, 0) < PointsAt(g, 1))
    || (g.teams[1].id == team && PointsAt(g, 1) < PointsAt(g, 0))
  }

  predicate Draws(g: Game, team: string) {
    (g.teams[0].id == team || g.teams[1].id == team) && PointsAt(g, 0) == PointsAt(g, 1)
  }

  function Where(board: Board, ids: set<string>, p: Game -> bool): set<string> {
    set id | id in ids && id in board && p(board[id])
  }

  ghost predicate TellsRecord(r: Record, board: Board, ids: set<string>, team: string) {
    && r.wins == |Where(board, ids, (g: Game) => Beats(g, team))|
    && r.losses == |Where(board, ids, (g: Game) => Loses(g, team))|
    && r.ties == |Where(board, ids, (g: Game) => Draws(g, team))|
  }

  predicate Earlier(g: Game, h: Game) {
    g.gameAt.at < h.gameAt.at || (g.gameAt.at == h.gameAt.at && Text.Less(g.gameId, h.gameId))
  }

  /** The five latest of these games, or all of them if there are no more than five. */
  predicate LatestFive(board: Board, ids: set<string>, last: set<string>) {
    && last <= ids && |last| == (if |ids| <= 5 then |ids| else 5)
    && forall a, b :: a in ids - last && b in last ==> a in board && b in board && Earlier(board[a], board[b])
  }

  ghost predicate TellsLatest(entries: map<string, Entry>, board: Board, ids: set<string>, team: string) {
    exists last :: LatestFive(board, ids, last) && Tells(entries, board, last, Self(team))
  }

  // ---- players ----

  function PlayersOf(g: Game, team: string): seq<Player> {
    if g.teams[0].id == team then g.teams[0].players else g.teams[1].players
  }

  predicate Appears(g: Game, team: string, id: string) {
    exists p <- PlayersOf(g, team) :: p.id == id
  }

  /** The player's row in a list that holds one. */
  function LineOf(players: seq<Player>, id: string): Metrics {
    if players == [] then map[] else if players[0].id == id then players[0].metrics else LineOf(players[1..], id)
  }

  function LineFor(team: string, id: string): Pick {
    (g: Game) => LineOf(PlayersOf(g, team), id)
  }

  predicate OneLineEach(players: seq<Player>) {
    forall i, j :: 0 <= i < j < |players| ==> players[i].id != players[j].id
  }

  ghost predicate TellsPlayers(players: map<string, map<string, Entry>>, board: Board, ids: set<string>, team: string) {
    forall id ::
      var games := WithPlayer(board, ids, team, id);
      && (id in players <==> games != {})
      && (id in players ==> Tells(players[id], board, games, LineFor(team, id)))
  }

  // ---- a card ----

  predicate Chronology(games: seq<Game>) {
    forall i, j :: 0 <= i < j < |games| ==> Earlier(games[i], games[j])
  }

  ghost predicate CardTells(card: Card, board: Board, team: string, season: int) {
    var ids := PlayedIn(board, team, season);
    && card.team == team && card.season == season && card.games == |ids|
    && TellsRecord(card.record, board, ids, team)
    && Tells(card.offense, board, ids, Self(team)) && Tells(card.defense, board, ids, Facing(team))
    && TellsLatest(card.rolling5, board, ids, team)
    && TellsPlayers(card.players, board, ids, team)
    && |card.versions| == |ids| && Chronology(card.versions)
    && forall g :: g in card.versions <==> exists id <- ids :: board[id] == g
  }

  lemma ScheduleByIds(board: Board, team: string, season: int)
    ensures Schedule(board, team, season) == PlayedIn(board, team, season)
  {
  }

  lemma OwnIsSelf(games: seq<Game>, team: string)
    ensures OwnMetrics(games, team) == Picked(games, Self(team))
    ensures (forall g <- games :: Plays(g, team)) ==> OpponentMetrics(games, team) == Picked(games, Facing(team))
  {
    assert forall i :: 0 <= i < |games| ==> games[i] in games;
  }

  lemma InOrderOf(board: Board, ids: set<string>, team: string, season: int)
    requires ids <= PlayedIn(board, team, season)
    ensures forall g <- InOrder(board, ids) :: Plays(g, team)
    decreases ids
  {
    if ids != {} {
      InOrderOf(board, ids - {Earliest(board, ids)}, team, season);
    }
  }

  lemma WhereFirst(board: Board, ids: set<string>, p: Game -> bool, id: string)
    requires id in ids && id in board
    ensures |Where(board, ids, p)| == (if p(board[id]) then 1 else 0) + |Where(board, ids - {id}, p)|
  {
    var rest := Where(board, ids - {id}, p);
    assert Where(board, ids, p) == if p(board[id]) then rest + {id} else rest;
  }

  lemma MarginByPoints(g: Game, team: string)
    requires g.teams[0].id == team || g.teams[1].id == team
    ensures Margin(g, team) > 0 <==> Beats(g, team)
    ensures Margin(g, team) < 0 <==> Loses(g, team)
    ensures Margin(g, team) == 0 <==> Draws(g, team)
  {
  }

  lemma {:induction false} RecordTells(board: Board, ids: set<string>, team: string, season: int)
    requires ids <= PlayedIn(board, team, season)
    ensures TellsRecord(RecordOf(InOrder(board, ids), team), board, ids, team)
    decreases ids
  {
    if ids != {} {
      var first := Earliest(board, ids);
      RecordTells(board, ids - {first}, team, season);
      MarginByPoints(board[first], team);
      assert InOrder(board, ids)[1..] == InOrder(board, ids - {first});
      WhereFirst(board, ids, (g: Game) => Beats(g, team), first);
      WhereFirst(board, ids, (g: Game) => Loses(g, team), first);
      WhereFirst(board, ids, (g: Game) => Draws(g, team), first);
    }
  }

  lemma SoonerIsEarlier(board: Board, a: string, b: string)
    requires Keyed(board) && a in board && b in board
    ensures Sooner(board, a, b) <==> Earlier(board[a], board[b])
  {
  }

  lemma LatestTells(board: Board, ids: set<string>, team: string)
    requires Keyed(board) && ids <= board.Keys
    ensures TellsLatest(Aggregate(OwnMetrics(Sequences.LastFive(InOrder(board, ids)), team)), board, ids, team)
  {
    var last := LastFiveOverIds(board, ids);
    forall a, b | a in ids - last && b in last
      ensures Earlier(board[a], board[b])
    {
      SoonerIsEarlier(board, a, b);
    }
    LatestGiven(board, ids, last, team);
  }

  lemma LatestGiven(board: Board, ids: set<string>, last: set<string>, team: string)
    requires ids <= board.Keys && LatestFive(board, ids, last)
    ensures TellsLatest(Aggregate(OwnMetrics(InOrder(board, last), team)), board, ids, team)
  {
    OwnIsSelf(InOrder(board, last), team);
    AggregateTells(board, last, Self(team));
  }

  lemma FirstIsEarlier(board: Board, ids: set<string>, g: Game)
    requires Keyed(board) && ids <= board.Keys && ids != {}
    requires g in InOrder(board, ids - {Earliest(board, ids)})
    ensures Earlier(board[Earliest(board, ids)], g)
  {
    var first := Earliest(board, ids);
    InOrderMembers(board, ids - {first});
    var id :| id in ids - {first} && board[id] == g;
    EarliestIsSooner(board, ids, id);
    SoonerIsEarlier(board, first, id);
  }

  lemma {:induction false} InOrderIsChronology(board: Board, ids: set<string>)
    requires Keyed(board) && ids <= board.Keys
    ensures Chronology(InOrder(board, ids))
    decreases ids
  {
    if ids != {} {
      var first := Earliest(board, ids);
      var rest := InOrder(board, ids - {first});
      InOrderIsChronology(board, ids - {first});
      assert InOrder(board, ids) == [board[first]] + rest;
      forall g | g in rest
        ensures Earlier(board[first], g)
      {
        FirstIsEarlier(board, ids, g);
      }
      ChronologyFrom(board[first], rest);
    }
  }

  lemma ChronologyFrom(g: Game, games: seq<Game>)
    requires Chronology(games) && forall h <- games :: Earlier(g, h)
    ensures Chronology([g] + games)
  {
  }

  lemma VersionsTell(board: Board, ids: set<string>)
    requires Keyed(board) && ids <= board.Keys
    ensures Chronology(InOrder(board, ids))
    ensures forall g :: g in InOrder(board, ids) <==> exists id <- ids :: board[id] == g
  {
    InOrderIsChronology(board, ids);
    InOrderMembers(board, ids);
  }

  // ---- players' rows ----

  lemma {:induction false} RowsOfOne(players: seq<Player>, id: string)
    requires OneLineEach(players)
    ensures Rows(players, id) == if exists p <- players :: p.id == id then [LineOf(players, id)] else []
  {
    if players != [] {
      RowsOfOne(players[1..], id);
      assert players[0] in players && forall p <- players[1..] :: p in players;
      assert players == [players[0]] + players[1..];
      if players[0].id == id {
        forall p | p in players[1..]
          ensures p.id != id
        {
          var k :| 0 <= k < |players[1..]| && players[1..][k] == p;
          assert players[k + 1] == p;
        }
      }
    }
  }

  predicate OneLineEachSide(g: Game) {
    OneLineEach(g.teams[0].players) && OneLineEach(g.teams[1].players)
  }

  function WithPlayer(board: Board, ids: set<string>, team: string, id: string): set<string> {
    Where(board, ids, (g: Game) => Appears(g, team, id))
  }

  lemma PlayerRowsFirst(board: Board, ids: set<string>, team: string, id: string)
    requires ids <= board.Keys && ids != {} && OneLineEachSide(board[Earliest(board, ids)])
    ensures var first := Earliest(board, ids);
            PlayerRows(InOrder(board, ids), team, id) ==
            (if Appears(board[first], team, id) then [LineFor(team, id)(board[first])] else [])
            + PlayerRows(InOrder(board, ids - {first}), team, id)
  {
    var first := Earliest(board, ids);
    assert InOrder(board, ids)[1..] == InOrder(board, ids - {first});
    RowsOfOne(PlayersOf(board[first], team), id);
  }

  lemma PickedOfPlayer(board: Board, ids: set<string>, team: string, id: string)
    requires ids <= board.Keys && ids != {}
    ensures var first := Earliest(board, ids);
            Picked(InOrder(board, WithPlayer(board, ids, team, id)), LineFor(team, id)) ==
            (if Appears(board[first], team, id) then [LineFor(team, id)(board[first])] else [])
            + Picked(InOrder(board, WithPlayer(board, ids - {first}, team, id)), LineFor(team, id))
  {
    var first := Earliest(board, ids);
    var games, later := WithPlayer(board, ids, team, id), WithPlayer(board, ids - {first}, team, id);
    WithoutFirst(board, ids, team, id, first);
    if Appears(board[first], team, id) {
      FirstStaysFirst(board, ids, games, first);
      PickedWithFirst(board, games, LineFor(team, id));
    }
  }

  lemma WithoutFirst(board: Board, ids: set<string>, team: string, id: string, first: string)
    requires first in ids && first in board
    ensures var games, later := WithPlayer(board, ids, team, id), WithPlayer(board, ids - {first}, team, id);
            if Appears(board[first], team, id) then first in games && games - {first} == later else games == later
  {
  }

  lemma PickedWithFirst(board: Board, ids: set<string>, pick: Pick)
    requires ids <= board.Keys && ids != {}
    ensures var first := Earliest(board, ids);
            Picked(InOrder(board, ids), pick) == [pick(board[first])] + Picked(InOrder(board, ids - {first}), pick)
  {
    PickedFirst(board, ids, pick);
    var all := Picked(InOrder(board, ids), pick);
    assert all == [all[0]] + all[1..];
  }

  lemma {:induction false} PlayerRowsTell(board: Board, ids: set<string>, team: string, id: string)
    requires ids <= board.Keys && forall x <- ids :: OneLineEachSide(board[x])
    ensures PlayerRows(InOrder(board, ids), team, id) ==
            Picked(InOrder(board, WithPlayer(board, ids, team, id)), LineFor(team, id))
    decreases ids
  {
    if ids != {} {
      PlayerRowsTell(board, ids - {Earliest(board, ids)}, team, id);
      PlayerRowsFirst(board, ids, team, id);
      PickedOfPlayer(board, ids, team, id);
    } else {
      assert WithPlayer(board, ids, team, id) == {};
    }
  }

  lemma FirstStaysFirst(board: Board, ids: set<string>, part: set<string>, first: string)
    requires part <= ids <= board.Keys && first in part && first == Earliest(board, ids)
    ensures Earliest(board, part) == first
  {
    assert Minimum.IsFirst(Calendar(board), ids, first);
    assert Minimum.IsFirst(Calendar(board), part, first);
    EarliestUnique(board, part, first, Earliest(board, part));
  }

  lemma PlayerListed(games: seq<Game>, team: string, id: string)
    ensures id in PlayerIds(games, team) <==> exists g <- games :: Appears(g, team, id)
  {
    forall g | g in games
      ensures (exists p <- Own(g, team).players :: p.id == id) <==> Appears(g, team, id)
    {
    }
  }

  lemma PlayerIdsTell(board: Board, ids: set<string>, team: string, id: string)
    requires Keyed(board) && ids <= board.Keys
    ensures id in PlayerIds(InOrder(board, ids), team) <==> WithPlayer(board, ids, team, id) != {}
  {
    InOrderMembers(board, ids);
    PlayerListed(InOrder(board, ids), team, id);
    if g :| g in InOrder(board, ids) && Appears(g, team, id) {
      var x :| x in ids && board[x] == g;
      assert x in WithPlayer(board, ids, team, id);
    }
    if x :| x in WithPlayer(board, ids, team, id) {
      assert board[x] in InOrder(board, ids);
    }
  }

  lemma PlayersTell(board: Board, team: string, season: int)
    requires Keyed(board) && forall x <- board :: OneLineEachSide(board[x])
    ensures TellsPlayers(CardOf(board, team, season).players, board, PlayedIn(board, team, season), team)
  {
    var ids := PlayedIn(board, team, season);
    ScheduleByIds(board, team, season);
    forall id
      ensures var games := WithPlayer(board, ids, team, id);
              var players := CardOf(board, team, season).players;
              && (id in players <==> games != {})
              && (id in players ==> Tells(players[id], board, games, LineFor(team, id)))
    {
      PlayerIdsTell(board, ids, team, id);
      PlayerRowsTell(board, ids, team, id);
      AggregateTells(board, WithPlayer(board, ids, team, id), LineFor(team, id));
    }
  }

  // ---- every current card ----

  lemma CardOfTells(board: Board, team: string, season: int)
    requires Keyed(board) && forall x <- board :: OneLineEachSide(board[x])
    ensures CardTells(CardOf(board, team, season), board, team, season)
  {
    var ids := PlayedIn(board, team, season);
    ScheduleByIds(board, team, season);
    RecordTells(board, ids, team, season);
    InOrderOf(board, ids, team, season);
    OwnIsSelf(InOrder(board, ids), team);
    AggregateTells(board, ids, Self(team));
    AggregateTells(board, ids, Facing(team));
    LatestTells(board, ids, team);
    VersionsTell(board, ids);
    PlayersTell(board, team, season);
  }

  lemma CurrentLines(calls: seq<Call>, n: nat)
    requires n <= |calls|
    ensures Keyed(After(calls, n).tables.current)
    ensures forall x <- After(calls, n).tables.current :: OneLineEachSide(After(calls, n).tables.current[x])
  {
    var t := After(calls, n).tables;
    ReachableCoherent(calls, n);
    HeadsKeyed(t.versions);
    forall x | x in t.current
      ensures OneLineEachSide(t.current[x])
    {
      var head := HeadIsGreatest(t.versions, x);
      EveryVersionWasPlain(calls, n, head.value);
      var k: nat :| k < n && StoredBy(calls, k, head.value);
    }
  }

  /** In every reachable state there is a card for exactly the teams and seasons with current games, and it tells of
      these games: their number, who scored more, what each side's metrics add up to, the five latest, the players'
      rows, and the games themselves in order of time. */
  lemma CurrentCardsTell(calls: seq<Call>, n: nat, team: string, season: int)
    requires n <= |calls|
    ensures var t := After(calls, n).tables;
            && ((team, season) in t.cards <==> PlayedIn(t.current, team, season) != {})
            && ((team, season) in t.cards ==> CardTells(t.cards[(team, season)], t.current, team, season))
  {
    var t := After(calls, n).tables;
    ReachableCoherent(calls, n);
    CurrentLines(calls, n);
    CardOfTells(t.current, team, season);
    KeyWhenPlayed(t.current, team, season);
  }

  lemma KeyWhenPlayed(board: Board, team: string, season: int)
    ensures (team, season) in AllCards(board) <==> PlayedIn(board, team, season) != {}
    ensures (team, season) in AllCards(board) ==> AllCards(board)[(team, season)] == CardOf(board, team, season)
  {
    if id :| id in PlayedIn(board, team, season) {
      KeyListed(board, id, (team, season));
    }
    if (team, season) in CardKeys(board) {
      var id :| id in board && (team, season) in KeysOf(board[id]);
      assert id in PlayedIn(board, team, season);
    }
  }
}
