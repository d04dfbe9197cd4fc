/** What a snapshot says, told by the fields of the stored versions alone. */
module SnapshotFacts {
  import opened Cards
  import opened CardFacts
  import opened EntryFacts
  import opened Games
  import opened LedgerHistory
  import opened LedgerRuns
  import opened LedgerSnapshots
  import opened LedgerStore
  import opened Wrappers

  /** Observed after the game, stored and observed by the cutoff, of a game that began before it. */
  predicate KnownAt(v: Version, cutoff: int) {
    v.game.temporal == PostgameObserved && v.committed <= cutoff && v.observed <= cutoff && v.game.gameAt.at < cutoff
  }

  /** Of the known versions of its game, the one observed last. */
  predicate LastKnown(versions: seq<Version>, v: Version, cutoff: int) {
    && v in versions && KnownAt(v, cutoff)
    && forall w <- versions ::
         w.game.gameId == v.game.gameId && KnownAt(w, cutoff) ==> w == v || w.observed < v.observed
  }

  lemma SameMoment(versions: seq<Version>, v: Version, w: Version)
    requires History(versions) && v in versions && w in versions && v.game.gameId == w.game.gameId
    ensures v == w || v.observed != w.observed
  {
    var i :| 0 <= i < |versions| && versions[i] == v;
    var j :| 0 <= j < |versions| && versions[j] == w;
    assert i < j ==> Ordered(versions[i], versions[j]);
    assert j < i ==> Ordered(versions[j], versions[i]);
  }

  lemma BoardByVersions(versions: seq<Version>, cutoff: int, id: string)
    requires History(versions)
    ensures var board := BoardAt(versions, cutoff);
            if id in board then exists v :: LastKnown(versions, v, cutoff) && v.game.gameId == id && board[id] == v.game
            else forall v <- versions :: v.game.gameId == id ==> !KnownAt(v, cutoff)
  {
    CandidatesAreLatest(versions, cutoff, id);
    var c := Candidates(versions, cutoff);
    if id in c {
      forall w | w in versions && w.game.gameId == id && KnownAt(w, cutoff)
        ensures w == c[id] || w.observed < c[id].observed
      {
        SameMoment(versions, w, c[id]);
      }
      assert LastKnown(versions, c[id], cutoff);
    }
  }

  lemma OneLastKnown(versions: seq<Version>, v: Version, w: Version, cutoff: int)
    requires LastKnown(versions, v, cutoff) && LastKnown(versions, w, cutoff) && v.game.gameId == w.game.gameId
    ensures v == w
  {
  }

  /** In every reachable state a game is on the board of a cutoff exactly when a version of it is known at the cutoff,
      and then with the known version observed last. */
  lemma BoardAtTells(calls: seq<Call>, n: nat, cutoff: int, v: Version)
    requires n <= |calls| && v in Versions(calls, n)
    ensures var board := BoardAt(Versions(calls, n), cutoff); var id := v.game.gameId;
            && (KnownAt(v, cutoff) ==> id in board)
            && (LastKnown(Versions(calls, n), v, cutoff) ==> id in board && board[id] == v.game)
  {
    var versions := Versions(calls, n);
    ReachableCoherent(calls, n);
    BoardByVersions(versions, cutoff, v.game.gameId);
    if LastKnown(versions, v, cutoff) {
      var w :| LastKnown(versions, w, cutoff) && w.game.gameId == v.game.gameId
               && BoardAt(versions, cutoff)[v.game.gameId] == w.game;
      OneLastKnown(versions, v, w, cutoff);
    }
  }

  lemma BoardAtOnlyTells(calls: seq<Call>, n: nat, cutoff: int, id: string) returns (v: Version)
    requires n <= |calls| && id in BoardAt(Versions(calls, n), cutoff)
    ensures LastKnown(Versions(calls, n), v, cutoff) && v.game.gameId == id
    ensures BoardAt(Versions(calls, n), cutoff)[id] == v.game
  {
    ReachableCoherent(calls, n);
    BoardByVersions(Versions(calls, n), cutoff, id);
    v :| LastKnown(Versions(calls, n), v, cutoff) && v.game.gameId == id
         && BoardAt(Versions(calls, n), cutoff)[id] == v.game;
  }

  /** A last known version of the season of one of the teams. */
  predicate Concerns(versions: seq<Version>, v: Version, teams: seq<string>, season: int, cutoff: int) {
    && LastKnown(versions, v, cutoff) && v.game.season == season
    && (v.game.teams[0].id in teams || v.game.teams[1].id in teams)
  }

  lemma RelevantByIds(board: Board, teams: seq<string>, season: int, g: Game)
    ensures g in Relevant(board, teams, season) <==>
            exists id <- board :: board[id] == g && g.season == season
                                  && (g.teams[0].id in teams || g.teams[1].id in teams)
  {
    assert (exists team <- teams :: Plays(g, team)) <==> g.teams[0].id in teams || g.teams[1].id in teams by {
      if g.teams[0].id in teams {
        assert Plays(g, g.teams[0].id);
      }
      if g.teams[1].id in teams {
        assert Plays(g, g.teams[1].id);
      }
    }
  }

  /** In every reachable state the versions of a snapshot are exactly the last known ones of its season and teams. */
  lemma SnapshotVersionsTell(calls: seq<Call>, n: nat, gameId: string, teams: seq<string>, season: int, cutoff: int,
                             kickoff: int, g: Game)
    requires n <= |calls|
    ensures g in SnapshotOf(Versions(calls, n), gameId, teams, season, cutoff, kickoff).versions <==>
            exists v :: Concerns(Versions(calls, n), v, teams, season, cutoff) && v.game == g
  {
    var versions := Versions(calls, n);
    var board := BoardAt(versions, cutoff);
    RelevantByIds(board, teams, season, g);
    if v :| Concerns(versions, v, teams, season, cutoff) && v.game == g {
      BoardAtTells(calls, n, cutoff, v);
    }
    if id :| id in board && board[id] == g && g.season == season && (g.teams[0].id in teams || g.teams[1].id in teams) {
      var v := BoardAtOnlyTells(calls, n, cutoff, id);
      assert Concerns(versions, v, teams, season, cutoff);
    }
  }

  lemma StateTells(board: Board, team: string, season: int)
    ensures var s := StateOf(board, team, season); var ids := PlayedIn(board, team, season);
            s.games == |ids| && Tells(s.offense, board, ids, Self(team)) && Tells(s.defense, board, ids, Facing(team))
  {
    var ids := PlayedIn(board, team, season);
    ScheduleByIds(board, team, season);
    InOrderOf(board, ids, team, season);
    OwnIsSelf(InOrder(board, ids), team);
    AggregateTells(board, ids, Self(team));
    AggregateTells(board, ids, Facing(team));
  }

  /** The rest of a snapshot: its arguments, and for each team what the known games of the season add up to. */
  lemma SnapshotTells(versions: seq<Version>, gameId: string, teams: seq<string>, season: int, cutoff: int,
                      kickoff: int)
    ensures var shot := SnapshotOf(versions, gameId, teams, season, cutoff, kickoff);
            var board := BoardAt(versions, cutoff);
            && shot.gameId == gameId && shot.teams == teams && shot.season == season && shot.cutoff == cutoff
            && shot.kickoff == kickoff && (forall team :: team in shot.teamState <==> team in teams)
            && forall team <- teams ::
                 var ids := PlayedIn(board, team, season);
                 && shot.teamState[team].games == |ids|
                 && Tells(shot.teamState[team].offense, board, ids, Self(team))
                 && Tells(shot.teamState[team].defense, board, ids, Facing(team))
  {
    forall team | team in teams {
      StateTells(BoardAt(versions, cutoff), team, season);
    }
  }

  /** A snapshot is refused exactly when the cutoff is not before kickoff, and otherwise kept and returned. */
  lemma TakenByFields(s: Store, gameId: string, teams: seq<string>, season: int, cutoff: int, kickoff: int)
    ensures var (s', body) := TakeSnapshot(s, gameId, teams, season, cutoff, kickoff);
            && (body.None? <==> kickoff <= cutoff) && (body.None? ==> s' == s)
            && (body.Some? ==>
                  && body.value == SnapshotOf(s.tables.versions, gameId, teams, season, cutoff, kickoff)
                  && s' == Store(s.raw, s.tables, s.jobs, s.snapshots + {body.value}))
  {
  }

  // ---- health ----

  /** The team has a card of the game's season, of its own, that lists the game. */
  predicate CardCovers(t: Tables, g: Game, team: string) {
    && (team, g.season) in t.cards && t.cards[(team, g.season)].team == team
    && t.cards[(team, g.season)].season == g.season && g in t.cards[(team, g.season)].versions
  }

  /** `health` reports exactly the current games that one of their two teams has no covering card for. */
  lemma StaleByFields(t: Tables, id: string)
    ensures id in StaleGames(t) <==>
            && id in t.current
            && (|| !CardCovers(t, t.current[id], t.current[id].teams[0].id)
                || !CardCovers(t, t.current[id], t.current[id].teams[1].id))
  {
    if id in t.current {
      var g := t.current[id];
      forall team | team in {g.teams[0].id, g.teams[1].id}
        ensures team in StaleTeams(t.cards, g) <==> !CardCovers(t, g, team)
      {
      }
    }
  }
}
