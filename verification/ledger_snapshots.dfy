/** Point-in-time snapshots: what they select, that later calls cannot change them, and when they agree with the
    cards. */
module LedgerSnapshots {
  import opened Cards
  import opened Games
  import opened LedgerHistory
  import opened LedgerRuns
  import opened LedgerStore
  import Runs

  /** `v` is the latest version of game `id` that was visible at the cutoff. */
  predicate LatestVisible(versions: seq<Version>, cutoff: int, id: string, v: Version) {
    && v in versions && v.game.gameId == id && Visible(v, cutoff)
    && forall w <- versions :: w.game.gameId == id && Visible(w, cutoff) ==> w.observed <= v.observed
  }

  /** The scan keeps, for each game with a visible version, the latest one. */
  lemma {:induction false} CandidatesAreLatest(versions: seq<Version>, cutoff: int, id: string)
    ensures var c := Candidates(versions, cutoff);
            if id in c then LatestVisible(versions, cutoff, id, c[id])
            else forall v <- versions :: v.game.gameId == id ==> !Visible(v, cutoff)
  {
    if versions != [] {
      var earlier, last := versions[..|versions| - 1], versions[|versions| - 1];
      CandidatesAreLatest(earlier, cutoff, id);
      assert versions == earlier + [last];
      assert forall v <- versions :: v in earlier || v == last;
    }
  }

  /** Late commits are invisible. */
  lemma LateVersionInvisible(versions: seq<Version>, v: Version, cutoff: int)
    requires v.committed > cutoff
    ensures Candidates(versions + [v], cutoff) == Candidates(versions, cutoff)
  {
    assert (versions + [v])[..|versions|] == versions;
  }

  lemma StepKeepsCandidates(s: Store, c: Call, cutoff: int)
    requires c.ProcessCall? ==> c.at > cutoff
    ensures Candidates(Apply(s, c).tables.versions, cutoff) == Candidates(s.tables.versions, cutoff)
  {
    OnlyCommitsCount(s, c);
    if Commits(s, c) {
      LateVersionInvisible(s.tables.versions, VersionFrom(c.p, c.at), cutoff);
    }
  }

  /** The snapshot at a cutoff is the same after any later calls whose commit clocks are past the cutoff: new games,
      corrections, failures, re-polls, discoveries and other snapshots. */
  lemma SnapshotStable(calls: seq<Call>, m: nat, n: nat, gameId: string, teams: seq<string>, season: int, cutoff: int,
                       kickoff: int)
    requires m <= n <= |calls|
    requires forall k :: m <= k < n && calls[k].ProcessCall? ==> calls[k].at > cutoff
    ensures SnapshotOf(Versions(calls, n), gameId, teams, season, cutoff, kickoff) ==
            SnapshotOf(Versions(calls, m), gameId, teams, season, cutoff, kickoff)
  {
    forall k | m <= k < n {
      StepKeepsCandidates(After(calls, k), calls[k], cutoff);
    }
    Runs.Respects(LedgerStore.Apply, EMPTY, calls, m, n,
                  (s: Store, t: Store) =>
                    Candidates(s.tables.versions, cutoff) == Candidates(t.tables.versions, cutoff));
  }

  // ---- agreement with the cards ----

  /** At a cutoff that sees every version, the scan picks exactly the current pointers. */
  lemma {:induction false} AllVisiblePicksHeads(versions: seq<Version>, cutoff: int)
    requires History(versions) && forall v <- versions :: Visible(v, cutoff)
    ensures BoardAt(versions, cutoff) == Heads(versions)
  {
    if versions != [] {
      var earlier, last := versions[..|versions| - 1], versions[|versions| - 1];
      NewestOfAll(versions);
      AllVisiblePicksHeads(earlier, cutoff);
      assert last in versions;
      LastReplaces(versions, cutoff);
      BoardWithOneMore(Candidates(earlier, cutoff), last);
    }
  }

  lemma BoardWithOneMore(seen: map<string, Version>, v: Version)
    ensures BoardOf(seen[v.game.gameId := v]) == BoardOf(seen)[v.game.gameId := v.game]
  {
  }

  lemma LastReplaces(versions: seq<Version>, cutoff: int)
    requires History(versions) && versions != [] && Visible(versions[|versions| - 1], cutoff)
    ensures var earlier, last := versions[..|versions| - 1], versions[|versions| - 1];
            Candidates(versions, cutoff) == Candidates(earlier, cutoff)[last.game.gameId := last]
  {
    var earlier, last := versions[..|versions| - 1], versions[|versions| - 1];
    NewestOfAll(versions);
    CandidatesAreLatest(earlier, cutoff, last.game.gameId);
  }

  /** Every stored version was observed after kickoff and no later than it was committed, so a cutoff at or after the
      commits sees them all. */
  lemma SnapshotAgreesWithCards(calls: seq<Call>, n: nat, gameId: string, teams: seq<string>, season: int, cutoff: int,
                                kickoff: int, team: string)
    requires n <= |calls| && team in teams
    requires forall v <- Versions(calls, n) :: v.game.temporal == PostgameObserved && v.committed <= cutoff
    ensures var t := After(calls, n).tables;
            var shot := SnapshotOf(t.versions, gameId, teams, season, cutoff, kickoff);
            && BoardAt(t.versions, cutoff) == t.current
            && team in shot.teamState
            && if (team, season) in t.cards
               then var c := t.cards[(team, season)];
                    shot.teamState[team] == TeamState(c.games, c.offense, c.defense)
                    && forall g <- c.versions :: g in shot.versions
               else shot.teamState[team].games == 0
  {
    ReachableCoherent(calls, n);
    var t := After(calls, n).tables;
    assert forall v <- t.versions :: SoundVersion(v) && Visible(v, cutoff);
    AllVisiblePicksHeads(t.versions, cutoff);
    StateIsCard(t.current, team, season);
    if (team, season) in t.cards {
      CardFound(t.current, (team, season));
      forall g | g in t.cards[(team, season)].versions
        ensures g in Relevant(t.current, teams, season)
      {
        CardListsGames(t.current, team, season, g);
      }
    } else {
      NoCardNoGames(t.current, team, season);
    }
  }

  lemma StateIsCard(board: Board, team: string, season: int)
    ensures var c := CardOf(board, team, season);
            StateOf(board, team, season) == TeamState(c.games, c.offense, c.defense)
  {
  }

  lemma NoCardNoGames(board: Board, team: string, season: int)
    requires (team, season) !in AllCards(board)
    ensures StateOf(board, team, season).games == 0
  {
    forall id | id in board && board[id].season == season
      ensures !Plays(board[id], team)
    {
      assert Plays(board[id], team) <==> (team, season) in KeysOf(board[id]);
    }
    assert Schedule(board, team, season) == {};
  }
}
