/** What a run of the ledger never undoes: versions are appended, pointers move forward, every commit is announced
    exactly three times, and health stays clean. */
module LedgerHistory {
  import opened Cards
  import opened Games
  import opened LedgerRuns
  import opened LedgerStore
  import Runs

  ghost function Versions(calls: seq<Call>, n: nat): seq<Version>
    requires n <= |calls|
  {
    After(calls, n).tables.versions
  }

  lemma StepAppends(s: Store, c: Call)
    ensures s.tables.versions <= Apply(s, c).tables.versions
  {
    OnlyCommitsCount(s, c);
  }

  lemma AppendOnly(calls: seq<Call>, m: nat, n: nat)
    requires m <= n <= |calls|
    ensures Versions(calls, m) <= Versions(calls, n)
  {
    forall k | m <= k < n {
      StepAppends(After(calls, k), calls[k]);
    }
    Runs.Respects(LedgerStore.Apply, EMPTY, calls, m, n,
                  (s: Store, t: Store) => s.tables.versions <= t.tables.versions);
  }

  /** The stored version a pointer names. */
  ghost predicate PointsTo(versions: seq<Version>, id: string, v: Version) {
    IsLast(versions, id, v) && id in Heads(versions) && Heads(versions)[id] == v.game
  }

  lemma LaterHead(earlier: seq<Version>, versions: seq<Version>, id: string) returns (v: Version, w: Version)
    requires earlier <= versions && History(earlier) && History(versions) && id in Heads(earlier)
    ensures PointsTo(earlier, id, v) && PointsTo(versions, id, w)
    ensures if v.game == w.game then v == w else v.observed < w.observed
  {
    var head := HeadIsGreatest(earlier, id);
    v := head.value;
    assert v in versions;
    head := HeadIsGreatest(versions, id);
    w := head.value;
    SameGameSameVersion(versions, v, w);
  }

  lemma SameGameSameVersion(versions: seq<Version>, v: Version, w: Version)
    requires History(versions) && v in versions && w in versions
    ensures v.game == w.game ==> v == w
  {
    if v != w {
      var i, j :| 0 <= i < |versions| && 0 <= j < |versions| && versions[i] == v && versions[j] == w;
      if i < j {
        assert Ordered(versions[i], versions[j]);
      } else {
        assert Ordered(versions[j], versions[i]);
      }
    }
  }

  /** The pointer of a game only moves to later observations. */
  lemma PointerForward(calls: seq<Call>, m: nat, n: nat, id: string) returns (v: Version, w: Version)
    requires m <= n <= |calls| && id in After(calls, m).tables.current
    ensures id in After(calls, n).tables.current
    ensures PointsTo(Versions(calls, m), id, v) && After(calls, m).tables.current[id] == v.game
    ensures PointsTo(Versions(calls, n), id, w) && After(calls, n).tables.current[id] == w.game
    ensures if v.game == w.game then v == w else v.observed < w.observed
  {
    AppendOnly(calls, m, n);
    ReachableCoherent(calls, m);
    ReachableCoherent(calls, n);
    v, w := LaterHead(Versions(calls, m), Versions(calls, n), id);
  }

  /** Whatever order evidence and replays arrive in, a superseded version is never current again. */
  lemma SupersededForGood(calls: seq<Call>, m: nat, n: nat, k: nat, id: string)
    requires m <= n <= k <= |calls| && id in After(calls, m).tables.current
    requires id in After(calls, n).tables.current
    requires After(calls, n).tables.current[id] != After(calls, m).tables.current[id]
    ensures id in After(calls, k).tables.current
    ensures After(calls, k).tables.current[id] != After(calls, m).tables.current[id]
  {
    var v, w := PointerForward(calls, m, n, id);
    var w', x := PointerForward(calls, n, k, id);
    AppendOnly(calls, n, k);
    ReachableCoherent(calls, k);
    assert w.observed <= x.observed && v.observed < w.observed by {
      SameHead(Versions(calls, n), id, w, w');
    }
    if x.game == v.game {
      AppendOnly(calls, m, k);
      assert v in Versions(calls, k) && x in Versions(calls, k);
      SameGameSameVersion(Versions(calls, k), v, x);
    }
  }

  lemma SameHead(versions: seq<Version>, id: string, v: Version, w: Version)
    requires IsLast(versions, id, v) && IsLast(versions, id, w)
    ensures v == w
  {
  }

  /** Versions of one game have pairwise distinct observation times. */
  lemma DistinctObservations(calls: seq<Call>, n: nat, i: nat, j: nat)
    requires n <= |calls| && i < j < |Versions(calls, n)|
    requires Versions(calls, n)[i].game.gameId == Versions(calls, n)[j].game.gameId
    ensures Versions(calls, n)[i].observed < Versions(calls, n)[j].observed
    ensures Versions(calls, n)[i].game != Versions(calls, n)[j].game
  {
    ReachableCoherent(calls, n);
    assert Ordered(Versions(calls, n)[i], Versions(calls, n)[j]);
  }

  /** Every stored version keeps its raw evidence. */
  lemma EvidenceKept(calls: seq<Call>, n: nat)
    requires n <= |calls|
    ensures Archived(After(calls, n))
  {
    forall s: Store, c | Archived(s)
      ensures Archived(LedgerStore.Apply(s, c))
    {
      StepArchived(s, c, LedgerStore.Apply(s, c));
    }
    Runs.Invariant(LedgerStore.Apply, EMPTY, calls, n, (s: Store) => Archived(s));
  }

  lemma StepArchived(s: Store, c: Call, s': Store)
    requires Archived(s) && s' == Apply(s, c)
    ensures Archived(s')
  {
    OnlyCommitsCount(s, c);
  }

  // ---- exactly-once notices ----

  function Once(present: bool): nat {
    if present then 1 else 0
  }

  lemma ThreeDistinct(g: Game, x: Notice)
    ensures multiset(NoticesOf(g))[x] == Once(x in NoticesOf(g))
    ensures x in NoticesOf(g) ==> x.version == g
  {
    var three := NoticesOf(g);
    assert three == [three[0], three[1], three[2]];
    assert multiset(three) == multiset{three[0], three[1], three[2]};
  }

  lemma {:induction false} NoticeCount(versions: seq<Version>, x: Notice)
    requires History(versions)
    ensures multiset(Notices(versions))[x] == Once(Stored(versions, x.version) && x in NoticesOf(x.version))
    ensures |Notices(versions)| == 3 * |versions|
  {
    if versions != [] {
      var earlier, last := versions[..|versions| - 1], versions[|versions| - 1];
      NewestOfAll(versions);
      NoticeCount(earlier, x);
      ThreeDistinct(last.game, x);
      StoredStep(versions, x.version);
      assert multiset(Notices(earlier) + NoticesOf(last.game)) ==
             multiset(Notices(earlier)) + multiset(NoticesOf(last.game));
    }
  }

  lemma StoredStep(versions: seq<Version>, g: Game)
    requires History(versions) && versions != []
    ensures var earlier, last := versions[..|versions| - 1], versions[|versions| - 1].game;
            && (Stored(versions, g) <==> Stored(earlier, g) || g == last)
            && !Stored(earlier, last)
  {
    NewestOfAll(versions);
    assert versions[|versions| - 1] in versions;
  }

  /** The outbox of every reachable state: each notice of each committed version once, and nothing else. */
  lemma OutboxExactlyOnce(calls: seq<Call>, n: nat, x: Notice)
    requires n <= |calls|
    ensures var t := After(calls, n).tables;
            && multiset(t.outbox)[x] == Once(Stored(t.versions, x.version) && x in NoticesOf(x.version))
            && |t.outbox| == 3 * |t.versions|
  {
    ReachableCoherent(calls, n);
    NoticeCount(Versions(calls, n), x);
  }

  // ---- health ----

  lemma {:induction false} InOrderMembers(board: Board, ids: set<string>)
    requires ids <= board.Keys
    ensures forall g :: g in InOrder(board, ids) <==> exists id :: id in ids && board[id] == g
    decreases |ids|
  {
    if ids != {} {
      var first := Earliest(board, ids);
      InOrderMembers(board, ids - {first});
      forall g
        ensures g in InOrder(board, ids) <==> exists id :: id in ids && board[id] == g
      {
        assert g in InOrder(board, ids) <==> g == board[first] || g in InOrder(board, ids - {first});
        if id :| id in ids && board[id] == g {
          assert id != first ==> id in ids - {first};
        }
      }
    }
  }

  /** A card lists exactly its team's current games of the season. */
  lemma CardListsGames(board: Board, team: string, season: int, g: Game)
    ensures g in CardOf(board, team, season).versions <==>
            exists id :: id in board && board[id] == g && g.season == season && Plays(g, team)
  {
    var ids := Schedule(board, team, season);
    InOrderMembers(board, ids);
    if id :| id in board && board[id] == g && g.season == season && Plays(g, team) {
      assert id in ids;
    }
  }

  /** Health reports no missing and no stale card in any reachable state. */
  lemma HealthClean(calls: seq<Call>, n: nat)
    requires n <= |calls|
    ensures StaleGames(After(calls, n).tables) == {}
  {
    ReachableCoherent(calls, n);
    CoherentClean(After(calls, n).tables);
  }

  lemma CoherentClean(t: Tables)
    requires t.cards == AllCards(t.current)
    ensures StaleGames(t) == {}
  {
    forall id, team | id in t.current && team in TeamIds(t.current[id])
      ensures !Affected(t.cards, t.current[id], team)
    {
      NotAffected(t.current, t.cards, id, team);
    }
  }

  lemma NotAffected(board: Board, cards: map<CardKey, Card>, id: string, team: string)
    requires cards == AllCards(board) && id in board && team in TeamIds(board[id])
    ensures !Affected(cards, board[id], team)
  {
    KeyPresent(board, id, team);
    CardComplete(board, id, (team, board[id].season));
  }

  lemma CardComplete(board: Board, id: string, k: CardKey)
    requires k in CardKeys(board) && id in board && k == (k.0, board[id].season) && Plays(board[id], k.0)
    ensures var card := AllCards(board)[k];
            card.team == k.0 && card.season == k.1 && board[id] in card.versions
  {
    CardFound(board, k);
    CardListsGames(board, k.0, k.1, board[id]);
  }

  lemma KeyPresent(board: Board, id: string, team: string)
    requires id in board && team in TeamIds(board[id])
    ensures (team, board[id].season) in CardKeys(board)
  {
    assert (team, board[id].season) in KeysOf(board[id]);
  }

  lemma CardFound(board: Board, k: CardKey)
    requires k in CardKeys(board)
    ensures k in AllCards(board) && AllCards(board)[k] == CardOf(board, k.0, k.1)
  {
  }
}
