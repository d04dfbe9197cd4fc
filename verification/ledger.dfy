/** The ledger object itself: its methods write the tables step by step, inside transactions that can fail. */
module PostgameLedger {
  import opened Aggregates
  import opened Cards
  import opened Directories
  import opened Games
  import opened LedgerStore
  import opened Wrappers

  const KINDS: seq<Kind> := [CacheInvalidation, ModelStateResearchRefresh, DependentRatingsRecompute]

  class Ledger {
    var db: Store

    constructor ()
      ensures db == EMPTY
    {
      db := EMPTY;
    }

    method State(id: string, state: JobState, at: int, fault: Option<Fault>)
      modifies this
      ensures db == old(db).(jobs := Note(old(db).jobs, id, state, at, fault))
    {
      var attempts := if id in db.jobs then db.jobs[id].attempts + 1 else 1;
      db := db.(jobs := db.jobs[id := Job(state, attempts, fault, at)]);
    }

    method Discover(id: string, status: string, at: int) returns (known: bool)
      modifies this
      ensures known == KnownStatus(status) && db == LedgerStore.Discover(old(db), id, status, at)
    {
      known := KnownStatus(status);
      if known && !(id in db.jobs && db.jobs[id].state in {Verified, Corrected}) {
        State(id, Discovered(if status == "FINAL" then "FINAL_DETECTED" else status), at, None);
      }
    }

    method Process(p: Payload, directory: Directory, memberships: Memberships, at: int, failAt: Option<nat>)
      returns (answer: Outcome)
      modifies this
      ensures (db, answer) == LedgerStore.Process(old(db), p, directory, memberships, at, failAt)
    {
      db := db.(raw := db.raw + {p});
      State(p.content.gameId, Validating, at, None);
      var judgement := Judge(db.tables, p, directory, memberships, at);
      answer := Act(p, judgement, at, failAt);
    }

    method Act(p: Payload, judgement: Judgement, at: int, failAt: Option<nat>) returns (answer: Outcome)
      requires Ready(db.tables, p, judgement)
      modifies this
      ensures db == old(db).(tables := NextTables(old(db).tables, p, judgement, at, failAt),
                             jobs := NextJobs(old(db).jobs, p.content.gameId,
                                              p.content.gameId in old(db).tables.current, judgement, at, failAt))
      ensures answer == Answer(old(db).tables, p, judgement, failAt)
    {
      var id := p.content.gameId;
      match judgement {
        case Refuse(fault) =>
          State(id, StateAfter(fault), at, Some(fault));
          answer := Raised(fault);
        case Repoll =>
          State(id, Verified, at, None);
          answer := Returned(db.tables.current[id]);
        case Fresh =>
          var corrects := id in db.tables.current;
          var committed := Transaction(p, at, failAt);
          if committed {
            db := db.(jobs := Close(db.jobs, id, if corrects then Corrected else Verified, at));
            answer := Returned(p.content);
          } else {
            State(id, RetryPending, at, Some(Injected));
            answer := Raised(Injected);
          }
      }
    }

    /** The versioning transaction. A failure after either card rolls every table back. */
    method Transaction(p: Payload, at: int, failAt: Option<nat>) returns (committed: bool)
      requires Settled(p.content)
      modifies this
      ensures committed == !Injects(failAt)
      ensures db == if committed then old(db).(tables := Commit(old(db).tables, p, at)) else old(db)
    {
      var g: Game := p.content;
      var before := db;
      var t := before.tables;
      db := db.(tables := t.(versions := t.versions + [Version(g, p.observed, p, at)],
                             current := t.current[g.gameId := g]));
      committed := RebuildCards(g, at, failAt, CardAt(db.tables.current));
      if committed {
        Announce(g);
      } else {
        db := before;
      }
    }

    /** Rebuild the participants' cards one by one; `rebuild` is the full recomputation from the pointers. */
    method RebuildCards(g: Game, at: int, failAt: Option<nat>, rebuild: CardKey -> Card) returns (done: bool)
      modifies this
      ensures done == !Injects(failAt)
      ensures done ==> db == Rebuilt(Rebuilt(old(db), FirstKey(g), rebuild, at), SecondKey(g), rebuild, at)
    {
      for index := 0 to 2
        invariant index == 0 ==> db == old(db)
        invariant index >= 1 ==> failAt != Some(0)
        invariant index == 1 ==> db == Rebuilt(old(db), FirstKey(g), rebuild, at)
        invariant index == 2 ==>
                    && failAt != Some(1)
                    && db == Rebuilt(Rebuilt(old(db), FirstKey(g), rebuild, at), SecondKey(g), rebuild, at)
      {
        var key := (g.teams[index].id, g.season);
        var card := rebuild(key);
        var t := db.tables;
        db := db.(tables := t.(cardVersions := Publish(t.cardVersions, card, at), cards := t.cards[key := card]));
        if failAt == Some(index) {
          return false;
        }
      }
      return true;
    }

    method Announce(g: Game)
      modifies this
      ensures db == old(db).(tables := old(db).tables.(outbox := old(db).tables.outbox + NoticesOf(g)))
    {
      var teams := [g.teams[0].id, g.teams[1].id];
      for i := 0 to |KINDS|
        invariant db == old(db).(tables := old(db).tables.(outbox := old(db).tables.outbox + NoticesOf(g)[..i]))
      {
        var t := db.tables;
        db := db.(tables := t.(outbox := t.outbox + [Notice(KINDS[i], g, g.gameId, teams)]));
      }
      assert NoticesOf(g)[..|KINDS|] == NoticesOf(g);
    }

    /** The scan that selects, game by game, the latest version visible at the cutoff. */
    method Scan(cutoff: int) returns (seen: map<string, Version>, order: seq<string>)
      ensures seen == Candidates(db.tables.versions, cutoff)
      ensures Enumerates(order, seen.Keys)
    {
      seen, order := map[], [];
      var versions := db.tables.versions;
      for i := 0 to |versions|
        invariant seen == Candidates(versions[..i], cutoff) && Enumerates(order, seen.Keys)
      {
        var v := versions[i];
        assert versions[..i + 1][..i] == versions[..i];
        if Visible(v, cutoff) && (v.game.gameId !in seen || v.observed > seen[v.game.gameId].observed) {
          if v.game.gameId !in seen {
            order := order + [v.game.gameId];
          }
          seen := seen[v.game.gameId := v];
        }
      }
      assert versions[..|versions|] == versions;
    }

    method Snapshot(gameId: string, teams: seq<string>, season: int, cutoff: int, kickoff: int)
      returns (body: Option<Snapshot>)
      modifies this
      ensures (db, body) == TakeSnapshot(old(db), gameId, teams, season, cutoff, kickoff)
    {
      if cutoff >= kickoff {
        return None;
      }
      var seen, order := Scan(cutoff);
      var teamState := Accounts(seen, order, teams, season);
      var versions := Relevant(BoardOf(seen), teams, season);
      var shot := LedgerStore.Snapshot(gameId, cutoff, kickoff, season, teams, versions, teamState);
      db := db.(snapshots := db.snapshots + {shot});
      return Some(shot);
    }
  }

  function Rebuilt(s: Store, k: CardKey, rebuild: CardKey -> Card, at: int): Store {
    s.(tables := s.tables.(cardVersions := Publish(s.tables.cardVersions, rebuild(k), at),
                           cards := s.tables.cards[k := rebuild(k)]))
  }

  /** One team's own and opposing metrics, collected over the selected games in the order they were found. */
  method Collect(seen: map<string, Version>, order: seq<string>, team: string, season: int)
    returns (own: seq<Metrics>, opponents: seq<Metrics>)
    requires Enumerates(order, seen.Keys)
    ensures var mine := Mine(BoardOf(seen), order, Schedule(BoardOf(seen), team, season));
            own == OwnMetrics(mine, team) && opponents == OpponentMetrics(mine, team)
  {
    own, opponents := [], [];
    ghost var board := BoardOf(seen);
    ghost var wanted := Schedule(board, team, season);
    ghost var mine: seq<Game> := [];
    for i := 0 to |order|
      invariant mine == Mine(board, order[..i], wanted)
      invariant own == OwnMetrics(mine, team) && opponents == OpponentMetrics(mine, team)
    {
      var g := seen[order[i]].game;
      assert order[..i + 1][..i] == order[..i];
      assert order[i] in wanted <==> g.season == season && Plays(g, team);
      if g.season == season && Plays(g, team) {
        own := own + [Own(g, team).metrics];
        opponents := opponents + [Opponent(g, team).metrics];
        OneMoreGame(mine, g, team);
        mine := mine + [g];
      }
    }
    assert order[..|order|] == order;
  }

  lemma OneMoreGame(games: seq<Game>, g: Game, team: string)
    ensures OwnMetrics(games + [g], team) == OwnMetrics(games, team) + [Own(g, team).metrics]
    ensures OpponentMetrics(games + [g], team) == OpponentMetrics(games, team) + [Opponent(g, team).metrics]
  {
  }

  method Accumulate(seen: map<string, Version>, order: seq<string>, team: string,
                    season: int) returns (state: TeamState)
    requires Enumerates(order, seen.Keys)
    ensures state == StateAt(BoardOf(seen), season)(team)
  {
    var own, opponents := Collect(seen, order, team, season);
    AnyOrderWillDo(BoardOf(seen), order, team, season);
    return TeamState(|own|, Aggregate(own), Aggregate(opponents));
  }

  method Accounts(seen: map<string, Version>, order: seq<string>, teams: seq<string>, season: int)
    returns (states: map<string, TeamState>)
    requires Enumerates(order, seen.Keys)
    ensures states == TeamStates(BoardOf(seen), teams, season)
  {
    ghost var at := StateAt(BoardOf(seen), season);
    states := map[];
    for i := 0 to |teams|
      invariant Tabulates(states, teams[..i], at)
    {
      var state := Accumulate(seen, order, teams[i], season);
      TabulatesOneMore(states, teams, i, at);
      states := states[teams[i] := state];
    }
    assert teams[..|teams|] == teams;
    TableIs(states, (set team | team in teams), at);
  }

  ghost predicate Tabulates<K(!new), V>(table: map<K, V>, keys: seq<K>, f: K -> V) {
    (forall k :: k in table <==> k in keys) && (forall k <- table :: table[k] == f(k))
  }

  lemma TabulatesOneMore<K(!new), V>(table: map<K, V>, keys: seq<K>, i: nat, f: K -> V)
    requires i < |keys| && Tabulates(table, keys[..i], f)
    ensures Tabulates(table[keys[i] := f(keys[i])], keys[..i + 1], f)
  {
    assert keys[..i + 1] == keys[..i] + [keys[i]];
  }

  lemma TableIs<K, V>(table: map<K, V>, keys: set<K>, f: K -> V)
    requires table.Keys == keys && forall k <- table :: table[k] == f(k)
    ensures table == Tabulate(keys, f)
  {
  }

  ghost predicate Enumerates(order: seq<string>, ids: set<string>) {
    && (forall i, j :: 0 <= i < j < |order| ==> order[i] != order[j])
    && (forall id :: id in order <==> id in ids)
  }

  /** The games of `order` whose ids are wanted, in that order. */
  function Mine(board: Board, order: seq<string>, wanted: set<string>): seq<Game>
    requires wanted <= board.Keys
  {
    if order == [] then []
    else
      var earlier, id := Mine(board, order[..|order| - 1], wanted), order[|order| - 1];
      if id in wanted then earlier + [board[id]] else earlier
  }

  /** Taking any one game out of a chronology takes exactly that game out. */
  lemma {:induction false} InOrderTakeOut(board: Board, ids: set<string>, id: string)
    requires ids <= board.Keys && id in ids
    ensures multiset(InOrder(board, ids)) == multiset{board[id]} + multiset(InOrder(board, ids - {id}))
    decreases |ids|
  {
    var first := Earliest(board, ids);
    if id != first {
      InOrderTakeOut(board, ids - {first}, id);
      EarliestUnique(board, ids - {id}, first, Earliest(board, ids - {id}));
      assert ids - {first} - {id} == ids - {id} - {first};
    }
  }

  lemma EnumeratesButLast(order: seq<string>, ids: set<string>)
    requires Enumerates(order, ids) && order != []
    ensures order[|order| - 1] in ids
    ensures Enumerates(order[..|order| - 1], ids - {order[|order| - 1]})
  {
    assert order == order[..|order| - 1] + [order[|order| - 1]];
  }

  lemma {:induction false} MineIsInOrder(board: Board, order: seq<string>, wanted: set<string>, ids: set<string>)
    requires wanted <= board.Keys && Enumerates(order, ids)
    ensures multiset(Mine(board, order, wanted)) == multiset(InOrder(board, ids * wanted))
  {
    if order == [] {
      assert ids == {} by { assert forall id <- ids :: id in order; }
    } else {
      var id := order[|order| - 1];
      EnumeratesButLast(order, ids);
      MineIsInOrder(board, order[..|order| - 1], wanted, ids - {id});
      WantedWithout(ids, wanted, id);
      if id in wanted {
        InOrderTakeOut(board, ids * wanted, id);
      }
    }
  }

  lemma WantedWithout(ids: set<string>, wanted: set<string>, id: string)
    requires id in ids
    ensures (ids - {id}) * wanted == if id in wanted then ids * wanted - {id} else ids * wanted
  {
  }

  lemma {:induction false} MetricsOfPermutation(xs: seq<Game>, ys: seq<Game>, team: string)
    requires multiset(xs) == multiset(ys)
    ensures multiset(OwnMetrics(xs, team)) == multiset(OwnMetrics(ys, team))
    ensures multiset(OpponentMetrics(xs, team)) == multiset(OpponentMetrics(ys, team))
  {
    if xs == [] {
      assert |ys| == |multiset(ys)| == 0;
    } else {
      var i := TakeFirstOut(xs, ys);
      var rest := ys[..i] + ys[i + 1..];
      MetricsOfPermutation(xs[1..], rest, team);
      HeadAndRest(OwnMetrics(xs, team), OwnMetrics(xs[1..], team), OwnMetrics(ys, team), OwnMetrics(rest, team), i);
      HeadAndRest(OpponentMetrics(xs, team), OpponentMetrics(xs[1..], team), OpponentMetrics(ys, team),
                  OpponentMetrics(rest, team), i);
    }
  }

  lemma HeadAndRest<T>(xs: seq<T>, xs': seq<T>, ys: seq<T>, ys': seq<T>, i: nat)
    requires xs != [] && xs' == xs[1..] && i < |ys| && ys[i] == xs[0] && ys' == ys[..i] + ys[i + 1..]
    requires multiset(xs') == multiset(ys')
    ensures multiset(xs) == multiset(ys)
  {
    assert xs == [xs[0]] + xs';
    assert ys == ys[..i] + [ys[i]] + ys[i + 1..];
  }

  lemma MineIsSeason(board: Board, order: seq<string>, team: string, season: int)
    requires Enumerates(order, board.Keys)
    ensures var mine := Mine(board, order, Schedule(board, team, season));
            multiset(mine) == multiset(Season(board, team, season)) && |mine| == |Season(board, team, season)|
  {
    var wanted := Schedule(board, team, season);
    MineIsInOrder(board, order, wanted, board.Keys);
    assert board.Keys * wanted == wanted;
    SameLength(Mine(board, order, wanted), Season(board, team, season));
  }

  lemma SameLength<T>(xs: seq<T>, ys: seq<T>)
    requires multiset(xs) == multiset(ys)
    ensures |xs| == |ys|
  {
    assert |multiset(xs)| == |xs| && |multiset(ys)| == |ys|;
  }

  /** The order games are found in does not matter to a team's state. */
  lemma AnyOrderWillDo(board: Board, order: seq<string>, team: string, season: int)
    requires Enumerates(order, board.Keys)
    ensures var mine := Mine(board, order, Schedule(board, team, season));
            TeamState(|mine|, Aggregate(OwnMetrics(mine, team)), Aggregate(OpponentMetrics(mine, team))) ==
            StateAt(board, season)(team)
  {
    var mine, games := Mine(board, order, Schedule(board, team, season)), Season(board, team, season);
    MineIsSeason(board, order, team, season);
    MetricsOfPermutation(mine, games, team);
    AggregateOrderFree(OwnMetrics(mine, team), OwnMetrics(games, team));
    AggregateOrderFree(OpponentMetrics(mine, team), OpponentMetrics(games, team));
  }
}
