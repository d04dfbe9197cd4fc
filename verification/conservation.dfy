/** League-wide conservation over all current cards of a season, by counting each game from both sides. */
module Conservation {
  import opened Aggregates
  import opened Cards
  import opened Games
  import opened LedgerHistory
  import opened LedgerRuns
  import opened LedgerStore
  import opened Sums

  /** What a game contributes to one team's card. */
  type Contribution = (Game, string) -> real

  function Flag(b: bool): real {
    if b then 1.0 else 0.0
  }

  function WinOf(): Contribution { (g: Game, team: string) => Flag(Margin(g, team) > 0) }
  function LossOf(): Contribution { (g: Game, team: string) => Flag(Margin(g, team) < 0) }
  function TieOf(): Contribution { (g: Game, team: string) => Flag(Margin(g, team) == 0) }
  function PlayOf(): Contribution { (g: Game, team: string) => 1.0 }
  function OffenseOf(key: string): Contribution { (g: Game, team: string) => Amount(key)(Own(g, team).metrics) }
  function DefenseOf(key: string): Contribution { (g: Game, team: string) => Amount(key)(Opponent(g, team).metrics) }

  function Along(games: seq<Game>, team: string, c: Contribution): real {
    if games == [] then 0.0 else c(games[0], team) + Along(games[1..], team, c)
  }

  // ---- a card's numbers are sums of contributions ----

  lemma {:induction false} RecordSums(games: seq<Game>, team: string)
    ensures RecordOf(games, team).wins as real == Along(games, team, WinOf())
    ensures RecordOf(games, team).losses as real == Along(games, team, LossOf())
    ensures RecordOf(games, team).ties as real == Along(games, team, TieOf())
    ensures |games| as real == Along(games, team, PlayOf())
  {
    if games != [] {
      RecordSums(games[1..], team);
    }
  }

  lemma {:induction false} TotalSums(games: seq<Game>, team: string, key: string)
    ensures Total(OwnMetrics(games, team), Amount(key)) == Along(games, team, OffenseOf(key))
    ensures Total(OpponentMetrics(games, team), Amount(key)) == Along(games, team, DefenseOf(key))
  {
    if games != [] {
      TotalSums(games[1..], team, key);
      assert OwnMetrics(games, team)[1..] == OwnMetrics(games[1..], team);
      assert OpponentMetrics(games, team)[1..] == OpponentMetrics(games[1..], team);
    }
  }

  /** A missing total stands for nothing added. */
  function TotalIn(entries: map<string, Entry>, key: string): real {
    if key in entries && entries[key].Stat? && entries[key].total.Some? then entries[key].total.value else 0.0
  }

  lemma {:induction false} NothingKnown(records: seq<Metrics>, key: string)
    requires CountIf(records, Has(key)) == 0
    ensures Total(records, Amount(key)) == 0.0
  {
    if records != [] {
      NothingKnown(records[1..], key);
    }
  }

  lemma {:induction false} UnlistedUnknown(records: seq<Metrics>, key: string)
    requires forall m <- records :: key !in m
    ensures CountIf(records, Has(key)) == 0
  {
    if records != [] {
      UnlistedUnknown(records[1..], key);
    }
  }

  lemma AdditiveTotal(records: seq<Metrics>, key: string)
    requires key in ADDITIVE
    ensures TotalIn(Aggregate(records), key) == Total(records, Amount(key))
  {
    PlainEntry(records, key);
    if key !in Keys(records) {
      UnlistedUnknown(records, key);
    }
    if CountIf(records, Has(key)) == 0 {
      NothingKnown(records, key);
    }
  }

  /** The ratios do not hide the entry of an additive metric. */
  lemma PlainEntry(records: seq<Metrics>, key: string)
    requires key in ADDITIVE
    ensures key in Aggregate(records) <==> key in Keys(records)
    ensures key in Keys(records) ==> Aggregate(records)[key] == StatOf(records, key)
  {
    RatioNotAdditive(key);
    assert key in Keys(records) ==> Stats(records)[key] == StatOf(records, key);
  }

  // ---- from one card to the set of its games ----

  /** A game's contribution to the card `k`: nothing unless the team played in it that season. */
  function Weight(board: Board, c: Contribution): (string, CardKey) -> real {
    (id: string, k: CardKey) =>
      if id in board && board[id].season == k.1 && Plays(board[id], k.0) then c(board[id], k.0) else 0.0
  }

  lemma {:induction false} AlongInOrder(board: Board, ids: set<string>, k: CardKey, c: Contribution)
    requires ids <= Schedule(board, k.0, k.1)
    ensures Along(InOrder(board, ids), k.0, c) == Sum(ids, At(Weight(board, c), k))
    decreases |ids|
  {
    if ids != {} {
      var first := Earliest(board, ids);
      AlongInOrder(board, ids - {first}, k, c);
      SumTakeOut(ids, At(Weight(board, c), k), first);
      assert InOrder(board, ids) == [board[first]] + InOrder(board, ids - {first});
      AlongOneMore(board[first], InOrder(board, ids - {first}), k.0, c);
    }
  }

  lemma AlongOneMore(g: Game, games: seq<Game>, team: string, c: Contribution)
    ensures Along([g] + games, team, c) == c(g, team) + Along(games, team, c)
  {
    assert ([g] + games)[1..] == games;
  }

  function SeasonGames(board: Board, season: int): set<string> {
    set id | id in board && board[id].season == season
  }

  function SeasonKeys(board: Board, season: int): set<CardKey> {
    set k | k in CardKeys(board) && k.1 == season
  }

  lemma CardIsSum(board: Board, k: CardKey, c: Contribution)
    ensures Along(Season(board, k.0, k.1), k.0, c) == Sum(SeasonGames(board, k.1), At(Weight(board, c), k))
  {
    AlongInOrder(board, Schedule(board, k.0, k.1), k, c);
    SumRestrict(SeasonGames(board, k.1), Schedule(board, k.0, k.1), At(Weight(board, c), k));
  }

  // ---- every game is counted once from each side ----

  function BothSides(board: Board, c: Contribution): string -> real {
    (id: string) =>
      if id in board then c(board[id], board[id].teams[0].id) + c(board[id], board[id].teams[1].id) else 0.0
  }

  function OnCard(board: Board, c: Contribution): CardKey -> real {
    (k: CardKey) => Along(Season(board, k.0, k.1), k.0, c)
  }

  lemma TwoSides(board: Board, season: int, id: string, c: Contribution)
    requires id in SeasonGames(board, season)
    ensures Sum(SeasonKeys(board, season), At(Swapped(Weight(board, c)), id)) == BothSides(board, c)(id)
  {
    var g, f := board[id], At(Swapped(Weight(board, c)), id);
    BothKeysPresent(board, season, id);
    OthersWeighNothing(board, season, id, c, f);
    SideWeights(board, id, c, f);
    SumOfTwo(SeasonKeys(board, season), f, FirstKey(g), SecondKey(g));
  }

  lemma SideWeights(board: Board, id: string, c: Contribution, f: CardKey -> real)
    requires id in board && f == At(Swapped(Weight(board, c)), id)
    ensures f(FirstKey(board[id])) + f(SecondKey(board[id])) == BothSides(board, c)(id)
  {
    var g := board[id];
    assert Plays(g, g.teams[0].id) && Plays(g, g.teams[1].id);
    assert f(FirstKey(g)) == Weight(board, c)(id, FirstKey(g));
    assert f(SecondKey(g)) == Weight(board, c)(id, SecondKey(g));
  }

  lemma BothKeysPresent(board: Board, season: int, id: string)
    requires id in SeasonGames(board, season)
    ensures var keys := SeasonKeys(board, season);
            FirstKey(board[id]) in keys && SecondKey(board[id]) in keys && FirstKey(board[id]) != SecondKey(board[id])
  {
    KeyPresent(board, id, board[id].teams[0].id);
    KeyPresent(board, id, board[id].teams[1].id);
  }

  lemma OthersWeighNothing(board: Board, season: int, id: string, c: Contribution, f: CardKey -> real)
    requires id in SeasonGames(board, season) && f == At(Swapped(Weight(board, c)), id)
    ensures forall k <- SeasonKeys(board, season) ::
              k != FirstKey(board[id]) && k != SecondKey(board[id]) ==> f(k) == 0.0
  {
    forall k | k in SeasonKeys(board, season) && k != FirstKey(board[id]) && k != SecondKey(board[id])
      ensures f(k) == 0.0
    {
      NoThirdSide(board[id], k);
    }
  }

  lemma NoThirdSide(g: Game, k: CardKey)
    requires k.1 == g.season && k != FirstKey(g) && k != SecondKey(g)
    ensures !Plays(g, k.0)
  {
    assert k == (k.0, g.season);
  }

  lemma EachGameFromBothSides(board: Board, season: int, c: Contribution)
    ensures Sum(SeasonKeys(board, season), OnCard(board, c)) == Sum(SeasonGames(board, season), BothSides(board, c))
  {
    var keys, ids, w := SeasonKeys(board, season), SeasonGames(board, season), Weight(board, c);
    forall k | k in keys
      ensures OnCard(board, c)(k) == Over(ids, w)(k)
    {
      CardIsSum(board, k, c);
    }
    SumEqual(keys, OnCard(board, c), Over(ids, w));
    SumSwap(ids, keys, w);
    forall id | id in ids
      ensures Over(keys, Swapped(w))(id) == BothSides(board, c)(id)
    {
      TwoSides(board, season, id, c);
    }
    SumEqual(ids, Over(keys, Swapped(w)), BothSides(board, c));
  }

  // ---- the laws ----

  function WinsOn(cards: map<CardKey, Card>): CardKey -> real {
    (k: CardKey) => if k in cards then cards[k].record.wins as real else 0.0
  }
  function LossesOn(cards: map<CardKey, Card>): CardKey -> real {
    (k: CardKey) => if k in cards then cards[k].record.losses as real else 0.0
  }
  function TiesOn(cards: map<CardKey, Card>): CardKey -> real {
    (k: CardKey) => if k in cards then cards[k].record.ties as real else 0.0
  }
  function GamesOn(cards: map<CardKey, Card>): CardKey -> real {
    (k: CardKey) => if k in cards then cards[k].games as real else 0.0
  }
  function OffenseOn(cards: map<CardKey, Card>, key: string): CardKey -> real {
    (k: CardKey) => if k in cards then TotalIn(cards[k].offense, key) else 0.0
  }
  function DefenseOn(cards: map<CardKey, Card>, key: string): CardKey -> real {
    (k: CardKey) => if k in cards then TotalIn(cards[k].defense, key) else 0.0
  }

  function Tied(board: Board): string -> real {
    (id: string) => Flag(id in board && Margin(board[id], board[id].teams[0].id) == 0)
  }

  function Doubled(f: string -> real): string -> real {
    id => 2.0 * f(id)
  }

  lemma {:induction false} SumDoubled(s: set<string>, f: string -> real)
    ensures Sum(s, Doubled(f)) == 2.0 * Sum(s, f)
  {
    SumAdds(s, f, f, Doubled(f));
  }

  function One(): string -> real { (id: string) => 1.0 }

  lemma {:induction false} SumOfOnes(s: set<string>)
    ensures Sum(s, One()) == |s| as real
  {
    if s != {} {
      var x :| x in s;
      SumTakeOut(s, One(), x);
      SumOfOnes(s - {x});
    }
  }

  lemma CardNumbers(board: Board, k: CardKey, key: string)
    requires k in CardKeys(board)
    ensures var cards := AllCards(board);
            && WinsOn(cards)(k) == OnCard(board, WinOf())(k)
            && LossesOn(cards)(k) == OnCard(board, LossOf())(k)
            && TiesOn(cards)(k) == OnCard(board, TieOf())(k)
            && GamesOn(cards)(k) == OnCard(board, PlayOf())(k)
            && (key in ADDITIVE ==>
                  && OffenseOn(cards, key)(k) == OnCard(board, OffenseOf(key))(k)
                  && DefenseOn(cards, key)(k) == OnCard(board, DefenseOf(key))(k))
  {
    var games := Season(board, k.0, k.1);
    CardFound(board, k);
    RecordSums(games, k.0);
    if key in ADDITIVE {
      TotalSums(games, k.0, key);
      AdditiveTotal(OwnMetrics(games, k.0), key);
      AdditiveTotal(OpponentMetrics(games, k.0), key);
    }
  }

  /** Two numbers on the cards whose contributions cancel within every game have equal season sums. */
  lemma Balanced(board: Board, season: int, f: CardKey -> real, g: CardKey -> real, c: Contribution, d: Contribution)
    requires forall k <- SeasonKeys(board, season) :: f(k) == OnCard(board, c)(k) && g(k) == OnCard(board, d)(k)
    requires forall id <- SeasonGames(board, season) :: BothSides(board, c)(id) == BothSides(board, d)(id)
    ensures Sum(SeasonKeys(board, season), f) == Sum(SeasonKeys(board, season), g)
  {
    var keys, ids := SeasonKeys(board, season), SeasonGames(board, season);
    SumEqual(keys, f, OnCard(board, c));
    SumEqual(keys, g, OnCard(board, d));
    EachGameFromBothSides(board, season, c);
    EachGameFromBothSides(board, season, d);
    SumEqual(ids, BothSides(board, c), BothSides(board, d));
  }

  function CardsOfSeason(t: Tables, season: int): set<CardKey> {
    set k | k in t.cards && k.1 == season
  }

  /** Over all current cards of the season: wins equal losses, ties come in pairs, and every game is on two cards. */
  ghost predicate Conserved(t: Tables, season: int) {
    var keys, ids := CardsOfSeason(t, season), SeasonGames(t.current, season);
    && Sum(keys, WinsOn(t.cards)) == Sum(keys, LossesOn(t.cards))
    && Sum(keys, TiesOn(t.cards)) == 2.0 * Sum(ids, Tied(t.current))
    && Sum(keys, GamesOn(t.cards)) == 2.0 * |ids| as real
  }

  /** What the offenses gained is what the defenses gave up. */
  ghost predicate OffenseIsDefense(t: Tables, season: int, key: string) {
    Sum(CardsOfSeason(t, season), OffenseOn(t.cards, key)) == Sum(CardsOfSeason(t, season), DefenseOn(t.cards, key))
  }

  /** In every reachable state, for every season and additive metric. */
  lemma SeasonConserved(calls: seq<Call>, n: nat, season: int, key: string)
    requires n <= |calls|
    ensures Conserved(After(calls, n).tables, season)
    ensures key in ADDITIVE ==> OffenseIsDefense(After(calls, n).tables, season, key)
  {
    ReachableCoherent(calls, n);
    TablesConserved(After(calls, n).tables, season);
    if key in ADDITIVE {
      TablesBalanced(After(calls, n).tables, season, key);
    }
  }

  lemma TablesConserved(t: Tables, season: int)
    requires t.cards == AllCards(t.current)
    ensures Conserved(t, season)
  {
    assert CardsOfSeason(t, season) == SeasonKeys(t.current, season);
    BoardConserved(t.current, season);
  }

  lemma BoardConserved(board: Board, season: int)
    ensures var (cards, keys, ids) := (AllCards(board), SeasonKeys(board, season), SeasonGames(board, season));
            && Sum(keys, WinsOn(cards)) == Sum(keys, LossesOn(cards))
            && Sum(keys, TiesOn(cards)) == 2.0 * Sum(ids, Tied(board))
            && Sum(keys, GamesOn(cards)) == 2.0 * |ids| as real
  {
    var cards, keys, ids := AllCards(board), SeasonKeys(board, season), SeasonGames(board, season);
    forall k | k in keys {
      CardNumbers(board, k, "");
    }
    Balanced(board, season, WinsOn(cards), LossesOn(cards), WinOf(), LossOf());
    SumEqual(keys, TiesOn(cards), OnCard(board, TieOf()));
    CountedTwice(board, season, TieOf(), Tied(board));
    SumEqual(keys, GamesOn(cards), OnCard(board, PlayOf()));
    CountedTwice(board, season, PlayOf(), One());
    SumOfOnes(ids);
  }

  /** What both sides of a game count, the season's cards count twice. */
  lemma CountedTwice(board: Board, season: int, c: Contribution, f: string -> real)
    requires forall id <- SeasonGames(board, season) :: BothSides(board, c)(id) == Doubled(f)(id)
    ensures Sum(SeasonKeys(board, season), OnCard(board, c)) == 2.0 * Sum(SeasonGames(board, season), f)
  {
    EachGameFromBothSides(board, season, c);
    SumEqual(SeasonGames(board, season), BothSides(board, c), Doubled(f));
    SumDoubled(SeasonGames(board, season), f);
  }

  lemma GainedIsGiven(board: Board, id: string, key: string)
    ensures BothSides(board, OffenseOf(key))(id) == BothSides(board, DefenseOf(key))(id)
  {
    if id in board {
      var g := board[id];
      var home, away := g.teams[0].id, g.teams[1].id;
      assert Own(g, home) == Opponent(g, away) && Own(g, away) == Opponent(g, home);
      assert OffenseOf(key)(g, home) == DefenseOf(key)(g, away);
      assert OffenseOf(key)(g, away) == DefenseOf(key)(g, home);
    }
  }

  lemma TablesBalanced(t: Tables, season: int, key: string)
    requires t.cards == AllCards(t.current) && key in ADDITIVE
    ensures OffenseIsDefense(t, season, key)
  {
    var keys := SeasonKeys(t.current, season);
    assert CardsOfSeason(t, season) == keys;
    forall k | k in keys {
      CardNumbers(t.current, k, key);
    }
    forall id | id in SeasonGames(t.current, season) {
      GainedIsGiven(t.current, id, key);
    }
    Balanced(t.current, season, OffenseOn(t.cards, key), DefenseOn(t.cards, key), OffenseOf(key), DefenseOf(key));
  }
}
