/** Team cards: the full recomputation of one team's season from the current games. */
module Cards {
  import opened Aggregates
  import opened Games
  import opened Sequences
  import Minimum
  import Text

  type Board = map<string, Game>

  predicate Keyed(board: Board) {
    forall id <- board :: board[id].gameId == id
  }

  function Schedule(board: Board, team: string, season: int): set<string> {
    set id | id in board && board[id].season == season && Plays(board[id], team)
  }

  /** `(game_at, game_id)` order. */
  predicate Sooner(board: Board, g: string, h: string) {
    && g in board && h in board
    && (board[g].gameAt.at < board[h].gameAt.at || (board[g].gameAt.at == board[h].gameAt.at && Text.Less(g, h)))
  }

  function Calendar(board: Board): (string, string) -> bool {
    (g, h) => Sooner(board, g, h)
  }

  predicate IsEarliest(board: Board, ids: set<string>, g: string) {
    Minimum.IsFirst(Calendar(board), ids, g)
  }

  lemma SoonerOrders(board: Board, ids: set<string>)
    requires ids <= board.Keys
    ensures Minimum.Orders(Calendar(board), ids)
  {
    forall x, y | x in ids && y in ids
      ensures x == y || Sooner(board, x, y) || Sooner(board, y, x)
    {
      Text.LessTotal(x, y);
    }
    forall x, y, z | Sooner(board, x, y) && Sooner(board, y, z)
      ensures Sooner(board, x, z)
    {
      if board[x].gameAt.at == board[y].gameAt.at == board[z].gameAt.at {
        Text.LessTransitive(x, y, z);
      }
    }
    forall x: string
      ensures !Sooner(board, x, x)
    {
      Text.LessIrreflexive(x);
    }
  }

  lemma EarliestUnique(board: Board, ids: set<string>, g: string, h: string)
    requires ids <= board.Keys && IsEarliest(board, ids, g) && IsEarliest(board, ids, h)
    ensures g == h
  {
    SoonerOrders(board, ids);
    Minimum.FirstUnique(Calendar(board), ids, g, h);
  }

  function Earliest(board: Board, ids: set<string>): (first: string)
    requires ids != {} && ids <= board.Keys
    ensures IsEarliest(board, ids, first)
  {
    assert exists g :: IsEarliest(board, ids, g) by {
      SoonerOrders(board, ids);
      var g := Minimum.FirstExists(Calendar(board), ids);
      assert IsEarliest(board, ids, g);
    }
    assert forall g, h :: IsEarliest(board, ids, g) && IsEarliest(board, ids, h) ==> g == h by {
      forall g, h | IsEarliest(board, ids, g) && IsEarliest(board, ids, h) { EarliestUnique(board, ids, g, h); }
    }
    var g :| g in ids && IsEarliest(board, ids, g); g
  }

  /** The games named by `ids`, in chronological order. */
  function InOrder(board: Board, ids: set<string>): (games: seq<Game>)
    requires ids <= board.Keys
    ensures |games| == |ids|
    decreases |ids|
  {
    if ids == {} then []
    else
      var first := Earliest(board, ids);
      [board[first]] + InOrder(board, ids - {first})
  }

  function Season(board: Board, team: string, season: int): seq<Game> {
    InOrder(board, Schedule(board, team, season))
  }

  function OwnMetrics(games: seq<Game>, team: string): seq<Metrics> {
    seq(|games|, i requires 0 <= i < |games| => Own(games[i], team).metrics)
  }

  function OpponentMetrics(games: seq<Game>, team: string): seq<Metrics> {
    seq(|games|, i requires 0 <= i < |games| => Opponent(games[i], team).metrics)
  }

  datatype Record = Record(wins: nat, losses: nat, ties: nat)

  function RecordOf(games: seq<Game>, team: string): Record {
    if games == [] then Record(0, 0, 0)
    else
      var rest, d := RecordOf(games[1..], team), Margin(games[0], team);
      if d > 0 then rest.(wins := rest.wins + 1)
      else if d < 0 then rest.(losses := rest.losses + 1)
      else rest.(ties := rest.ties + 1)
  }

  function PlayerIds(games: seq<Game>, team: string): set<string> {
    set g, p | g in games && p in Own(g, team).players :: p.id
  }

  function Rows(players: seq<Player>, id: string): seq<Metrics> {
    if players == [] then []
    else (if players[0].id == id then [players[0].metrics] else []) + Rows(players[1..], id)
  }

  function PlayerRows(games: seq<Game>, team: string, id: string): seq<Metrics> {
    if games == [] then [] else Rows(Own(games[0], team).players, id) + PlayerRows(games[1..], team, id)
  }

  datatype Card = Card(team: string, season: int, games: nat, record: Record,
                       offense: map<string, Entry>, defense: map<string, Entry>, rolling5: map<string, Entry>,
                       players: map<string, map<string, Entry>>, versions: seq<Game>)

  function CardOf(board: Board, team: string, season: int): Card {
    var games := Season(board, team, season);
    Card(team, season, |games|, RecordOf(games, team),
         Aggregate(OwnMetrics(games, team)), Aggregate(OpponentMetrics(games, team)),
         Aggregate(OwnMetrics(LastFive(games), team)),
         map id | id in PlayerIds(games, team) :: Aggregate(PlayerRows(games, team, id)),
         games)
  }

  // ---- every card at once ----

  type CardKey = (string, int)

  function KeysOf(g: Game): set<CardKey> {
    {FirstKey(g), SecondKey(g)}
  }

  function FirstKey(g: Game): CardKey { (g.teams[0].id, g.season) }
  function SecondKey(g: Game): CardKey { (g.teams[1].id, g.season) }

  function CardKeys(board: Board): set<CardKey> {
    set id, k | id in board && k in KeysOf(board[id]) :: k
  }

  function Tabulate<K, V>(keys: set<K>, f: K -> V): (table: map<K, V>)
    ensures table.Keys == keys && forall k <- keys :: table[k] == f(k)
  {
    map k | k in keys :: f(k)
  }

  /** Full recomputation of the current cards. */
  function AllCards(board: Board): map<CardKey, Card> {
    Tabulate(CardKeys(board), CardAt(board))
  }

  function CardAt(board: Board): CardKey -> Card {
    (k: CardKey) => CardOf(board, k.0, k.1)
  }

  lemma {:induction false} InOrderLocal(a: Board, b: Board, ids: set<string>)
    requires ids <= a.Keys && ids <= b.Keys && forall id <- ids :: a[id] == b[id]
    ensures InOrder(a, ids) == InOrder(b, ids)
    decreases |ids|
  {
    if ids != {} {
      EarliestUnique(b, ids, Earliest(a, ids), Earliest(b, ids));
      InOrderLocal(a, b, ids - {Earliest(a, ids)});
    }
  }

  /** The board after one commit. A correction must be of the same match. */
  predicate Correctable(board: Board, g: Game) {
    Keyed(board) && (g.gameId in board ==> SameMatch(board[g.gameId], g))
  }

  /** A commit leaves every card of a team that did not play in the game untouched. */
  lemma OtherCardsUntouched(board: Board, g: Game, k: CardKey)
    requires Correctable(board, g) && k !in KeysOf(g)
    ensures CardOf(board[g.gameId := g], k.0, k.1) == CardOf(board, k.0, k.1)
  {
    var board' := board[g.gameId := g];
    assert Schedule(board', k.0, k.1) == Schedule(board, k.0, k.1);
    InOrderLocal(board, board', Schedule(board, k.0, k.1));
  }

  /** Rebuilding the two participants' cards is a full recomputation. */
  lemma TwoCardsSuffice(board: Board, g: Game)
    requires Correctable(board, g)
    ensures var board' := board[g.gameId := g];
            var (k, l) := (FirstKey(g), SecondKey(g));
            AllCards(board') == AllCards(board)[k := CardAt(board')(k)][l := CardAt(board')(l)]
  {
    var board', k, l := board[g.gameId := g], FirstKey(g), SecondKey(g);
    CardsAfter(board, g);
    Patched(AllCards(board), AllCards(board'), k, l, CardAt(board')(k), CardAt(board')(l));
  }

  ghost predicate PatchOf<K, V>(a: map<K, V>, b: map<K, V>, k: K, l: K, v: V, w: V) {
    b.Keys == a.Keys + {k, l} && k != l && b[k] == v && b[l] == w && SameExcept(a, b, {k, l})
  }

  ghost predicate SameExcept<K, V>(a: map<K, V>, b: map<K, V>, ks: set<K>) {
    forall x <- a.Keys - ks :: x in b && b[x] == a[x]
  }

  lemma Patched<K, V>(a: map<K, V>, b: map<K, V>, k: K, l: K, v: V, w: V)
    requires PatchOf(a, b, k, l, v, w)
    ensures b == a[k := v][l := w]
  {
  }

  lemma CardsAfter(board: Board, g: Game)
    requires Correctable(board, g)
    ensures var board' := board[g.gameId := g];
            var (k, l) := (FirstKey(g), SecondKey(g));
            PatchOf(AllCards(board), AllCards(board'), k, l, CardAt(board')(k), CardAt(board')(l))
  {
    var board', k, l := board[g.gameId := g], FirstKey(g), SecondKey(g);
    KeysAfter(board, g);
    OtherCardsKept(board, g);
  }

  lemma OtherCardsKept(board: Board, g: Game)
    requires Correctable(board, g)
    ensures SameExcept(AllCards(board), AllCards(board[g.gameId := g]), KeysOf(g))
  {
    KeysAfter(board, g);
    forall x | x in CardKeys(board) - KeysOf(g)
      ensures AllCards(board[g.gameId := g])[x] == AllCards(board)[x]
    {
      OtherCardsUntouched(board, g, x);
    }
  }

  lemma KeysAfter(board: Board, g: Game)
    requires Correctable(board, g)
    ensures CardKeys(board[g.gameId := g]) == CardKeys(board) + KeysOf(g)
  {
    forall k | k in CardKeys(board) + KeysOf(g)
      ensures k in CardKeys(board[g.gameId := g])
    {
      KeyStays(board, g, k);
    }
    forall k | k in CardKeys(board[g.gameId := g])
      ensures k in CardKeys(board) + KeysOf(g)
    {
      KeyIsOldOrNew(board, g, k);
    }
  }

  lemma KeyStays(board: Board, g: Game, k: CardKey)
    requires Correctable(board, g) && k in CardKeys(board) + KeysOf(g)
    ensures k in CardKeys(board[g.gameId := g])
  {
    var board' := board[g.gameId := g];
    if k in KeysOf(g) {
      KeyListed(board', g.gameId, k);
    } else {
      var id :| id in board && k in KeysOf(board[id]);
      if id == g.gameId {
        SameMatchSameKeys(board[id], g);
      }
      KeyListed(board', id, k);
    }
  }

  lemma SameMatchSameKeys(g: Game, h: Game)
    requires SameMatch(g, h)
    ensures KeysOf(g) == KeysOf(h)
  {
  }

  lemma KeyListed(board: Board, id: string, k: CardKey)
    requires id in board && k in KeysOf(board[id])
    ensures k in CardKeys(board)
  {
  }

  lemma KeyIsOldOrNew(board: Board, g: Game, k: CardKey)
    requires k in CardKeys(board[g.gameId := g])
    ensures k in CardKeys(board) + KeysOf(g)
  {
    var board' := board[g.gameId := g];
    var id :| id in board' && k in KeysOf(board'[id]);
    assert id != g.gameId ==> id in board && board'[id] == board[id];
  }
}
