/** What the entries of a card or a snapshot say, as counts and sums over the ids of games. */
module EntryFacts {
  import opened Aggregates
  import opened Cards
  import opened Games
  import opened Sequences
  import opened Sums
  import opened Wrappers
  import Minimum

  /** Which of a game's metrics a card looks at. */
  type Pick = Game -> Metrics

  function Reading(m: Metrics, key: string): Option<real> {
    if key in m then
      match m[key]
      case Whole(n) => Some(n as real)
      case Decimal(x) => Some(x)
      case _ => None
    else None
  }

  function Picked(games: seq<Game>, pick: Pick): seq<Metrics> {
    seq(|games|, i requires 0 <= i < |games| => pick(games[i]))
  }

  /** The games whose picked metrics give the key a number. */
  function Reported(board: Board, ids: set<string>, pick: Pick, key: string): set<string> {
    set id | id in ids && id in board && Reading(pick(board[id]), key).Some?
  }

  function ReadingAt(board: Board, pick: Pick, key: string): string -> real {
    (id: string) =>
      if id in board && Reading(pick(board[id]), key).Some? then Reading(pick(board[id]), key).value else 0.0
  }

  /** The numerator and the denominator of the four ratios. */
  function RatioPair(key: string): Option<(string, string)> {
    if key == "yards_per_play" then Some(("yards", "plays"))
    else if key == "completion_rate" then Some(("completions", "pass_attempts"))
    else if key == "third_down_rate" then Some(("third_conversions", "third_attempts"))
    else if key == "epa_per_play" then Some(("epa_total", "plays"))
    else None
  }

  predicate Listed(board: Board, ids: set<string>, pick: Pick, key: string) {
    exists id <- ids :: id in board && key in pick(board[id])
  }

  /** A plain entry: how many games report the key, their sum if it may be summed, and their mean. */
  ghost predicate TellsStat(e: Entry, seen: set<string>, reading: string -> real, key: string) {
    && e.Stat? && e.games == |seen|
    && (seen == {} ==> e.total == None && e.mean == None)
    && (seen != {} ==>
          && e.mean.Some? && e.mean.value * |seen| as real == Sum(seen, reading)
          && e.total == if key in ADDITIVE then Some(Sum(seen, reading)) else None)
  }

  /** A ratio: over the games that report both sides, the quotient of the sums. */
  ghost predicate TellsRatio(e: Entry, both: set<string>, above: string -> real, below: string -> real) {
    && e.Ratio? && e.games == |both|
    && (Sum(both, below) == 0.0 ==> e.value == None)
    && (Sum(both, below) != 0.0 ==> e.value.Some? && e.value.value * Sum(both, below) == Sum(both, above))
  }

  ghost predicate TellsKey(entries: map<string, Entry>, board: Board, ids: set<string>, pick: Pick, key: string) {
    match RatioPair(key)
    case Some(pair) =>
      && key in entries
      && TellsRatio(entries[key], Reported(board, ids, pick, pair.0) * Reported(board, ids, pick, pair.1),
                    ReadingAt(board, pick, pair.0), ReadingAt(board, pick, pair.1))
    case None =>
      if Listed(board, ids, pick, key)
      then key in entries
           && TellsStat(entries[key], Reported(board, ids, pick, key), ReadingAt(board, pick, key), key)
      else key !in entries
  }

  /** The entries are those of the picked metrics of these games. */
  ghost predicate Tells(entries: map<string, Entry>, board: Board, ids: set<string>, pick: Pick) {
    forall key :: TellsKey(entries, board, ids, pick, key)
  }

  // ---- from lists to ids ----

  lemma ReadingIsNumber(m: Metrics, key: string)
    ensures Reading(m, key) == Number(m, key)
  {
  }

  function Passing(board: Board, ids: set<string>, pick: Pick, keep: Metrics -> bool): set<string> {
    set id | id in ids && id in board && keep(pick(board[id]))
  }

  function AmountAt(board: Board, pick: Pick, amount: Metrics -> real): string -> real {
    (id: string) => if id in board then amount(pick(board[id])) else 0.0
  }

  lemma PickedFirst(board: Board, ids: set<string>, pick: Pick)
    requires ids <= board.Keys && ids != {}
    ensures var first := Earliest(board, ids); var all := Picked(InOrder(board, ids), pick);
            all != [] && all[0] == pick(board[first]) && all[1..] == Picked(InOrder(board, ids - {first}), pick)
  {
    var first := Earliest(board, ids);
    assert InOrder(board, ids) == [board[first]] + InOrder(board, ids - {first});
  }

  lemma PassingFirst(board: Board, ids: set<string>, pick: Pick, keep: Metrics -> bool, id: string)
    requires id in ids && id in board
    ensures |Passing(board, ids, pick, keep)| ==
            (if keep(pick(board[id])) then 1 else 0) + |Passing(board, ids - {id}, pick, keep)|
  {
    var rest := Passing(board, ids - {id}, pick, keep);
    assert Passing(board, ids, pick, keep) == if keep(pick(board[id])) then rest + {id} else rest;
  }

  lemma {:induction false} CountOverIds(board: Board, ids: set<string>, pick: Pick, keep: Metrics -> bool)
    requires ids <= board.Keys
    ensures CountIf(Picked(InOrder(board, ids), pick), keep) == |Passing(board, ids, pick, keep)|
    decreases ids
  {
    if ids != {} {
      var first := Earliest(board, ids);
      PickedFirst(board, ids, pick);
      CountOverIds(board, ids - {first}, pick, keep);
      PassingFirst(board, ids, pick, keep, first);
    } else {
      assert Passing(board, ids, pick, keep) == {};
    }
  }

  lemma {:induction false} TotalOverIds(board: Board, ids: set<string>, pick: Pick, amount: Metrics -> real)
    requires ids <= board.Keys
    ensures Total(Picked(InOrder(board, ids), pick), amount) == Sum(ids, AmountAt(board, pick, amount))
    decreases ids
  {
    if ids != {} {
      var first := Earliest(board, ids);
      PickedFirst(board, ids, pick);
      TotalOverIds(board, ids - {first}, pick, amount);
      SumTakeOut(ids, AmountAt(board, pick, amount), first);
    }
  }

  lemma {:induction false} KeysOverIds(board: Board, ids: set<string>, pick: Pick, key: string)
    requires ids <= board.Keys
    ensures key in Keys(Picked(InOrder(board, ids), pick)) <==> Listed(board, ids, pick, key)
    decreases ids
  {
    if ids != {} {
      var first := Earliest(board, ids);
      PickedFirst(board, ids, pick);
      KeysOverIds(board, ids - {first}, pick, key);
      var all := Picked(InOrder(board, ids), pick);
      assert forall m :: m in all <==> m == all[0] || m in all[1..];
      assert Listed(board, ids, pick, key) <==> key in pick(board[first]) || Listed(board, ids - {first}, pick, key);
    }
  }

  lemma TotalOverPart(board: Board, ids: set<string>, part: set<string>, pick: Pick, amount: Metrics -> real,
                      f: string -> real)
    requires part <= ids <= board.Keys
    requires forall id <- part :: amount(pick(board[id])) == f(id)
    requires forall id <- ids - part :: amount(pick(board[id])) == 0.0
    ensures Total(Picked(InOrder(board, ids), pick), amount) == Sum(part, f)
  {
    TotalOverIds(board, ids, pick, amount);
    SumRestrict(ids, part, AmountAt(board, pick, amount));
    SumEqual(part, AmountAt(board, pick, amount), f);
  }

  lemma ReportedIsPassing(board: Board, ids: set<string>, pick: Pick, key: string)
    ensures Reported(board, ids, pick, key) == Passing(board, ids, pick, Has(key))
  {
  }

  lemma BothIsPassing(board: Board, ids: set<string>, pick: Pick, above: string, below: string)
    ensures Reported(board, ids, pick, above) * Reported(board, ids, pick, below) ==
            Passing(board, ids, pick, HasBoth(above, below))
  {
  }

  lemma Quotient(sum: real, n: real)
    requires n != 0.0
    ensures (sum / n) * n == sum
  {
  }

  lemma AmountIsReading(board: Board, pick: Pick, key: string, id: string)
    requires id in board
    ensures Amount(key)(pick(board[id])) == ReadingAt(board, pick, key)(id)
  {
  }

  lemma StatOverIds(board: Board, ids: set<string>, pick: Pick, key: string)
    requires ids <= board.Keys
    ensures TellsStat(StatOf(Picked(InOrder(board, ids), pick), key), Reported(board, ids, pick, key),
                      ReadingAt(board, pick, key), key)
  {
    var seen := Reported(board, ids, pick, key);
    CountOverIds(board, ids, pick, Has(key));
    ReportedIsPassing(board, ids, pick, key);
    forall id | id in ids
      ensures Amount(key)(pick(board[id])) == ReadingAt(board, pick, key)(id)
    {
      AmountIsReading(board, pick, key, id);
    }
    TotalOverPart(board, ids, seen, pick, Amount(key), ReadingAt(board, pick, key));
    StatTells(Picked(InOrder(board, ids), pick), key, seen, ReadingAt(board, pick, key));
  }

  lemma StatTells(records: seq<Metrics>, key: string, seen: set<string>, reading: string -> real)
    requires CountIf(records, Has(key)) == |seen| && Total(records, Amount(key)) == Sum(seen, reading)
    ensures TellsStat(StatOf(records, key), seen, reading, key)
  {
    var n, sum := |seen|, Sum(seen, reading);
    assert n == 0 <==> seen == {};
    if n > 0 {
      Quotient(sum, n as real);
      assert StatOf(records, key) == Stat(n, if key in ADDITIVE then Some(sum) else None, Some(sum / n as real));
    }
  }

  lemma PairedByReading(m: Metrics, key: string, above: string, below: string)
    requires key == above || key == below
    ensures Paired(key, above, below)(m) ==
            if Reading(m, above).Some? && Reading(m, below).Some? then Reading(m, key).value else 0.0
  {
    ReadingIsNumber(m, above);
    ReadingIsNumber(m, below);
    assert HasBoth(above, below)(m) <==> Reading(m, above).Some? && Reading(m, below).Some?;
  }

  lemma PairedOverIds(board: Board, ids: set<string>, pick: Pick, key: string, above: string, below: string)
    requires ids <= board.Keys && (key == above || key == below)
    ensures Total(Picked(InOrder(board, ids), pick), Paired(key, above, below)) ==
            Sum(Reported(board, ids, pick, above) * Reported(board, ids, pick, below), ReadingAt(board, pick, key))
  {
    var both := Reported(board, ids, pick, above) * Reported(board, ids, pick, below);
    forall id | id in ids
      ensures Paired(key, above, below)(pick(board[id])) ==
              if id in both then ReadingAt(board, pick, key)(id) else 0.0
    {
      PairedByReading(pick(board[id]), key, above, below);
    }
    TotalOverPart(board, ids, both, pick, Paired(key, above, below), ReadingAt(board, pick, key));
  }

  lemma RatioOverIds(board: Board, ids: set<string>, pick: Pick, above: string, below: string)
    requires ids <= board.Keys
    ensures TellsRatio(RatioOf(Picked(InOrder(board, ids), pick), above, below),
                       Reported(board, ids, pick, above) * Reported(board, ids, pick, below),
                       ReadingAt(board, pick, above), ReadingAt(board, pick, below))
  {
    CountOverIds(board, ids, pick, HasBoth(above, below));
    BothIsPassing(board, ids, pick, above, below);
    PairedOverIds(board, ids, pick, above, above, below);
    PairedOverIds(board, ids, pick, below, above, below);
    RatioTells(Picked(InOrder(board, ids), pick), above, below,
               Reported(board, ids, pick, above) * Reported(board, ids, pick, below),
               ReadingAt(board, pick, above), ReadingAt(board, pick, below));
  }

  lemma RatioTells(records: seq<Metrics>, above: string, below: string, both: set<string>, f: string -> real,
                   g: string -> real)
    requires CountIf(records, HasBoth(above, below)) == |both|
    requires Total(records, Paired(above, above, below)) == Sum(both, f)
    requires Total(records, Paired(below, above, below)) == Sum(both, g)
    ensures TellsRatio(RatioOf(records, above, below), both, f, g)
  {
    if Sum(both, g) != 0.0 {
      Quotient(Sum(both, f), Sum(both, g));
    }
  }

  lemma RatiosTell(records: seq<Metrics>, key: string)
    ensures key in RATIOS <==> RatioPair(key).Some?
    ensures key in RATIOS ==> var pair := RatioPair(key).value; Ratios(records)[key] == RatioOf(records, pair.0, pair.1)
  {
  }

  /** The aggregate of the picked metrics, listed in any chronology, tells of the ids. */
  lemma AggregateTells(board: Board, ids: set<string>, pick: Pick)
    requires ids <= board.Keys
    ensures Tells(Aggregate(Picked(InOrder(board, ids), pick)), board, ids, pick)
  {
    var records := Picked(InOrder(board, ids), pick);
    forall key
      ensures TellsKey(Aggregate(records), board, ids, pick, key)
    {
      RatiosTell(records, key);
      match RatioPair(key) {
        case Some(pair) => RatioOverIds(board, ids, pick, pair.0, pair.1);
        case None =>
          KeysOverIds(board, ids, pick, key);
          StatOverIds(board, ids, pick, key);
          assert key in Keys(records) ==> Aggregate(records)[key] == Stats(records)[key] == StatOf(records, key);
      }
    }
  }

  /** The last five of a chronology are the chronology of the five latest games. */
  lemma {:induction false} LastFiveOverIds(board: Board, ids: set<string>) returns (last: set<string>)
    requires ids <= board.Keys
    ensures last <= ids && |last| == (if |ids| <= 5 then |ids| else 5)
    ensures forall g, h :: g in ids - last && h in last ==> Sooner(board, g, h)
    ensures LastFive(InOrder(board, ids)) == InOrder(board, last)
    decreases |ids|
  {
    if |ids| <= 5 {
      last := ids;
    } else {
      var first := Earliest(board, ids);
      last := LastFiveOverIds(board, ids - {first});
      LastFiveSkipsFirst(board, ids);
      forall g, h | g in ids - last && h in last
        ensures Sooner(board, g, h)
      {
        if g == first {
          EarliestIsSooner(board, ids, h);
        }
      }
    }
  }

  lemma EarliestIsSooner(board: Board, ids: set<string>, h: string)
    requires ids <= board.Keys && h in ids && h != Earliest(board, ids)
    ensures Sooner(board, Earliest(board, ids), h)
  {
    assert Minimum.IsFirst(Calendar(board), ids, Earliest(board, ids));
  }

  lemma LastFiveSkipsFirst(board: Board, ids: set<string>)
    requires ids <= board.Keys && |ids| > 5
    ensures LastFive(InOrder(board, ids)) == LastFive(InOrder(board, ids - {Earliest(board, ids)}))
  {
    var rest := InOrder(board, ids - {Earliest(board, ids)});
    assert InOrder(board, ids) == [board[Earliest(board, ids)]] + rest;
    assert |rest| == |ids| - 1;
  }
}
