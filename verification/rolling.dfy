/** Rolling features of the retrospective benchmark: means over games strictly before the kickoff. */
module Rolling {
  import opened Names
  import opened Sequences
  import opened Text
  import opened Wrappers
  import Sorting

  /** One team's record of a game; the names of its metrics need not be those of another game. */
  datatype Side = Side(team: string, metrics: map<string, real>)
  /** A validated pair of records; the two agree on game, kickoff, season and scores. */
  datatype Game = Game(id: string, kickoff: int, season: int, week: int, home: Side, away: Side,
                       homeScore: int, awayScore: int)

  datatype Entry = Entry(kickoff: int, season: int, metrics: map<string, real>)
  datatype Row = Row(id: string, season: int, week: int, x: seq<Option<real>>, margin: int, total: int,
                     homePrior: nat, awayPrior: nat)

  // ---- the order of the games ----

  predicate Sooner(a: Game, b: Game) {
    a.kickoff < b.kickoff || (a.kickoff == b.kickoff && Less(a.id, b.id))
  }

  predicate Ordered(games: seq<Game>) {
    Sorting.Ordered(Sooner, games)
  }

  /** Records are grouped by game, so no two games share an id. */
  predicate Distinct(games: seq<Game>) {
    forall i, j :: 0 <= i < j < |games| ==> games[i].id != games[j].id
  }

  /** The games by kickoff, then id. */
  function Sort(games: seq<Game>): seq<Game> {
    Sorting.Sort(Sooner, games)
  }

  // ---- the direct definition ----

  function Filter<T>(xs: seq<T>, keep: T -> bool): seq<T> {
    if xs == [] then []
    else if keep(xs[|xs| - 1]) then Filter(xs[..|xs| - 1], keep) + [xs[|xs| - 1]]
    else Filter(xs[..|xs| - 1], keep)
  }

  function Own(g: Game, team: string): seq<Entry> {
    (if g.home.team == team then [Entry(g.kickoff, g.season, g.home.metrics)] else [])
    + (if g.away.team == team then [Entry(g.kickoff, g.season, g.away.metrics)] else [])
  }

  /** A team's games, in the order of the list. */
  function Appearances(games: seq<Game>, team: string): seq<Entry> {
    if games == [] then [] else Appearances(games[..|games| - 1], team) + Own(games[|games| - 1], team)
  }

  function InSeason(season: int, cutoff: int): Entry -> bool {
    (e: Entry) => e.kickoff < cutoff && e.season == season
  }

  /** The last five games of the season strictly before the cutoff or, if there is none, of the season before. */
  function Sample(games: seq<Game>, team: string, season: int, cutoff: int): seq<Entry> {
    var current := Filter(Appearances(games, team), InSeason(season, cutoff));
    var previous := Filter(Appearances(games, team), InSeason(season - 1, cutoff));
    LastFive(if current != [] then current else previous)
  }

  function Known(sample: seq<Entry>, name: string): seq<real> {
    if sample == [] then []
    else
      var e := sample[|sample| - 1];
      Known(sample[..|sample| - 1], name) + if name in e.metrics then [e.metrics[name]] else []
  }

  function Sum(xs: seq<real>): real {
    if xs == [] then 0.0 else Sum(xs[..|xs| - 1]) + xs[|xs| - 1]
  }

  /** None stands for NaN. */
  function Mean(xs: seq<real>): Option<real> {
    if xs == [] then None else Some(Sum(xs) / |xs| as real)
  }

  function Means(sample: seq<Entry>, columns: seq<string>): seq<Option<real>> {
    seq(|columns|, k requires 0 <= k < |columns| => Mean(Known(sample, columns[k])))
  }

  /** A game's row from the samples of its two teams. */
  function RowFrom(home: seq<Entry>, away: seq<Entry>, columns: seq<string>, g: Game): Row {
    var x := Means(home, columns) + Means(away, columns) + [Some(|home| as real), Some(|away| as real)];
    Row(g.id, g.season, g.week, x,
        g.homeScore - g.awayScore, g.homeScore + g.awayScore, |home|, |away|)
  }

  function RowOf(games: seq<Game>, columns: seq<string>, g: Game): Row {
    RowFrom(Sample(games, g.home.team, g.season, g.kickoff), Sample(games, g.away.team, g.season, g.kickoff),
            columns, g)
  }

  function Rower(games: seq<Game>, columns: seq<string>): Game -> Row {
    (g: Game) => RowOf(games, columns, g)
  }

  function Each<A, B>(xs: seq<A>, n: nat, f: A -> B): seq<B>
    requires n <= |xs|
  {
    if n == 0 then [] else Each(xs, n - 1, f) + [f(xs[n - 1])]
  }

  lemma {:induction false} EachAt<A, B>(xs: seq<A>, n: nat, f: A -> B, k: nat)
    requires k < n <= |xs|
    ensures |Each(xs, n, f)| == n && Each(xs, n, f)[k] == f(xs[k])
  {
    if n > 1 {
      EachAt(xs, n - 1, f, if k < n - 1 then k else 0);
    }
  }

  // ---- filters ----

  lemma FilterOneMore<T>(xs: seq<T>, x: T, keep: T -> bool)
    ensures Filter(xs + [x], keep) == if keep(x) then Filter(xs, keep) + [x] else Filter(xs, keep)
  {
    assert (xs + [x])[..|xs|] == xs;
  }

  lemma AppearancesOneMore(games: seq<Game>, g: Game, team: string)
    ensures Appearances(games + [g], team) == Appearances(games, team) + Own(g, team)
  {
    assert (games + [g])[..|games|] == games;
  }

  lemma {:induction false} FilterTwice<T>(xs: seq<T>, p: T -> bool, q: T -> bool, both: T -> bool)
    requires forall x :: both(x) <==> p(x) && q(x)
    ensures Filter(Filter(xs, p), q) == Filter(xs, both)
  {
    if xs != [] {
      var front, x := xs[..|xs| - 1], xs[|xs| - 1];
      FilterTwice(front, p, q, both);
      if p(x) {
        FilterOneMore(Filter(front, p), x, q);
      }
    }
  }

  lemma {:induction false} FilterAppend<T>(xs: seq<T>, ys: seq<T>, keep: T -> bool)
    ensures Filter(xs + ys, keep) == Filter(xs, keep) + Filter(ys, keep)
  {
    if ys == [] {
      assert xs + ys == xs;
    } else {
      FilterAppend(xs, ys[..|ys| - 1], keep);
      assert (xs + ys)[..|xs + ys| - 1] == xs + ys[..|ys| - 1];
    }
  }

  lemma {:induction false} FilterMembers<T>(xs: seq<T>, keep: T -> bool)
    ensures forall x :: x in Filter(xs, keep) <==> x in xs && keep(x)
  {
    if xs != [] {
      FilterMembers(xs[..|xs| - 1], keep);
      assert xs == xs[..|xs| - 1] + [xs[|xs| - 1]];
    }
  }

  function Early(cutoff: int): Game -> bool {
    (g: Game) => g.kickoff < cutoff
  }

  /** Games from the cutoff on leave no trace in a sample. */
  lemma {:induction false} OnlyEarlierCount(games: seq<Game>, team: string, season: int, cutoff: int)
    ensures Filter(Appearances(games, team), InSeason(season, cutoff))
         == Filter(Appearances(Filter(games, Early(cutoff)), team), InSeason(season, cutoff))
  {
    if games != [] {
      var front, g := games[..|games| - 1], games[|games| - 1];
      OnlyEarlierCount(front, team, season, cutoff);
      FilterAppend(Appearances(front, team), Own(g, team), InSeason(season, cutoff));
      if g.kickoff < cutoff {
        var early := Filter(front, Early(cutoff));
        AppearancesOneMore(early, g, team);
        FilterAppend(Appearances(early, team), Own(g, team), InSeason(season, cutoff));
      } else {
        OwnLate(g, team, season, cutoff);
        var kept := Filter(Appearances(front, team), InSeason(season, cutoff));
        assert kept + [] == kept;
      }
    }
  }

  lemma OwnLate(g: Game, team: string, season: int, cutoff: int)
    requires g.kickoff >= cutoff
    ensures Filter(Own(g, team), InSeason(season, cutoff)) == []
  {
    FilterNone(Own(g, team), InSeason(season, cutoff));
  }

  lemma SampleOfEarlier(games: seq<Game>, team: string, season: int, cutoff: int)
    ensures Sample(games, team, season, cutoff) == Sample(Filter(games, Early(cutoff)), team, season, cutoff)
  {
    OnlyEarlierCount(games, team, season, cutoff);
    OnlyEarlierCount(games, team, season - 1, cutoff);
  }

  /** Where the batches are cut: everything before the batch kicked off earlier, nothing after it did. */
  ghost predicate Cut(games: seq<Game>, i: nat, cutoff: int)
    requires i <= |games|
  {
    && (forall k :: 0 <= k < i ==> games[k].kickoff < cutoff)
    && forall k :: i <= k < |games| ==> games[k].kickoff >= cutoff
  }

  /** In an ordered list the games before a kickoff are a prefix, whichever game of the kickoff one stops at. */
  lemma EarlierIsPrefix(games: seq<Game>, i: nat, cutoff: int)
    requires i <= |games| && Cut(games, i, cutoff)
    ensures Filter(games, Early(cutoff)) == games[..i]
  {
    assert games == games[..i] + games[i..];
    FilterAppend(games[..i], games[i..], Early(cutoff));
    FilterAll(games[..i], Early(cutoff));
    FilterNone(games[i..], Early(cutoff));
  }

  lemma {:induction false} FilterAll<T>(xs: seq<T>, keep: T -> bool)
    requires forall x <- xs :: keep(x)
    ensures Filter(xs, keep) == xs
  {
    if xs != [] {
      assert forall x <- xs[..|xs| - 1] :: x in xs;
      FilterAll(xs[..|xs| - 1], keep);
    }
  }

  lemma {:induction false} FilterNone<T>(xs: seq<T>, keep: T -> bool)
    requires forall x <- xs :: !keep(x)
    ensures Filter(xs, keep) == []
  {
    if xs != [] {
      assert forall x <- xs[..|xs| - 1] :: x in xs;
      FilterNone(xs[..|xs| - 1], keep);
    }
  }

  // ---- the single pass ----

  function Of(history: map<string, seq<Entry>>, team: string): seq<Entry> {
    if team in history then history[team] else []
  }

  function UpToSeason(season: int, cutoff: int): Entry -> bool {
    (e: Entry) => e.kickoff < cutoff && e.season <= season
  }

  function OfSeason(season: int): Entry -> bool {
    (e: Entry) => e.season == season
  }

  function HistoryBefore(history: seq<Entry>, season: int, cutoff: int): seq<Entry> {
    var prior := Filter(history, UpToSeason(season, cutoff));
    var current := Filter(prior, OfSeason(season));
    var previous := Filter(prior, OfSeason(season - 1));
    LastFive(if current != [] then current else previous)
  }

  /** The history holds every team's entries of the first `n` games. */
  ghost predicate Remembers(history: map<string, seq<Entry>>, games: seq<Game>, n: nat)
    requires n <= |games|
  {
    forall team :: Of(history, team) == Appearances(games[..n], team)
  }

  /** The history kept so far gives the sample of the direct definition, although it knows nothing of later games. */
  lemma HistoryGivesSample(history: map<string, seq<Entry>>, games: seq<Game>, i: nat, team: string, season: int,
                           cutoff: int)
    requires i <= |games| && Remembers(history, games, i) && Cut(games, i, cutoff)
    ensures HistoryBefore(Of(history, team), season, cutoff) == Sample(games, team, season, cutoff)
  {
    var entries := Of(history, team);
    FilterTwice(entries, UpToSeason(season, cutoff), OfSeason(season), InSeason(season, cutoff));
    FilterTwice(entries, UpToSeason(season, cutoff), OfSeason(season - 1), InSeason(season - 1, cutoff));
    EarlierIsPrefix(games, i, cutoff);
    SampleOfEarlier(games, team, season, cutoff);
    assert entries == Appearances(games[..i], team);
  }

  method Remember(history: map<string, seq<Entry>>, team: string, e: Entry) returns (grown: map<string, seq<Entry>>)
    ensures forall other :: Of(grown, other) == Of(history, other) + if other == team then [e] else []
  {
    grown := history[team := Of(history, team) + [e]];
  }

  lemma Grouped<T>(a: seq<T>, b: seq<T>, c: seq<T>)
    ensures (a + b) + c == a + (b + c)
  {
  }

  method RememberGame(history: map<string, seq<Entry>>, g: Game) returns (grown: map<string, seq<Entry>>)
    ensures forall team :: Of(grown, team) == Of(history, team) + Own(g, team)
  {
    var between := Remember(history, g.home.team, Entry(g.kickoff, g.season, g.home.metrics));
    grown := Remember(between, g.away.team, Entry(g.kickoff, g.season, g.away.metrics));
    forall team
      ensures Of(grown, team) == Of(history, team) + Own(g, team)
    {
      Grouped(Of(history, team), if team == g.home.team then [Entry(g.kickoff, g.season, g.home.metrics)] else [],
              if team == g.away.team then [Entry(g.kickoff, g.season, g.away.metrics)] else []);
    }
  }

  lemma RemembersOneMore(history: map<string, seq<Entry>>, grown: map<string, seq<Entry>>, games: seq<Game>, n: nat)
    requires n < |games| && Remembers(history, games, n)
    requires forall team :: Of(grown, team) == Of(history, team) + Own(games[n], team)
    ensures Remembers(grown, games, n + 1)
  {
    assert games[..n] + [games[n]] == games[..n + 1];
    forall team
      ensures Of(grown, team) == Appearances(games[..n + 1], team)
    {
      AppearancesOneMore(games[..n], games[n], team);
    }
  }

  /** After a batch, its games join the history. */
  method Absorb(history: map<string, seq<Entry>>, games: seq<Game>, i: nat, j: nat)
    returns (grown: map<string, seq<Entry>>)
    requires i <= j <= |games| && Remembers(history, games, i)
    ensures Remembers(grown, games, j)
  {
    grown := history;
    for k := i to j
      invariant Remembers(grown, games, k)
    {
      ghost var before := grown;
      grown := RememberGame(grown, games[k]);
      RemembersOneMore(before, grown, games, k);
    }
  }

  /** The history is that of the games before a batch. */
  ghost predicate Before(history: map<string, seq<Entry>>, games: seq<Game>, i: nat, cutoff: int) {
    i <= |games| && Remembers(history, games, i) && Cut(games, i, cutoff)
  }

  method MakeRow(history: map<string, seq<Entry>>, columns: seq<string>, g: Game, ghost games: seq<Game>,
                 ghost i: nat) returns (row: Row)
    requires Before(history, games, i, g.kickoff)
    ensures row == Rower(games, columns)(g)
  {
    HistoryGivesSample(history, games, i, g.home.team, g.season, g.kickoff);
    HistoryGivesSample(history, games, i, g.away.team, g.season, g.kickoff);
    row := RowFrom(HistoryBefore(Of(history, g.home.team), g.season, g.kickoff),
                   HistoryBefore(Of(history, g.away.team), g.season, g.kickoff), columns, g);
  }

  lemma OrderedSplit(games: seq<Game>, i: nat, j: nat)
    requires Ordered(games) && i < j <= |games| && Starts(games, i)
    requires forall k :: i <= k < j ==> games[k].kickoff == games[i].kickoff
    ensures Cut(games, i, games[i].kickoff)
  {
    forall k | 0 <= k < i
      ensures games[k].kickoff < games[i].kickoff
    {
      assert k < i - 1 ==> Sooner(games[k], games[i - 1]);
    }
    forall k | i < k < |games|
      ensures games[k].kickoff >= games[i].kickoff
    {
      assert Sooner(games[i], games[k]);
    }
  }

  lemma NextIsLater(games: seq<Game>, i: nat, j: nat)
    requires i < j < |games| && Cut(games, i, games[i].kickoff) && games[j].kickoff != games[i].kickoff
    requires games[j - 1].kickoff == games[i].kickoff
    ensures Starts(games, j)
  {
  }

  /** The rows of one batch of simultaneous kickoffs, all made from the history before it. */
  method MakeRows(history: map<string, seq<Entry>>, games: seq<Game>, columns: seq<string>, i: nat, j: nat,
                  out: seq<Row>, ghost cutoff: int)
    returns (rows: seq<Row>)
    requires i < j <= |games| && Before(history, games, i, cutoff) && out == Each(games, i, Rower(games, columns))
    requires forall k :: i <= k < j ==> games[k].kickoff == cutoff
    ensures rows == Each(games, j, Rower(games, columns))
  {
    ghost var f := Rower(games, columns);
    rows := out;
    for k := i to j
      invariant rows == Each(games, k, f)
    {
      var row := MakeRow(history, columns, games[k], games, i);
      rows := rows + [row];
    }
  }

  /** Where the batch of games that kick off together with game `i` ends. */
  method BatchEnd(games: seq<Game>, i: nat) returns (j: nat)
    requires i < |games|
    ensures i < j <= |games| && (j < |games| ==> games[j].kickoff != games[i].kickoff)
    ensures forall k :: i <= k < j ==> games[k].kickoff == games[i].kickoff
  {
    j := i + 1;
    while j < |games| && games[j].kickoff == games[i].kickoff
      invariant i < j <= |games| && forall k :: i <= k < j ==> games[k].kickoff == games[i].kickoff
    {
      j := j + 1;
    }
  }

  /** A batch may start here: the game before kicked off strictly earlier. */
  predicate Starts(games: seq<Game>, i: nat) {
    0 < i < |games| ==> games[i - 1].kickoff < games[i].kickoff
  }

  /** The single pass over ordered games, a batch of equal kickoffs at a time. */
  method OnePass(games: seq<Game>, columns: seq<string>) returns (out: seq<Row>)
    requires Ordered(games)
    ensures out == Each(games, |games|, Rower(games, columns))
  {
    var history: map<string, seq<Entry>> := map[];
    out := [];
    var i := 0;
    while i < |games|
      invariant 0 <= i <= |games| && Starts(games, i)
      invariant Remembers(history, games, i) && out == Each(games, i, Rower(games, columns))
      decreases |games| - i
    {
      var j := BatchEnd(games, i);
      OrderedSplit(games, i, j);
      out := MakeRows(history, games, columns, i, j, out, games[i].kickoff);
      history := Absorb(history, games, i, j);
      if j < |games| {
        NextIsLater(games, i, j);
      }
      i := j;
    }
  }

  // ---- the columns ----

  function NamesIn(g: Game): set<string> {
    g.home.metrics.Keys + g.away.metrics.Keys
  }

  /** Every metric name of every record, later games included. */
  function MetricNames(records: seq<Game>): set<string> {
    set g, name | g in records && name in NamesIn(g) :: name
  }

  function Columns(records: seq<Game>): seq<string> {
    Sorted(MetricNames(records))
  }

  /** The names of a row's features, in the order of its values. */
  function FeatureNames(columns: seq<string>): seq<string> {
    seq(|columns|, k requires 0 <= k < |columns| => "home_" + columns[k])
    + seq(|columns|, k requires 0 <= k < |columns| => "away_" + columns[k])
    + ["home_prior_n", "away_prior_n"]
  }

  datatype Built = Built(rows: seq<Row>, names: seq<string>)

  /** The builder; None is its refusal of an input without games or without metrics. */
  method MakeRetroRows(records: seq<Game>) returns (out: Option<Built>)
    requires Distinct(records)
    ensures |Sort(records)| == |records|
    ensures out == if records == [] || Columns(records) == [] then None
                   else Some(Built(Each(Sort(records), |records|, Rower(Sort(records), Columns(records))),
                                   FeatureNames(Columns(records))))
  {
    SortOrders(records);
    if records == [] {
      return None;
    }
    var columns := Columns(records);
    if columns == [] {
      return None;
    }
    var rows := OnePass(Sort(records), columns);
    return Some(Built(rows, FeatureNames(columns)));
  }

  // ---- sorting ----

  lemma SoonerTotal(a: Game, b: Game)
    requires a.id != b.id
    ensures Sooner(a, b) <==> !Sooner(b, a)
  {
    LessTotal(a.id, b.id);
    if Less(a.id, b.id) && Less(b.id, a.id) {
      LessTransitive(a.id, b.id, a.id);
      LessIrreflexive(a.id);
    }
  }

  lemma SoonerTransitive(a: Game, b: Game, c: Game)
    requires Sooner(a, b) && Sooner(b, c)
    ensures Sooner(a, c)
  {
    if Less(a.id, b.id) && Less(b.id, c.id) {
      LessTransitive(a.id, b.id, c.id);
    }
  }

  lemma SortOrders(games: seq<Game>)
    requires Distinct(games)
    ensures Ordered(Sort(games)) && multiset(Sort(games)) == multiset(games) && |Sort(games)| == |games|
  {
    forall i, j | 0 <= i < j < |games|
      ensures Sooner(games[i], games[j]) || Sooner(games[j], games[i])
    {
      SoonerTotal(games[i], games[j]);
    }
    forall x, y, z | Sooner(x, y) && Sooner(y, z)
      ensures Sooner(x, z)
    {
      SoonerTransitive(x, y, z);
    }
    Sorting.SortOrders(Sooner, games);
    Sorting.SortPermutes(Sooner, games);
  }

  // ---- no leakage ----

  lemma {:induction false} FilterOrdered(games: seq<Game>, keep: Game -> bool)
    requires Ordered(games)
    ensures Ordered(Filter(games, keep))
  {
    if games != [] {
      FilterOrdered(games[..|games| - 1], keep);
      FilterMembers(games[..|games| - 1], keep);
      var kept := Filter(games[..|games| - 1], keep);
      forall k | 0 <= k < |kept|
        ensures Sooner(kept[k], games[|games| - 1])
      {
        assert kept[k] in kept;
        var j :| 0 <= j < |games| - 1 && games[j] == kept[k];
      }
    }
  }

  lemma NotSooner(g: Game)
    ensures !Sooner(g, g)
  {
    LessIrreflexive(g.id);
  }

  lemma LastOfOrdered(a: seq<Game>, b: seq<Game>)
    requires Ordered(a) && Ordered(b) && a != [] && b != []
    requires a[|a| - 1] in b && b[|b| - 1] in a
    ensures a[|a| - 1] == b[|b| - 1]
  {
    var x, y := a[|a| - 1], b[|b| - 1];
    if x != y {
      var i :| 0 <= i < |b| && b[i] == x;
      var j :| 0 <= j < |a| && a[j] == y;
      SoonerTransitive(x, y, x);
      NotSooner(x);
    }
  }

  lemma OrderedFront(a: seq<Game>)
    requires Ordered(a) && a != []
    ensures Ordered(a[..|a| - 1]) && forall g :: g in a[..|a| - 1] <==> g in a && g != a[|a| - 1]
  {
    var front, x := a[..|a| - 1], a[|a| - 1];
    assert a == front + [x];
    if x in front {
      var k :| 0 <= k < |front| && front[k] == x;
      assert Sooner(a[k], a[|a| - 1]);
      NotSooner(x);
    }
  }

  /** Games can be put in order in one way only. */
  lemma {:induction false} OrderIsUnique(a: seq<Game>, b: seq<Game>)
    requires Ordered(a) && Ordered(b) && forall g :: g in a <==> g in b
    ensures a == b
  {
    assert (a != [] ==> a[0] in a) && (b != [] ==> b[0] in b);
    if a != [] {
      assert a[|a| - 1] in b;
      assert b[|b| - 1] in a;
      LastOfOrdered(a, b);
      OrderedFront(a);
      OrderedFront(b);
      var front, front' := a[..|a| - 1], b[..|b| - 1];
      forall g
        ensures g in front <==> g in front'
      {
        assert g in front <==> g in a && g != a[|a| - 1];
        assert g in front' <==> g in b && g != b[|b| - 1];
      }
      OrderIsUnique(front, front');
      assert a == a[..|a| - 1] + [a[|a| - 1]] && b == b[..|b| - 1] + [b[|b| - 1]];
    }
  }

  lemma SortMembers(records: seq<Game>, h: Game)
    ensures h in Sort(records) <==> h in records
  {
    Sorting.SortPermutes(Sooner, records);
  }

  lemma EarlierAgree(records: seq<Game>, others: seq<Game>, cutoff: int)
    requires Distinct(records) && Distinct(others)
    requires forall h: Game | h.kickoff < cutoff :: h in records <==> h in others
    ensures Filter(Sort(records), Early(cutoff)) == Filter(Sort(others), Early(cutoff))
  {
    var a, b := Filter(Sort(records), Early(cutoff)), Filter(Sort(others), Early(cutoff));
    SortOrders(records);
    SortOrders(others);
    FilterOrdered(Sort(records), Early(cutoff));
    FilterOrdered(Sort(others), Early(cutoff));
    FilterMembers(Sort(records), Early(cutoff));
    FilterMembers(Sort(others), Early(cutoff));
    forall h
      ensures h in a <==> h in b
    {
      SortMembers(records, h);
      SortMembers(others, h);
    }
    OrderIsUnique(a, b);
  }

  /** The same match, whatever its metrics and scores. */
  predicate SameMatch(g: Game, h: Game) {
    g.kickoff == h.kickoff && g.season == h.season && g.home.team == h.home.team && g.away.team == h.away.team
  }

  predicate AgreeBefore(records: seq<Game>, others: seq<Game>, cutoff: int) {
    && (forall h <- records :: h.kickoff < cutoff ==> h in others)
    && (forall h <- others :: h.kickoff < cutoff ==> h in records)
  }

  /** Two inputs, in any order, that agree on the games before a kickoff give the same samples at it. */
  lemma SamplesAgree(records: seq<Game>, others: seq<Game>, team: string, season: int, cutoff: int)
    requires Distinct(records) && Distinct(others) && AgreeBefore(records, others, cutoff)
    ensures Sample(Sort(records), team, season, cutoff) == Sample(Sort(others), team, season, cutoff)
  {
    EarlierAgree(records, others, cutoff);
    SampleOfEarlier(Sort(records), team, season, cutoff);
    SampleOfEarlier(Sort(others), team, season, cutoff);
  }

  /** No leakage for given columns: neither the metrics and scores of the game itself, of simultaneous ones and of
      later ones, nor the order of the records, change its features. */
  lemma NoLeakage(records: seq<Game>, others: seq<Game>, columns: seq<string>, g: Game, g': Game)
    requires Distinct(records) && Distinct(others) && AgreeBefore(records, others, g.kickoff) && SameMatch(g, g')
    ensures RowOf(Sort(records), columns, g).x == RowOf(Sort(others), columns, g').x
  {
    SamplesAgree(records, others, g.home.team, g.season, g.kickoff);
    SamplesAgree(records, others, g.away.team, g.season, g.kickoff);
  }

  function BuiltRow(records: seq<Game>, g: Game): Row {
    RowOf(Sort(records), Columns(records), g)
  }

  lemma NamesInjective(a: seq<string>, b: seq<string>)
    requires FeatureNames(a) == FeatureNames(b)
    ensures a == b
  {
    var x, y := FeatureNames(a), FeatureNames(b);
    assert |x| == 2 * |a| + 2 && |y| == 2 * |b| + 2;
    forall k | 0 <= k < |a|
      ensures a[k] == b[k]
    {
      assert x[k] == "home_" + a[k] && y[k] == "home_" + b[k];
      assert x[k][5..] == a[k] && y[k][5..] == b[k];
    }
  }

  lemma ColumnsDetermined(records: seq<Game>, others: seq<Game>)
    ensures Columns(records) == Columns(others) <==> MetricNames(records) == MetricNames(others)
  {
    SortedIsSorted(MetricNames(records));
    SortedIsSorted(MetricNames(others));
    if Columns(records) == Columns(others) {
      assert forall name :: name in MetricNames(records) <==> name in MetricNames(others);
    }
  }

  /** With the columns the builder computes, a game's named features are the same exactly when no metric name appears
      in one input only: a later game can leak by the names of its metrics, and in no other way. */
  lemma LeaksExactlyByNames(records: seq<Game>, others: seq<Game>, g: Game, g': Game)
    requires Distinct(records) && Distinct(others) && AgreeBefore(records, others, g.kickoff) && SameMatch(g, g')
    ensures FeatureNames(Columns(records)) == FeatureNames(Columns(others))
            && BuiltRow(records, g).x == BuiltRow(others, g').x
            <==> MetricNames(records) == MetricNames(others)
  {
    ColumnsDetermined(records, others);
    NoLeakage(records, others, Columns(records), g, g');
    if FeatureNames(Columns(records)) == FeatureNames(Columns(others)) {
      NamesInjective(Columns(records), Columns(others));
    }
  }

  lemma RowValues(games: seq<Game>, columns: seq<string>, g: Game, k: nat)
    requires k < |columns|
    ensures var x := RowOf(games, columns, g).x; var n := |columns|;
            && |x| == 2 * n + 2
            && x[k] == Mean(Known(Sample(games, g.home.team, g.season, g.kickoff), columns[k]))
            && x[n + k] == Mean(Known(Sample(games, g.away.team, g.season, g.kickoff), columns[k]))
            && x[2 * n] == Some(|Sample(games, g.home.team, g.season, g.kickoff)| as real)
            && x[2 * n + 1] == Some(|Sample(games, g.away.team, g.season, g.kickoff)| as real)
  {
  }

  /** A column both inputs have carries the same values, wherever it stands among the other columns. */
  lemma SharedColumnsAgree(records: seq<Game>, others: seq<Game>, g: Game, g': Game, i: nat, j: nat)
    requires Distinct(records) && Distinct(others) && AgreeBefore(records, others, g.kickoff) && SameMatch(g, g')
    requires i < |Columns(records)| && j < |Columns(others)| && Columns(records)[i] == Columns(others)[j]
    ensures var m, n := |Columns(records)|, |Columns(others)|;
            var x, y := BuiltRow(records, g).x, BuiltRow(others, g').x;
            && |x| == 2 * m + 2 && |y| == 2 * n + 2
            && x[i] == y[j] && x[m + i] == y[n + j] && x[2 * m] == y[2 * n] && x[2 * m + 1] == y[2 * n + 1]
  {
    SamplesAgree(records, others, g.home.team, g.season, g.kickoff);
    SamplesAgree(records, others, g.away.team, g.season, g.kickoff);
    RowValues(Sort(records), Columns(records), g, i);
    RowValues(Sort(others), Columns(others), g', j);
  }

  lemma {:induction false} AppearanceFromGame(games: seq<Game>, team: string, e: Entry) returns (h: Game)
    requires e in Appearances(games, team)
    ensures h in games && h.kickoff == e.kickoff && (e.metrics == h.home.metrics || e.metrics == h.away.metrics)
  {
    var front, last := games[..|games| - 1], games[|games| - 1];
    if e in Own(last, team) {
      h := last;
    } else {
      h := AppearanceFromGame(front, team, e);
    }
  }

  lemma {:induction false} NothingKnown(sample: seq<Entry>, name: string)
    requires forall e <- sample :: name !in e.metrics
    ensures Known(sample, name) == []
  {
    if sample != [] {
      assert sample[|sample| - 1] in sample && forall e <- sample[..|sample| - 1] :: e in sample;
      NothingKnown(sample[..|sample| - 1], name);
    }
  }

  lemma SampleIsEarlier(games: seq<Game>, team: string, season: int, cutoff: int)
    ensures forall e <- Sample(games, team, season, cutoff) :: e in Appearances(games, team) && e.kickoff < cutoff
  {
    FilterMembers(Appearances(games, team), InSeason(season, cutoff));
    FilterMembers(Appearances(games, team), InSeason(season - 1, cutoff));
  }

  lemma UnknownBefore(records: seq<Game>, team: string, season: int, cutoff: int, name: string)
    requires Distinct(records) && forall h <- records :: h.kickoff < cutoff ==> name !in NamesIn(h)
    ensures Mean(Known(Sample(Sort(records), team, season, cutoff), name)) == None
  {
    var sample := Sample(Sort(records), team, season, cutoff);
    SampleIsEarlier(Sort(records), team, season, cutoff);
    forall e | e in sample
      ensures name !in e.metrics
    {
      var h := AppearanceFromGame(Sort(records), team, e);
      SortMembers(records, h);
    }
    NothingKnown(sample, name);
  }

  /** A column that only games at or after the kickoff carry holds no value in the row. */
  lemma LateColumnIsEmpty(records: seq<Game>, g: Game, k: nat)
    requires Distinct(records) && k < |Columns(records)|
    requires forall h <- records :: h.kickoff < g.kickoff ==> Columns(records)[k] !in NamesIn(h)
    ensures var x := BuiltRow(records, g).x; var n := |Columns(records)|;
            |x| == 2 * n + 2 && x[k] == None && x[n + k] == None
  {
    RowValues(Sort(records), Columns(records), g, k);
    UnknownBefore(records, g.home.team, g.season, g.kickoff, Columns(records)[k]);
    UnknownBefore(records, g.away.team, g.season, g.kickoff, Columns(records)[k]);
  }

  lemma RowLength(records: seq<Game>, g: Game)
    ensures |BuiltRow(records, g).x| == 2 * |MetricNames(records)| + 2
  {
    SortedIsSorted(MetricNames(records));
  }

  lemma MetricNamesOneMore(records: seq<Game>, g: Game)
    ensures MetricNames(records + [g]) == MetricNames(records) + NamesIn(g)
  {
    assert forall h :: h in records + [g] <==> h in records || h == g;
    forall name | name in MetricNames(records) + NamesIn(g)
      ensures name in MetricNames(records + [g])
    {
      if name in NamesIn(g) {
        assert g in records + [g];
      }
    }
  }

  /** A later game makes every row longer by two values for each name it introduces. */
  lemma NewNamesGrowRows(records: seq<Game>, late: Game, g: Game)
    ensures |BuiltRow(records + [late], g).x| == |BuiltRow(records, g).x| + 2 * |NamesIn(late) - MetricNames(records)|
  {
    MetricNamesOneMore(records, late);
    assert MetricNames(records + [late]) == MetricNames(records) + (NamesIn(late) - MetricNames(records));
    RowLength(records, g);
    RowLength(records + [late], g);
  }

  function GameWith(id: string, kickoff: int, metrics: map<string, real>): Game {
    Game(id, kickoff, 1, 1, Side("h", metrics), Side("a", metrics), 0, 0)
  }

  lemma TwoNames(g: Game, late: Game, name: string, other: string)
    requires NamesIn(g) == {name} && NamesIn(late) == {other} && name != other
    ensures |BuiltRow([g], g).x| == 4 && |BuiltRow([g, late], g).x| == 6
  {
    MetricNamesOneMore([], g);
    assert [] + [g] == [g] && [g] + [late] == [g, late];
    assert MetricNames([g]) == {name};
    assert NamesIn(late) - MetricNames([g]) == {other};
    RowLength([g], g);
    NewNamesGrowRows([g], late, g);
  }

  /** The leak at one input: a game on day 1 gives the row of the game on day 0 two more values. */
  lemma LaterGameGrowsRow()
    ensures var g, late := GameWith("1", 0, map["yards" := 1.0]), GameWith("2", 1, map["epa" := 1.0]);
            && Distinct([g]) && Distinct([g, late]) && AgreeBefore([g], [g, late], g.kickoff)
            && |BuiltRow([g], g).x| == 4 && |BuiltRow([g, late], g).x| == 6
  {
    var name, other := "yards", "epa";
    assert name[0] != other[0];
    TwoNames(GameWith("1", 0, map[name := 1.0]), GameWith("2", 1, map[other := 1.0]), name, other);
  }
}
