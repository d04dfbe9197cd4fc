/** What a row of rolling features says, told by the games of the input alone. */
module RollingFacts {
  import opened Rolling
  import opened Sequences
  import opened Wrappers
  import Names
  import Text

  /** A game of the team in the season before the cutoff. */
  predicate Involves(g: Game, team: string, season: int, cutoff: int) {
    g.kickoff < cutoff && g.season == season && (g.home.team == team || g.away.team == team)
  }

  function InvolvesIn(team: string, season: int, cutoff: int): Game -> bool {
    (g: Game) => Involves(g, team, season, cutoff)
  }

  /** The two records of a game are of different teams. */
  predicate TwoTeams(games: seq<Game>) {
    forall g <- games :: g.home.team != g.away.team
  }

  function Line(g: Game, team: string): map<string, real> {
    if g.home.team == team then g.home.metrics else g.away.metrics
  }

  function EntryFor(team: string): Game -> Entry {
    (g: Game) => Entry(g.kickoff, g.season, Line(g, team))
  }

  function Over<A, B>(xs: seq<A>, f: A -> B): seq<B> {
    seq(|xs|, i requires 0 <= i < |xs| => f(xs[i]))
  }

  lemma OverOneMore<A, B>(xs: seq<A>, x: A, f: A -> B)
    ensures Over(xs + [x], f) == Over(xs, f) + [f(x)]
  {
  }

  lemma OwnFiltered(g: Game, team: string, season: int, cutoff: int)
    requires g.home.team != g.away.team
    ensures Filter(Own(g, team), InSeason(season, cutoff)) ==
            if Involves(g, team, season, cutoff) then [EntryFor(team)(g)] else []
  {
    var e := EntryFor(team)(g);
    if g.home.team == team || g.away.team == team {
      assert Own(g, team) == [e];
      assert [e][..0] == [];
    } else {
      assert Own(g, team) == [];
    }
  }

  /** A team's entries of a season are those of the games that involve it. */
  lemma {:induction false} EntriesAreGames(games: seq<Game>, team: string, season: int, cutoff: int)
    requires TwoTeams(games)
    ensures Filter(Appearances(games, team), InSeason(season, cutoff)) ==
            Over(Filter(games, InvolvesIn(team, season, cutoff)), EntryFor(team))
  {
    if games != [] {
      var front, g := games[..|games| - 1], games[|games| - 1];
      assert g in games && forall h <- front :: h in games;
      EntriesAreGames(front, team, season, cutoff);
      FilterAppend(Appearances(front, team), Own(g, team), InSeason(season, cutoff));
      OwnFiltered(g, team, season, cutoff);
      var kept := Filter(front, InvolvesIn(team, season, cutoff));
      if Involves(g, team, season, cutoff) {
        OverOneMore(kept, g, EntryFor(team));
      } else {
        assert Over(kept, EntryFor(team)) + [] == Over(kept, EntryFor(team));
      }
    }
  }

  lemma LastFiveOver<A, B>(xs: seq<A>, f: A -> B)
    ensures LastFive(Over(xs, f)) == Over(LastFive(xs), f)
  {
  }

  ghost predicate PlayedBefore(records: seq<Game>, team: string, season: int, cutoff: int) {
    exists g <- records :: Involves(g, team, season, cutoff)
  }

  /** The games of the sample, in order: of this season if the team has played in it, else of the season before; five
      at most, and the latest ones. */
  ghost predicate LatestGames(gs: seq<Game>, records: seq<Game>, team: string, season: int, cutoff: int) {
    var s := if PlayedBefore(records, team, season, cutoff) then season else season - 1;
    && Ordered(gs) && |gs| <= 5 && (forall g <- gs :: g in records && Involves(g, team, s, cutoff))
    && forall h <- records :: Involves(h, team, s, cutoff) && h !in gs ==> |gs| == 5 && forall g <- gs :: Sooner(h, g)
  }

  lemma LastFiveLatest(games: seq<Game>)
    requires Ordered(games)
    ensures Ordered(LastFive(games)) && |LastFive(games)| <= 5 && forall g <- LastFive(games) :: g in games
    ensures forall h <- games :: h !in LastFive(games) ==>
              |LastFive(games)| == 5 && forall g <- LastFive(games) :: Sooner(h, g)
  {
    var last := LastFive(games);
    if |games| > 5 {
      var n := |games| - 5;
      assert forall k :: 0 <= k < 5 ==> last[k] == games[n + k];
      forall h | h in games && h !in last
        ensures forall g <- last :: Sooner(h, g)
      {
        assert games == games[..n] + last;
        assert h in games[..n];
        var i :| 0 <= i < n && games[i] == h;
      }
    }
  }

  lemma SampleTells(records: seq<Game>, team: string, season: int, cutoff: int) returns (gs: seq<Game>)
    requires Distinct(records) && TwoTeams(records)
    ensures LatestGames(gs, records, team, season, cutoff)
    ensures Sample(Sort(records), team, season, cutoff) == Over(gs, EntryFor(team))
  {
    var sorted := Sort(records);
    SortOrders(records);
    forall h
      ensures h in sorted <==> h in records
    {
      SortMembers(records, h);
    }
    var now, earlier := InvolvesIn(team, season, cutoff), InvolvesIn(team, season - 1, cutoff);
    EntriesAreGames(sorted, team, season, cutoff);
    EntriesAreGames(sorted, team, season - 1, cutoff);
    FilterMembers(sorted, now);
    FilterMembers(sorted, earlier);
    FilterOrdered(sorted, now);
    FilterOrdered(sorted, earlier);
    var games := if Filter(sorted, now) != [] then Filter(sorted, now) else Filter(sorted, earlier);
    NonEmptyFilter(sorted, records, team, season, cutoff);
    LastFiveOver(games, EntryFor(team));
    LastFiveLatest(games);
    gs := LastFive(games);
  }

  lemma NonEmptyFilter(sorted: seq<Game>, records: seq<Game>, team: string, season: int, cutoff: int)
    requires forall h :: h in sorted <==> h in records
    ensures Filter(sorted, InvolvesIn(team, season, cutoff)) != [] <==> PlayedBefore(records, team, season, cutoff)
  {
    var kept := Filter(sorted, InvolvesIn(team, season, cutoff));
    FilterMembers(sorted, InvolvesIn(team, season, cutoff));
    if kept != [] {
      assert kept[0] in kept;
    }
  }

  // ---- means ----

  /** The values of a metric in the games that give it one. */
  function Readings(gs: seq<Game>, team: string, name: string): seq<real> {
    if gs == [] then []
    else (if name in Line(gs[0], team) then [Line(gs[0], team)[name]] else []) + Readings(gs[1..], team, name)
  }

  function Added(xs: seq<real>): real {
    if xs == [] then 0.0 else xs[0] + Added(xs[1..])
  }

  lemma {:induction false} AddedAppend(a: seq<real>, b: seq<real>)
    ensures Added(a + b) == Added(a) + Added(b)
  {
    if a == [] {
      assert a + b == b;
    } else {
      AddedAppend(a[1..], b);
      assert (a + b)[1..] == a[1..] + b;
    }
  }

  lemma {:induction false} SumIsAdded(xs: seq<real>)
    ensures Sum(xs) == Added(xs)
  {
    if xs != [] {
      SumIsAdded(xs[..|xs| - 1]);
      AddedAppend(xs[..|xs| - 1], [xs[|xs| - 1]]);
      assert xs == xs[..|xs| - 1] + [xs[|xs| - 1]];
    }
  }

  lemma {:induction false} ReadingsAppend(a: seq<Game>, b: seq<Game>, team: string, name: string)
    ensures Readings(a + b, team, name) == Readings(a, team, name) + Readings(b, team, name)
  {
    if a == [] {
      assert a + b == b;
    } else {
      ReadingsAppend(a[1..], b, team, name);
      assert (a + b)[1..] == a[1..] + b && (a + b)[0] == a[0];
    }
  }

  lemma {:induction false} KnownIsReadings(gs: seq<Game>, team: string, name: string)
    ensures Known(Over(gs, EntryFor(team)), name) == Readings(gs, team, name)
  {
    if gs != [] {
      var front, g := gs[..|gs| - 1], gs[|gs| - 1];
      KnownIsReadings(front, team, name);
      assert Over(gs, EntryFor(team))[..|gs| - 1] == Over(front, EntryFor(team));
      ReadingsAppend(front, [g], team, name);
      assert gs == front + [g];
    }
  }

  /** Missing exactly when no game gives the metric a value; otherwise their mean. */
  predicate TellsMean(x: Option<real>, values: seq<real>) {
    if values == [] then x == None else x.Some? && x.value * |values| as real == Added(values)
  }

  lemma MeanTells(values: seq<real>)
    ensures TellsMean(Mean(values), values)
  {
    SumIsAdded(values);
    if values != [] {
      Divided(Sum(values), |values| as real);
    }
  }

  lemma Divided(sum: real, n: real)
    requires n != 0.0
    ensures (sum / n) * n == sum
  {
  }

  /** A row of the builder: identity, scores, how many games the samples hold, and in each half the mean of each
      column over the home team's and the away team's latest games. */
  lemma BuiltRowTells(records: seq<Game>, g: Game, k: nat) returns (home: seq<Game>, away: seq<Game>)
    requires Distinct(records) && TwoTeams(records) && k < |Columns(records)|
    ensures LatestGames(home, records, g.home.team, g.season, g.kickoff)
    ensures LatestGames(away, records, g.away.team, g.season, g.kickoff)
    ensures var row := BuiltRow(records, g); var n := |Columns(records)|; var name := Columns(records)[k];
            && row.id == g.id && row.season == g.season && row.week == g.week
            && row.margin == g.homeScore - g.awayScore && row.total == g.homeScore + g.awayScore
            && row.homePrior == |home| && row.awayPrior == |away| && |row.x| == 2 * n + 2
            && TellsMean(row.x[k], Readings(home, g.home.team, name))
            && TellsMean(row.x[n + k], Readings(away, g.away.team, name))
            && row.x[2 * n] == Some(|home| as real) && row.x[2 * n + 1] == Some(|away| as real)
  {
    var name := Columns(records)[k];
    home := SampleTells(records, g.home.team, g.season, g.kickoff);
    away := SampleTells(records, g.away.team, g.season, g.kickoff);
    RowValues(Sort(records), Columns(records), g, k);
    KnownIsReadings(home, g.home.team, name);
    KnownIsReadings(away, g.away.team, name);
    MeanTells(Readings(home, g.home.team, name));
    MeanTells(Readings(away, g.away.team, name));
  }

  /** The columns are the metric names of the records, each once, in text order. */
  lemma ColumnsTell(records: seq<Game>)
    ensures forall name :: name in Columns(records) <==>
              exists g <- records :: name in g.home.metrics || name in g.away.metrics
    ensures forall i, j :: 0 <= i < j < |Columns(records)| ==> Text.Less(Columns(records)[i], Columns(records)[j])
  {
    Names.SortedIsSorted(MetricNames(records));
    forall name
      ensures name in MetricNames(records) <==>
              exists g <- records :: name in g.home.metrics || name in g.away.metrics
    {
      if g :| g in records && (name in g.home.metrics || name in g.away.metrics) {
        assert name in NamesIn(g);
      }
    }
  }

  /** Beside the value at each position of a row stands the name that says whose value it is. */
  lemma NamesTell(columns: seq<string>, k: nat)
    requires k < |columns|
    ensures var names, n := FeatureNames(columns), |columns|;
            && |names| == 2 * n + 2
            && names[k] == "home_" + columns[k] && names[n + k] == "away_" + columns[k]
            && names[2 * n] == "home_prior_n" && names[2 * n + 1] == "away_prior_n"
  {
  }
}
