/** Season aggregates of per-game metrics. Sums are exact: rounding of floating point is not modelled. */
module Aggregates {
  import opened Wrappers

  /** A metric value of a source payload. `NotANumber` stands for every value the validator refuses. */
  datatype Value = Null | Whole(n: int) | Decimal(x: real) | NotANumber
  type Metrics = map<string, Value>

  function Number(m: Metrics, key: string): Option<real> {
    if key !in m then None
    else match m[key]
      case Whole(n) => Some(n as real)
      case Decimal(x) => Some(x)
      case _ => None
  }

  const ADDITIVE: set<string> :=
    {"points", "plays", "yards", "rushes", "rush_yards", "pass_attempts", "completions", "pass_yards", "sacks",
     "turnovers", "penalties", "penalty_yards", "third_attempts", "third_conversions", "fourth_attempts",
     "fourth_conversions", "redzone_attempts", "redzone_scores", "explosive_plays", "punts", "punt_yards",
     "field_goal_attempts", "field_goals", "receptions", "tackles", "touchdowns", "epa_total"}

  datatype Entry =
    | Stat(games: nat, total: Option<real>, mean: Option<real>)
    | Ratio(games: nat, value: Option<real>)

  function CountIf(records: seq<Metrics>, keep: Metrics -> bool): nat {
    if records == [] then 0 else (if keep(records[0]) then 1 else 0) + CountIf(records[1..], keep)
  }

  function Total(records: seq<Metrics>, amount: Metrics -> real): real {
    if records == [] then 0.0 else amount(records[0]) + Total(records[1..], amount)
  }

  function Has(key: string): Metrics -> bool {
    m => Number(m, key).Some?
  }

  function Amount(key: string): Metrics -> real {
    m => if Number(m, key).Some? then Number(m, key).value else 0.0
  }

  function HasBoth(numerator: string, denominator: string): Metrics -> bool {
    m => Number(m, numerator).Some? && Number(m, denominator).Some?
  }

  /** The amount of `key`, counted only in games that report both sides of the ratio. */
  function Paired(key: string, numerator: string, denominator: string): Metrics -> real {
    m => if HasBoth(numerator, denominator)(m) then Amount(key)(m) else 0.0
  }

  function Keys(records: seq<Metrics>): set<string> {
    set m, key | m in records && key in m :: key
  }

  function StatOf(records: seq<Metrics>, key: string): Entry {
    var n, sum := CountIf(records, Has(key)), Total(records, Amount(key));
    Stat(n, if n > 0 && key in ADDITIVE then Some(sum) else None, if n > 0 then Some(sum / n as real) else None)
  }

  function RatioOf(records: seq<Metrics>, numerator: string, denominator: string): Entry {
    var above := Total(records, Paired(numerator, numerator, denominator));
    var below := Total(records, Paired(denominator, numerator, denominator));
    Ratio(CountIf(records, HasBoth(numerator, denominator)), if below == 0.0 then None else Some(above / below))
  }

  const RATIOS: set<string> := {"yards_per_play", "completion_rate", "third_down_rate", "epa_per_play"}

  function Ratios(records: seq<Metrics>): (entries: map<string, Entry>)
    ensures entries.Keys == RATIOS
  {
    map["yards_per_play" := RatioOf(records, "yards", "plays"),
        "completion_rate" := RatioOf(records, "completions", "pass_attempts"),
        "third_down_rate" := RatioOf(records, "third_conversions", "third_attempts"),
        "epa_per_play" := RatioOf(records, "epa_total", "plays")]
  }

  function Stats(records: seq<Metrics>): map<string, Entry> {
    map key | key in Keys(records) :: StatOf(records, key)
  }

  /** The four paired ratios win over source metrics of the same names. */
  function Aggregate(records: seq<Metrics>): map<string, Entry> {
    Stats(records) + Ratios(records)
  }

  lemma RatioNotAdditive(key: string)
    requires key in ADDITIVE
    ensures key !in RATIOS
  {
  }

  // ---- the order of the records is irrelevant ----

  lemma {:induction false} SplitAt(a: seq<Metrics>, x: Metrics, b: seq<Metrics>, keep: Metrics -> bool,
                                   amount: Metrics -> real)
    ensures CountIf(a + [x] + b, keep) == (if keep(x) then 1 else 0) + CountIf(a + b, keep)
    ensures Total(a + [x] + b, amount) == amount(x) + Total(a + b, amount)
  {
    if a == [] {
      assert a + [x] + b == [x] + b && a + b == b && ([x] + b)[1..] == b;
    } else {
      SplitAt(a[1..], x, b, keep, amount);
      assert (a + [x] + b)[1..] == a[1..] + [x] + b && (a + b)[1..] == a[1..] + b;
    }
  }

  lemma TakeFirstOut<T>(r: seq<T>, s: seq<T>) returns (i: nat)
    requires r != [] && multiset(r) == multiset(s)
    ensures i < |s| && s[i] == r[0] && s == s[..i] + [s[i]] + s[i + 1..]
    ensures multiset(r[1..]) == multiset(s[..i] + s[i + 1..])
  {
    assert r[0] in multiset(s);
    i :| 0 <= i < |s| && s[i] == r[0];
    var a, b := s[..i], s[i + 1..];
    assert s == a + [s[i]] + b;
    assert multiset(s) == multiset(a) + multiset{s[i]} + multiset(b);
    assert r == [r[0]] + r[1..];
    assert multiset(r) == multiset{r[0]} + multiset(r[1..]);
    assert multiset(r[1..]) == multiset(r) - multiset{r[0]};
    assert multiset(a + b) == multiset(a) + multiset(b) == multiset(s) - multiset{s[i]};
  }

  lemma {:induction false} FoldOrderFree(r: seq<Metrics>, s: seq<Metrics>, keep: Metrics -> bool,
                                         amount: Metrics -> real)
    requires multiset(r) == multiset(s)
    ensures CountIf(r, keep) == CountIf(s, keep)
    ensures Total(r, amount) == Total(s, amount)
  {
    if r == [] {
      assert |s| == |multiset(s)| == 0;
    } else {
      var i := TakeFirstOut(r, s);
      FoldOrderFree(r[1..], s[..i] + s[i + 1..], keep, amount);
      SplitAt(s[..i], s[i], s[i + 1..], keep, amount);
    }
  }

  lemma StatOrderFree(r: seq<Metrics>, s: seq<Metrics>, key: string)
    requires multiset(r) == multiset(s)
    ensures StatOf(r, key) == StatOf(s, key)
  {
    FoldOrderFree(r, s, Has(key), Amount(key));
  }

  lemma RatioOrderFree(r: seq<Metrics>, s: seq<Metrics>, n: string, d: string)
    requires multiset(r) == multiset(s)
    ensures RatioOf(r, n, d) == RatioOf(s, n, d)
  {
    FoldOrderFree(r, s, HasBoth(n, d), Paired(n, n, d));
    FoldOrderFree(r, s, HasBoth(n, d), Paired(d, n, d));
  }

  lemma StatsOrderFree(r: seq<Metrics>, s: seq<Metrics>)
    requires multiset(r) == multiset(s)
    ensures Stats(r) == Stats(s)
  {
    forall m
      ensures m in r <==> m in s
    {
      assert (m in r <==> m in multiset(r)) && (m in s <==> m in multiset(s));
    }
    assert Keys(r) == Keys(s);
    forall key | key in Keys(r) {
      StatOrderFree(r, s, key);
    }
  }

  /** Every aggregate is a function of the multiset of records. */
  lemma AggregateOrderFree(r: seq<Metrics>, s: seq<Metrics>)
    requires multiset(r) == multiset(s)
    ensures Aggregate(r) == Aggregate(s)
  {
    StatsOrderFree(r, s);
    RatioOrderFree(r, s, "yards", "plays");
    RatioOrderFree(r, s, "completions", "pass_attempts");
    RatioOrderFree(r, s, "third_conversions", "third_attempts");
    RatioOrderFree(r, s, "epa_total", "plays");
  }

  /** A game that does not report a metric changes neither its count nor its total nor its mean, and one that does not
      report both sides of a ratio does not change the ratio. */
  lemma MissingIsNotZero(a: seq<Metrics>, m: Metrics, b: seq<Metrics>, key: string, other: string)
    requires Number(m, key).None?
    ensures StatOf(a + [m] + b, key) == StatOf(a + b, key)
    ensures RatioOf(a + [m] + b, key, other) == RatioOf(a + b, key, other)
    ensures RatioOf(a + [m] + b, other, key) == RatioOf(a + b, other, key)
  {
    SplitAt(a, m, b, Has(key), Amount(key));
    SplitAt(a, m, b, HasBoth(key, other), Paired(key, key, other));
    SplitAt(a, m, b, HasBoth(key, other), Paired(other, key, other));
    SplitAt(a, m, b, HasBoth(other, key), Paired(key, other, key));
    SplitAt(a, m, b, HasBoth(other, key), Paired(other, other, key));
  }
}
