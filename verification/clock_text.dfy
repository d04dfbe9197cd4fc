/** The clock texts the queue stores and compares: `datetime.isoformat` in UTC, with a fraction of six digits when the
    microseconds are not zero and none at all when they are. */
module ClockText {
  import opened Text

  datatype Moment = Moment(year: int, month: int, day: int, hour: int, minute: int, second: int, micro: int)

  predicate Leap(year: int) {
    year % 4 == 0 && (year % 100 != 0 || year % 400 == 0)
  }

  function MonthLength(year: int, month: int): int {
    if month == 2 then (if Leap(year) then 29 else 28)
    else if month in {4, 6, 9, 11} then 30
    else 31
  }

  predicate Valid(m: Moment) {
    && 1 <= m.year <= 9999 && 1 <= m.month <= 12 && 1 <= m.day <= MonthLength(m.year, m.month)
    && 0 <= m.hour < 24 && 0 <= m.minute < 60 && 0 <= m.second < 60 && 0 <= m.micro < 1_000_000
  }

  function DaysBeforeMonth(year: int, month: int): int
    requires 1 <= month
  {
    if month == 1 then 0 else DaysBeforeMonth(year, month - 1) + MonthLength(year, month - 1)
  }

  function DaysBeforeYear(year: int): int
    requires 1 <= year
  {
    if year == 1 then 0 else DaysBeforeYear(year - 1) + DaysBeforeMonth(year - 1, 13)
  }

  function Days(m: Moment): int
    requires Valid(m)
  {
    DaysBeforeYear(m.year) + DaysBeforeMonth(m.year, m.month) + m.day - 1
  }

  /** Microseconds since the start of year 1. */
  function Instant(m: Moment): int
    requires Valid(m)
  {
    (((Days(m) * 24 + m.hour) * 60 + m.minute) * 60 + m.second) * 1_000_000 + m.micro
  }

  /** `n` in decimal, zero-padded to `width` digits. */
  function Digits(n: int, width: nat): (text: string)
    requires 0 <= n
    ensures |text| == width
  {
    if width == 0 then "" else Digits(n / 10, width - 1) + ["0123456789"[n % 10]]
  }

  function Fraction(micro: int): string
    requires 0 <= micro
  {
    (if micro == 0 then "" else "." + Digits(micro, 6)) + "+00:00"
  }

  function IsoFormat(m: Moment): string
    requires Valid(m)
  {
    Digits(m.year, 4) + ("-" + (Digits(m.month, 2) + ("-" + (Digits(m.day, 2) + ("T" + (
    Digits(m.hour, 2) + (":" + (Digits(m.minute, 2) + (":" + (Digits(m.second, 2) + Fraction(m.micro)))))))))))
  }

  function Power10(k: nat): int {
    if k == 0 then 1 else 10 * Power10(k - 1)
  }

  lemma {:induction false} DigitsOrder(a: int, b: int, width: nat)
    requires 0 <= a < Power10(width) && 0 <= b < Power10(width)
    ensures Less(Digits(a, width), Digits(b, width)) <==> a < b
    ensures Digits(a, width) == Digits(b, width) <==> a == b
  {
    if width > 0 {
      var (x, c) := (Digits(a / 10, width - 1), "0123456789"[a % 10]);
      var (y, d) := (Digits(b / 10, width - 1), "0123456789"[b % 10]);
      DigitsOrder(a / 10, b / 10, width - 1);
      assert c < d <==> a % 10 < b % 10;
      if x == y {
        LessAfterPrefix(x, [c], [d]);
        assert (x + [c])[width - 1] == c && (y + [d])[width - 1] == d;
      } else {
        LessByHead(x, y, [c], [d]);
        assert (x + [c])[..width - 1] == x && (y + [d])[..width - 1] == y;
      }
    }
  }

  /** A fixed-width field decides the order of what starts with it, or leaves it to the rest. */
  lemma FieldOrder(a: int, b: int, width: nat, x: string, y: string)
    requires 0 <= a < Power10(width) && 0 <= b < Power10(width)
    ensures Less(Digits(a, width) + x, Digits(b, width) + y) <==> a < b || (a == b && Less(x, y))
  {
    DigitsOrder(a, b, width);
    if a == b {
      LessAfterPrefix(Digits(a, width), x, y);
    } else {
      LessByHead(Digits(a, width), Digits(b, width), x, y);
    }
  }

  /** A missing fraction sorts before every fraction, because '+' sorts before '.'. */
  lemma FractionOrder(a: int, b: int)
    requires 0 <= a < 1_000_000 && 0 <= b < 1_000_000
    ensures Less(Fraction(a), Fraction(b)) <==> a < b
  {
    assert Power10(6) == 1_000_000 by { assert Power10(3) == 1_000; }
    if a != 0 && b != 0 {
      FieldOrder(a, b, 6, "+00:00", "+00:00");
      LessIrreflexive("+00:00");
      LessAfterPrefix(".", Digits(a, 6) + "+00:00", Digits(b, 6) + "+00:00");
      assert Fraction(a) == "." + (Digits(a, 6) + "+00:00") && Fraction(b) == "." + (Digits(b, 6) + "+00:00");
    } else if a == b {
      LessIrreflexive(Fraction(a));
    }
  }

  predicate MomentLess(a: Moment, b: Moment) {
    || a.year < b.year || (a.year == b.year && (
    || a.month < b.month || (a.month == b.month && (
    || a.day < b.day || (a.day == b.day && (
    || a.hour < b.hour || (a.hour == b.hour && (
    || a.minute < b.minute || (a.minute == b.minute && (
    || a.second < b.second || (a.second == b.second && a.micro < b.micro)))))))))))
  }

  /** Text order is field order: each separator is shared, each field has a fixed width. */
  lemma TextIsFieldOrder(a: Moment, b: Moment)
    requires Valid(a) && Valid(b)
    ensures Less(IsoFormat(a), IsoFormat(b)) <==> MomentLess(a, b)
  {
    assert Power10(4) == 10_000 && Power10(2) == 100 by { assert Power10(2) == 100; }
    var s, t := Fraction(a.micro), Fraction(b.micro);
    FractionOrder(a.micro, b.micro);
    FieldOrder(a.second, b.second, 2, s, t);
    s, t := Digits(a.second, 2) + s, Digits(b.second, 2) + t;
    LessAfterPrefix(":", s, t);
    FieldOrder(a.minute, b.minute, 2, ":" + s, ":" + t);
    s, t := Digits(a.minute, 2) + (":" + s), Digits(b.minute, 2) + (":" + t);
    LessAfterPrefix(":", s, t);
    FieldOrder(a.hour, b.hour, 2, ":" + s, ":" + t);
    s, t := Digits(a.hour, 2) + (":" + s), Digits(b.hour, 2) + (":" + t);
    LessAfterPrefix("T", s, t);
    assert MonthLength(a.year, a.month) < 100 && MonthLength(b.year, b.month) < 100;
    FieldOrder(a.day, b.day, 2, "T" + s, "T" + t);
    s, t := Digits(a.day, 2) + ("T" + s), Digits(b.day, 2) + ("T" + t);
    LessAfterPrefix("-", s, t);
    FieldOrder(a.month, b.month, 2, "-" + s, "-" + t);
    s, t := Digits(a.month, 2) + ("-" + s), Digits(b.month, 2) + ("-" + t);
    LessAfterPrefix("-", s, t);
    FieldOrder(a.year, b.year, 4, "-" + s, "-" + t);
  }

  lemma {:induction false} MonthsAddUp(year: int, m: int, n: int)
    requires 1 <= m < n
    ensures DaysBeforeMonth(year, m) + MonthLength(year, m) <= DaysBeforeMonth(year, n)
  {
    if m < n - 1 {
      MonthsAddUp(year, m, n - 1);
    }
  }

  lemma {:induction false} YearsAddUp(y: int, z: int)
    requires 1 <= y < z
    ensures DaysBeforeYear(y) + DaysBeforeMonth(y, 13) <= DaysBeforeYear(z)
  {
    if y < z - 1 {
      YearsAddUp(y, z - 1);
      MonthsAddUp(z - 1, 1, 13);
    }
  }

  lemma DayOrder(a: Moment, b: Moment)
    requires Valid(a) && Valid(b)
    requires a.year < b.year || (a.year == b.year && (a.month < b.month || (a.month == b.month && a.day < b.day)))
    ensures Days(a) < Days(b)
  {
    if a.year < b.year {
      YearsAddUp(a.year, b.year);
      MonthsAddUp(a.year, a.month, 13);
      if b.month > 1 {
        MonthsAddUp(b.year, 1, b.month);
      }
    } else if a.month < b.month {
      MonthsAddUp(a.year, a.month, b.month);
    }
  }

  lemma FieldsOrderInstants(a: Moment, b: Moment)
    requires Valid(a) && Valid(b) && MomentLess(a, b)
    ensures Instant(a) < Instant(b)
  {
    if a.year == b.year && a.month == b.month && a.day == b.day {
    } else {
      DayOrder(a, b);
    }
  }

  /** Comparing two stored clocks as text compares the instants they name. */
  lemma TextOrderIsTimeOrder(a: Moment, b: Moment)
    requires Valid(a) && Valid(b)
    ensures Less(IsoFormat(a), IsoFormat(b)) <==> Instant(a) < Instant(b)
    ensures IsoFormat(a) == IsoFormat(b) <==> Instant(a) == Instant(b)
  {
    TextIsFieldOrder(a, b);
    TextIsFieldOrder(b, a);
    LessTotal(IsoFormat(a), IsoFormat(b));
    LessIrreflexive(IsoFormat(a));
    if MomentLess(a, b) {
      FieldsOrderInstants(a, b);
    } else if MomentLess(b, a) {
      FieldsOrderInstants(b, a);
    } else {
      assert a == b;
    }
  }

  // ---- the calendar ----

  /** The lengths of the months, with a leap day in every fourth year but three in four centuries. */
  lemma MonthTable(year: int, month: int)
    requires 1 <= month <= 12
    ensures var leap := (year % 4 == 0 && year % 100 != 0) || year % 400 == 0;
            MonthLength(year, month) ==
            [31, 28, 31, 30, 31, 30, 31, 31, 30, 31, 30, 31][month - 1] + if leap && month == 2 then 1 else 0
  {
  }

  lemma YearLength(year: int)
    ensures DaysBeforeMonth(year, 13) == if Leap(year) then 366 else 365
  {
    var february := MonthLength(year, 2);
    assert DaysBeforeMonth(year, 2) == 31;
    assert DaysBeforeMonth(year, 3) == 31 + february;
    assert DaysBeforeMonth(year, 4) == 62 + february;
    assert DaysBeforeMonth(year, 5) == 92 + february;
    assert DaysBeforeMonth(year, 6) == 123 + february;
    assert DaysBeforeMonth(year, 7) == 153 + february;
    assert DaysBeforeMonth(year, 8) == 184 + february;
    assert DaysBeforeMonth(year, 9) == 215 + february;
    assert DaysBeforeMonth(year, 10) == 245 + february;
    assert DaysBeforeMonth(year, 11) == 276 + february;
    assert DaysBeforeMonth(year, 12) == 306 + february;
    assert DaysBeforeMonth(year, 13) == 337 + february;
  }

  lemma OneMoreMultiple(y: int)
    requires 1 <= y
    ensures y / 4 == (y - 1) / 4 + if y % 4 == 0 then 1 else 0
    ensures y / 100 == (y - 1) / 100 + if y % 100 == 0 then 1 else 0
    ensures y / 400 == (y - 1) / 400 + if y % 400 == 0 then 1 else 0
  {
  }

  lemma LeapMultiples(y: int)
    ensures (if Leap(y) then 1 else 0) ==
            (if y % 4 == 0 then 1 else 0) - (if y % 100 == 0 then 1 else 0) + (if y % 400 == 0 then 1 else 0)
  {
    if y % 400 == 0 {
      FourHundreds(y);
    } else if y % 100 == 0 {
      Hundreds(y);
    }
  }

  lemma FourHundreds(y: int)
    requires y % 400 == 0
    ensures y % 100 == 0 && y % 4 == 0
  {
    var q := y / 400;
    assert y == 100 * (4 * q);
    assert y == 4 * (100 * q);
  }

  lemma Hundreds(y: int)
    requires y % 100 == 0
    ensures y % 4 == 0
  {
    var q := y / 100;
    assert y == 4 * (25 * q);
  }

  /** The days before a year, in closed form. */
  lemma {:induction false} DaysBeforeYearFormula(year: int)
    requires 1 <= year
    ensures DaysBeforeYear(year) == 365 * (year - 1) + (year - 1) / 4 - (year - 1) / 100 + (year - 1) / 400
  {
    if year > 1 {
      DaysBeforeYearFormula(year - 1);
      YearLength(year - 1);
      OneMoreMultiple(year - 1);
      LeapMultiples(year - 1);
    }
  }

  /** Days are counted one by one: the next day of the month, the first of the next month, or New Year's Day. */
  lemma NextDay(a: Moment, b: Moment)
    requires Valid(a) && Valid(b)
    requires || (b.year == a.year && b.month == a.month && b.day == a.day + 1)
             || (b.year == a.year && b.month == a.month + 1 && b.day == 1 && a.day == MonthLength(a.year, a.month))
             || (b.year == a.year + 1 && b.month == 1 && b.day == 1 && a.month == 12 && a.day == 31)
    ensures Days(b) == Days(a) + 1
  {
  }

  /** A day has 86,400 seconds of a million microseconds. */
  lemma TimeOfDay(m: Moment)
    requires Valid(m)
    ensures Instant(m) == Days(m) * 86_400_000_000 + m.hour * 3_600_000_000 + m.minute * 60_000_000
                          + m.second * 1_000_000 + m.micro
  {
  }

  /** The moments of the years one to 9999. */
  lemma MomentsByFields(m: Moment)
    ensures Valid(m) <==>
            && 1 <= m.year && m.year <= 9999 && 1 <= m.month && m.month <= 12 && 1 <= m.day
            && m.day <= MonthLength(m.year, m.month) && 0 <= m.hour && m.hour <= 23 && 0 <= m.minute && m.minute <= 59
            && 0 <= m.second && m.second <= 59 && 0 <= m.micro && m.micro <= 999_999
  {
  }

  /** The count begins with the first day of year one. */
  lemma CountBegins(m: Moment)
    requires Valid(m) && m.year == 1 && m.month == 1
    ensures Days(m) == m.day - 1
  {
  }
}
