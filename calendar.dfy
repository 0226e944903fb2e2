/** Proleptic Gregorian dates as Python's `datetime` and `calendar` see them,
    and the injected clock as integer Unix seconds (UTC). */
module Calendar {
  import opened Text
  import opened Wrappers

  datatype Ymd = Ymd(year: int, month: int, day: int)

  const MinYear := 1
  const MaxYear := 9999
  const SecondsPerDay := 86400
  /** `date(1970, 1, 1).toordinal()`. */
  const EpochOrdinal := 719163

  predicate IsLeap(y: int) { y % 4 == 0 && (y % 100 != 0 || y % 400 == 0) }

  function YearLength(y: int): int { if IsLeap(y) then 366 else 365 }

  /** `calendar.mdays[m]`, plus one for February of a leap year. */
  function DaysInMonth(y: int, m: int): (n: int)
    requires 1 <= m <= 12
    ensures 28 <= n <= 31
  {
    if m == 2 then (if IsLeap(y) then 29 else 28)
    else if m == 4 || m == 6 || m == 9 || m == 11 then 30
    else 31
  }

  /** The triples `datetime(year, month, day)` accepts without raising (ValueError,
      or OverflowError when a field does not fit a C int). */
  predicate IsDate(d: Ymd)
  {
    MinYear <= d.year <= MaxYear && 1 <= d.month <= 12 && 1 <= d.day <= DaysInMonth(d.year, d.month)
  }

  /** A `datetime` at midnight: every value of this type is a valid date. */
  type Date = d: Ymd | IsDate(d) witness Ymd(1970, 1, 1)

  /** Days in the years before `y` (Python's `_days_before_year`). */
  function DaysBeforeYear(y: int): int
  {
    var k := y - 1;
    365 * k + k / 4 - k / 100 + k / 400
  }

  /** Days in the months of year `y` before month `m` (Python's `_days_before_month`). */
  function DaysBeforeMonth(y: int, m: int): int
    requires 1 <= m <= 12
  {
    var before :=
      if m == 1 then 0 else if m == 2 then 31 else if m == 3 then 59
      else if m == 4 then 90 else if m == 5 then 120 else if m == 6 then 151
      else if m == 7 then 181 else if m == 8 then 212 else if m == 9 then 243
      else if m == 10 then 273 else if m == 11 then 304 else 334;
    before + (if m > 2 && IsLeap(y) then 1 else 0)
  }

  /** `date.toordinal()`: 0001-01-01 is day 1. */
  function Ordinal(d: Ymd): int
    requires 1 <= d.month <= 12
  {
    DaysBeforeYear(d.year) + DaysBeforeMonth(d.year, d.month) + d.day
  }

  /** `datetime(y, m, d).timestamp()`, the clock reading at the start of the day. */
  function Midnight(d: Date): int
  {
    (Ordinal(d) - EpochOrdinal) * SecondsPerDay
  }

  /** The clock readings `datetime.now()` can stand for: 0001-01-01 up to the end of 9999. */
  const MinNow := (1 - EpochOrdinal) * SecondsPerDay
  const EndNow := (DaysBeforeYear(MaxYear + 1) + 1 - EpochOrdinal) * SecondsPerDay

  predicate ValidNow(now: int) { MinNow <= now < EndNow }

  /** The ordinal of the day the clock reading falls in (`//` rounds down, as Dafny's `/` does here). */
  function DayOrdinal(now: int): int { now / SecondsPerDay + EpochOrdinal }

  function YearSearch(n: int, y: int): (r: int)
    requires 1 <= y && DaysBeforeYear(y) < n
    ensures y <= r && DaysBeforeYear(r) < n <= DaysBeforeYear(r + 1)
    decreases n - DaysBeforeYear(y)
  {
    YearStep(y);
    if n <= DaysBeforeYear(y + 1) then y else YearSearch(n, y + 1)
  }

  /** `datetime.now().year`: the year whose days contain the clock reading. */
  function YearOf(now: int): (y: int)
    requires ValidNow(now)
    ensures MinYear <= y <= MaxYear
    ensures DaysBeforeYear(y) < DayOrdinal(now) <= DaysBeforeYear(y + 1)
  {
    var r := YearSearch(DayOrdinal(now), 1);
    assert r <= MaxYear by {
      if r > MaxYear { DaysBeforeYearMonotone(MaxYear + 1, r); }
    }
    r
  }

  /** The weekday of 1 January of year `y` (Monday is 0; 0001-01-01 was a Monday),
      counted forward one year length at a time. */
  function Jan1Weekday(y: int): (w: int)
    requires y >= MinYear
    ensures 0 <= w < 7
    decreases y
  {
    if y == MinYear then 0 else (Jan1Weekday(y - 1) + YearLength(y - 1)) % 7
  }

  /** `calendar.weekday(y, m, 1)`: Monday is 0.  Years outside 1..9999 are first
      mapped to `2000 + y % 400`, as the calendar module does. */
  function Weekday(y: int, m: int): (w: int)
    requires 1 <= m <= 12
    ensures 0 <= w < 7
  {
    var yy := if MinYear <= y <= MaxYear then y else 2000 + y % 400;
    (Jan1Weekday(yy) + DaysBeforeMonth(yy, m)) % 7
  }

  /** `calendar.monthrange(y, m)` for a month in 1..12: the weekday of the 1st
      and the number of days. */
  function MonthRange(y: int, m: int): (r: (int, int))
    requires 1 <= m <= 12
    ensures 0 <= r.0 < 7 && 28 <= r.1 <= 31
  {
    (Weekday(y, m), DaysInMonth(y, m))
  }

  /** Python's ordering of datetimes: year, then month, then day. */
  predicate DateLe(a: Ymd, b: Ymd)
  {
    a.year < b.year || (a.year == b.year && (a.month < b.month || (a.month == b.month && a.day <= b.day)))
  }

  /** `d.strftime("%m/%d/%Y")`. */
  function Format(d: Date): string
  {
    ZeroPad(d.month, 2) + "/" + ZeroPad(d.day, 2) + "/" + ZeroPad(d.year, 4)
  }

  // ---- Lemmas ----

  lemma YearStep(y: int)
    ensures DaysBeforeYear(y + 1) == DaysBeforeYear(y) + YearLength(y)
  {
    DivStepBy4(y);
    DivStepBy100(y);
    DivStepBy400(y);
  }

  /** Moving from `y - 1` to `y` raises `y / n` exactly when `n` divides `y`,
      for the three divisors of the leap-year rule. */
  lemma DivStepBy4(y: int)
    ensures y / 4 == (y - 1) / 4 + (if y % 4 == 0 then 1 else 0)
  {
    var q, r := (y - 1) / 4, (y - 1) % 4;
    if r == 3 {
      assert y == 4 * (q + 1) + 0;
    } else {
      assert y == 4 * q + (r + 1);
    }
  }

  lemma DivStepBy100(y: int)
    ensures y / 100 == (y - 1) / 100 + (if y % 100 == 0 then 1 else 0)
  {
    var q, r := (y - 1) / 100, (y - 1) % 100;
    if r == 99 {
      assert y == 100 * (q + 1) + 0;
    } else {
      assert y == 100 * q + (r + 1);
    }
  }

  lemma DivStepBy400(y: int)
    ensures y / 400 == (y - 1) / 400 + (if y % 400 == 0 then 1 else 0)
  {
    var q, r := (y - 1) / 400, (y - 1) % 400;
    if r == 399 {
      assert y == 400 * (q + 1) + 0;
    } else {
      assert y == 400 * q + (r + 1);
    }
  }

  lemma {:induction false} Jan1WeekdayIsOrdinal(y: int)
    requires y >= MinYear
    ensures Jan1Weekday(y) == (DaysBeforeYear(y) + 7) % 7
    decreases y
  {
    if y > MinYear {
      Jan1WeekdayIsOrdinal(y - 1);
      YearStep(y - 1);
      ModSum(DaysBeforeYear(y - 1) + 7, YearLength(y - 1));
    }
  }

  /** Reducing the first summand modulo 7 does not change the sum modulo 7. */
  lemma ModSum(a: int, b: int)
    ensures (a % 7 + b) % 7 == (a + b) % 7
  {
    var q := a / 7;
    assert a == 7 * q + a % 7;
    assert a + b == 7 * q + (a % 7 + b);
  }

  /** The weekday is Python's `date(y, m, 1).weekday()`, i.e. `(toordinal() + 6) % 7`,
      of the (mapped) year. */
  lemma WeekdayIsOrdinal(y: int, m: int)
    requires 1 <= m <= 12
    ensures var yy := if MinYear <= y <= MaxYear then y else 2000 + y % 400;
      Weekday(y, m) == (Ordinal(Ymd(yy, m, 1)) + 6) % 7
  {
    var yy := if MinYear <= y <= MaxYear then y else 2000 + y % 400;
    var n := DaysBeforeYear(yy);
    Jan1WeekdayIsOrdinal(yy);
    ModSum(n + 7, DaysBeforeMonth(yy, m));
    assert Ordinal(Ymd(yy, m, 1)) + 6 == n + 7 + DaysBeforeMonth(yy, m);
  }

  lemma {:induction false} DaysBeforeYearMonotone(a: int, b: int)
    requires a <= b
    ensures DaysBeforeYear(a) + 365 * (b - a) <= DaysBeforeYear(b)
    decreases b - a
  {
    if a < b {
      DaysBeforeYearMonotone(a, b - 1);
      YearStep(b - 1);
    }
  }

  /** The year of a clock reading is the only year whose days contain it. */
  lemma YearOfUnique(now: int, y: int)
    requires ValidNow(now)
    requires DaysBeforeYear(y) < DayOrdinal(now) <= DaysBeforeYear(y + 1)
    ensures YearOf(now) == y
  {
    var r := YearOf(now);
    if r < y { DaysBeforeYearMonotone(r + 1, y); }
    if y < r { DaysBeforeYearMonotone(y + 1, r); }
  }

  lemma MonthStep(y: int, m: int)
    requires 1 <= m <= 12
    ensures DaysBeforeMonth(y, m) + DaysInMonth(y, m)
            == if m == 12 then YearLength(y) else DaysBeforeMonth(y, m + 1)
  {
  }

  lemma {:induction false} DaysBeforeMonthMonotone(y: int, a: int, b: int)
    requires 1 <= a < b <= 12
    ensures DaysBeforeMonth(y, a) + DaysInMonth(y, a) <= DaysBeforeMonth(y, b)
  {
  }

  /** A date's ordinal lies within the days of its year. */
  lemma OrdinalInYear(d: Date)
    ensures DaysBeforeYear(d.year) < Ordinal(d) <= DaysBeforeYear(d.year + 1)
  {
    MonthStep(d.year, d.month);
    if d.month < 12 { DaysBeforeMonthMonotone(d.year, d.month, 12); MonthStep(d.year, 12); }
    YearStep(d.year);
  }

  lemma OrdinalStrict(a: Date, b: Date)
    requires DateLe(a, b) && a != b
    ensures Ordinal(a) < Ordinal(b)
  {
    if a.year < b.year {
      OrdinalInYear(a);
      OrdinalInYear(b);
      DaysBeforeYearMonotone(a.year + 1, b.year);
    } else if a.month < b.month {
      MonthStep(a.year, a.month);
      DaysBeforeMonthMonotone(a.year, a.month, b.month);
    }
  }

  /** Python's date ordering is the order of the clock readings at midnight, so
      sorting by date sorts by time left. */
  lemma DateLeIsTimeOrder(a: Date, b: Date)
    ensures DateLe(a, b) <==> Midnight(a) <= Midnight(b)
  {
    if a != b {
      if DateLe(a, b) { OrdinalStrict(a, b); } else { OrdinalStrict(b, a); }
    }
  }

  /** The year of the clock at a date's midnight is that date's year. */
  lemma YearOfMidnight(d: Date)
    ensures ValidNow(Midnight(d)) && YearOf(Midnight(d)) == d.year
  {
    OrdinalInYear(d);
    var n := Midnight(d);
    assert DayOrdinal(n) == Ordinal(d);
    DaysBeforeYearMonotone(d.year + 1, MaxYear + 1);
    YearOfUnique(n, d.year);
  }

  /** Every date of a year after the clock's year is in the future, and every
      date of an earlier year is in the past. */
  lemma OtherYearIsFuture(now: int, d: Date)
    requires ValidNow(now)
    ensures d.year > YearOf(now) ==> Midnight(d) > now
    ensures d.year < YearOf(now) ==> Midnight(d) < now
  {
    var y := YearOf(now);
    OrdinalInYear(d);
    if d.year > y { DaysBeforeYearMonotone(y + 1, d.year); }
    if d.year < y { DaysBeforeYearMonotone(d.year + 1, y); }
  }

  /** The date `strftime("%m/%d/%Y")` prints splits on `/` into three fields that
      `int` reads back as month, day and year. */
  lemma FormatFields(d: Date)
    ensures Split(Format(d), '/') == [ZeroPad(d.month, 2), ZeroPad(d.day, 2), ZeroPad(d.year, 4)]
    ensures ParseInt(ZeroPad(d.month, 2)) == Some(d.month)
    ensures ParseInt(ZeroPad(d.day, 2)) == Some(d.day)
    ensures ParseInt(ZeroPad(d.year, 4)) == Some(d.year)
  {
    var parts := [ZeroPad(d.month, 2), ZeroPad(d.day, 2), ZeroPad(d.year, 4)];
    forall i | 0 <= i < 3 ensures '/' !in parts[i] {
      ZeroPadDigits(if i == 0 then d.month else if i == 1 then d.day else d.year, if i == 2 then 4 else 2);
    }
    assert Join(parts, '/') == Format(d) by {
      assert Join(parts[2..], '/') == parts[2];
    }
    SplitJoin(parts, '/');
    ParseIntOfZeroPad(d.month, 2);
    ParseIntOfZeroPad(d.day, 2);
    ParseIntOfZeroPad(d.year, 4);
  }

  lemma ZeroPadDigits(n: nat, width: nat)
    ensures AllDigits(ZeroPad(n, width)) && '/' !in ZeroPad(n, width)
  {
    var s := NatToString(n);
    if |s| < width { LeadingZeros(width - |s|, s); }
  }
}
