/** The date-string resolver of the `add_event` handlers: split on `/`, convert
    each piece with `int`, then build the date literally (three fields) or
    resolve a month and day to a concrete year (two fields). */
module Recurrence {
  import opened Wrappers
  import opened Text
  import opened Calendar

  /** The pieces converted by `int`, or `None` when some piece raises ValueError. */
  function IntFields(pieces: seq<string>): (r: Option<seq<int>>)
    ensures r.Some? <==> forall i :: 0 <= i < |pieces| ==> ParseInt(pieces[i]).Some?
    ensures r.Some? ==> |r.value| == |pieces|
                        && forall i :: 0 <= i < |pieces| ==> ParseInt(pieces[i]) == Some(r.value[i])
  {
    if |pieces| == 0 then Some([])
    else match (ParseInt(pieces[0]), IntFields(pieces[1..]))
         case (Some(v), Some(vs)) => Some([v] + vs)
         case _ => None
  }

  /** The loop that replaces each piece of the split list by its integer value,
      aborting at the first piece `int` rejects. */
  method ConvertFields(pieces: seq<string>) returns (r: Option<seq<int>>)
    ensures r == IntFields(pieces)
  {
    var date := pieces;
    var values: seq<int> := [];
    for i := 0 to |date|
      invariant |values| == i
      invariant forall k :: 0 <= k < i ==> ParseInt(pieces[k]) == Some(values[k])
    {
      var v := ParseInt(date[i]);
      if v.None? {
        return None;
      }
      values := values + [v.value];
    }
    assert IntFields(pieces).Some?;
    assert IntFields(pieces).value == values;
    r := Some(values);
  }

  /** `datetime(year, month, day)`: the date, or the ValueError it raises. */
  function Literal(year: int, month: int, day: int): (r: Result<Date, Failure>)
  {
    if IsDate(Ymd(year, month, day)) then Ok(Ymd(year, month, day)) else Err(InvalidDate)
  }

  // ---------------------------------------------------------------- Lab2

  /** Lab2's two-field choice: 2020-m-d if that is after the clock, else 2021-m-d. */
  function Lab2MonthDay(month: int, day: int, now: int): (r: Result<Date, Failure>)
  {
    var first := Literal(2020, month, day);
    if first.Err? then first
    else if Midnight(first.value) > now then first
    else Literal(2021, month, day)
  }

  /** Lab2's resolution of the converted fields. */
  function Lab2Resolve(fields: seq<int>, now: int): Result<Date, Failure>
  {
    if |fields| != 2 && |fields| != 3 then Err(BadDateFormat)
    else if |fields| == 3 then Literal(fields[0], fields[1], fields[2])
    else Lab2MonthDay(fields[0], fields[1], now)
  }

  /** What Lab2's `add_event` makes of its date string. */
  function Lab2EventDate(date: string, now: int): Result<Date, Failure>
  {
    match IntFields(Split(date, '/'))
    case None => Err(BadDateFormat)
    case Some(fields) => Lab2Resolve(fields, now)
  }

  // ---------------------------------------------------------------- Lab3

  /** The skip test `day not in calendar.monthrange(year, month)`, negated: the
      day equals the weekday of the 1st or the length of the month. */
  predicate InMonthRange(day: int, year: int, month: int)
    requires 1 <= month <= 12
  {
    var r := MonthRange(year, month);
    day == r.0 || day == r.1
  }

  /** A year the scan moves past without a result and without raising: it fails
      the skip test, or builds a valid date that is not after the clock. */
  predicate PassedOver(month: int, day: int, now: int, year: int)
    requires 1 <= month <= 12
  {
    InMonthRange(day, year, month) ==> IsDate(Ymd(year, month, day)) && Midnight(Ymd(year, month, day)) <= now
  }

  datatype Scan = Found(date: Date) | NotFound | Raised

  /** The year scan from `year` up to (not including) `stop`. */
  function Lab3Scan(month: int, day: int, now: int, year: int, stop: int): Scan
    requires 1 <= month <= 12
    decreases stop - year
  {
    if year >= stop then NotFound
    else if !InMonthRange(day, year, month) then Lab3Scan(month, day, now, year + 1, stop)
    else if !IsDate(Ymd(year, month, day)) then Raised
    else if Midnight(Ymd(year, month, day)) > now then Found(Ymd(year, month, day))
    else Lab3Scan(month, day, now, year + 1, stop)
  }

  /** The number of years Lab3 tries, starting with the clock's year. */
  const Window := 8

  /** The loop over `range(cur_time.year, cur_time.year + 8)`, with its `continue`
      and `break`; `cur` is `cur_time.year`. */
  method ScanYears(month: int, day: int, now: int, cur: int) returns (r: Scan)
    requires 1 <= month <= 12
    ensures r == Lab3Scan(month, day, now, cur, cur + Window)
  {
    ghost var answer := Lab3Scan(month, day, now, cur, cur + Window);
    var year := cur;
    while year < cur + Window
      invariant cur <= year <= cur + Window
      invariant Lab3Scan(month, day, now, year, cur + Window) == answer
    {
      if !InMonthRange(day, year, month) {
        ScanPassesOver(month, day, now, year, cur + Window);
        year := year + 1;
        continue;
      }
      if !IsDate(Ymd(year, month, day)) {
        return Raised;
      }
      var temp: Date := Ymd(year, month, day);
      if Midnight(temp) > now {
        return Found(temp);
      }
      ScanPassesOver(month, day, now, year, cur + Window);
      year := year + 1;
    }
    r := NotFound;
  }

  /** A year the scan passes over leaves the outcome to the years after it. */
  lemma ScanPassesOver(month: int, day: int, now: int, year: int, stop: int)
    requires 1 <= month <= 12 && year < stop && PassedOver(month, day, now, year)
    ensures Lab3Scan(month, day, now, year, stop) == Lab3Scan(month, day, now, year + 1, stop)
  {
  }

  /** Lab3's resolution of the converted fields.  `monthrange` raises for a month
      outside 1..12 on the first year tried. */
  function Lab3Resolve(fields: seq<int>, now: int): Result<Date, Failure>
    requires ValidNow(now)
  {
    if |fields| != 2 && |fields| != 3 then Err(BadDateFormat)
    else if |fields| == 3 then Literal(fields[0], fields[1], fields[2])
    else if !(1 <= fields[0] <= 12) then Err(IllegalMonth)
    else match Lab3Scan(fields[0], fields[1], now, YearOf(now), YearOf(now) + Window)
         case Found(d) => Ok(d)
         case NotFound => Err(DateNotFound)
         case Raised => Err(InvalidDate)
  }

  method ResolveLab3(fields: seq<int>, now: int) returns (r: Result<Date, Failure>)
    requires ValidNow(now)
    ensures r == Lab3Resolve(fields, now)
  {
    if |fields| != 2 && |fields| != 3 {
      return Err(BadDateFormat);
    }
    if |fields| == 3 {
      return Literal(fields[0], fields[1], fields[2]);
    }
    if !(1 <= fields[0] <= 12) {
      return Err(IllegalMonth);
    }
    var s := ScanYears(fields[0], fields[1], now, YearOf(now));
    match s
    case Found(d) => r := Ok(d);
    case NotFound => r := Err(DateNotFound);
    case Raised => r := Err(InvalidDate);
  }

  /** What Lab3's `add_event` makes of its date string. */
  function Lab3EventDate(date: string, now: int): Result<Date, Failure>
    requires ValidNow(now)
  {
    match IntFields(Split(date, '/'))
    case None => Err(BadDateFormat)
    case Some(fields) => Lab3Resolve(fields, now)
  }

  // ---------------------------------------------------------------- the intended resolver

  /** A year in which month/day is a real date after the clock. */
  predicate Upcoming(month: int, day: int, now: int, year: int)
  {
    IsDate(Ymd(year, month, day)) && Midnight(Ymd(year, month, day)) > now
  }

  function UpcomingScan(month: int, day: int, now: int, year: int, stop: int): Option<Date>
    decreases stop - year
  {
    if year >= stop then None
    else if Upcoming(month, day, now, year) then Some(Ymd(year, month, day))
    else UpcomingScan(month, day, now, year + 1, stop)
  }

  /** The first year of the window in which month/day exists and is still ahead:
      the skip test the resolver evidently means. */
  function NextOccurrence(month: int, day: int, now: int): Option<Date>
    requires ValidNow(now)
  {
    UpcomingScan(month, day, now, YearOf(now), YearOf(now) + Window)
  }

  // ---------------------------------------------------------------- lemmas: Lab3 as written

  /** A date the scan finds has the requested month and day, lies in the window,
      is after the clock, and every earlier year of the window was passed over. */
  lemma {:induction false} ScanFound(month: int, day: int, now: int, year: int, stop: int)
    requires 1 <= month <= 12
    requires Lab3Scan(month, day, now, year, stop).Found?
    ensures var d := Lab3Scan(month, day, now, year, stop).date;
      && d.month == month && d.day == day
      && year <= d.year < stop
      && Midnight(d) > now
      && InMonthRange(day, d.year, month)
      && forall y :: year <= y < d.year ==> PassedOver(month, day, now, y)
    decreases stop - year
  {
    if !(InMonthRange(day, year, month) && IsDate(Ymd(year, month, day)) && Midnight(Ymd(year, month, day)) > now) {
      assert PassedOver(month, day, now, year);
      ScanPassesOver(month, day, now, year, stop);
      ScanFound(month, day, now, year + 1, stop);
      var d := Lab3Scan(month, day, now, year + 1, stop).date;
      assert Lab3Scan(month, day, now, year, stop).date == d;
      forall y | year <= y < d.year ensures PassedOver(month, day, now, y) {
        if y > year { assert year + 1 <= y; }
      }
    } else {
      assert Lab3Scan(month, day, now, year, stop) == Found(Ymd(year, month, day));
    }
  }

  /** The scan reports nothing exactly when every year of the window is passed over. */
  lemma {:induction false} ScanNotFound(month: int, day: int, now: int, year: int, stop: int)
    requires 1 <= month <= 12
    ensures Lab3Scan(month, day, now, year, stop) == NotFound
            <==> forall y :: year <= y < stop ==> PassedOver(month, day, now, y)
    decreases stop - year
  {
    if year < stop {
      ScanNotFound(month, day, now, year + 1, stop);
      if PassedOver(month, day, now, year) {
        ScanPassesOver(month, day, now, year, stop);
      }
      if forall y :: year + 1 <= y < stop ==> PassedOver(month, day, now, y) {
        if PassedOver(month, day, now, year) {
          assert forall y :: year <= y < stop ==> PassedOver(month, day, now, y) by {
            forall y | year <= y < stop ensures PassedOver(month, day, now, y) {
              if y > year { assert year + 1 <= y; }
            }
          }
        }
      }
    }
  }

  /** The scan raises only at a year that passes the skip test with an impossible
      date, after passing over every earlier year. */
  lemma {:induction false} ScanRaised(month: int, day: int, now: int, year: int, stop: int)
    requires 1 <= month <= 12
    requires Lab3Scan(month, day, now, year, stop) == Raised
    ensures exists y :: year <= y < stop && InMonthRange(day, y, month) && !IsDate(Ymd(y, month, day))
                        && forall z :: year <= z < y ==> PassedOver(month, day, now, z)
    decreases stop - year
  {
    if !(InMonthRange(day, year, month) && !IsDate(Ymd(year, month, day))) {
      assert PassedOver(month, day, now, year);
      ScanPassesOver(month, day, now, year, stop);
      ScanRaised(month, day, now, year + 1, stop);
      var y :| year + 1 <= y < stop && InMonthRange(day, y, month) && !IsDate(Ymd(y, month, day))
               && forall z :: year + 1 <= z < y ==> PassedOver(month, day, now, z);
      assert forall z :: year <= z < y ==> PassedOver(month, day, now, z) by {
        forall z | year <= z < y ensures PassedOver(month, day, now, z) {
          if z > year { assert year + 1 <= z; }
        }
      }
    }
  }

  /** Lab3's two-field outcomes in the clock's terms: a found date is after the
      clock and in `[now.year, now.year + 8)`, the first year there to pass both
      tests; "Date does not exist!" means every year was passed over. */
  lemma Lab3TwoFields(month: int, day: int, now: int)
    requires ValidNow(now)
    ensures var r := Lab3Resolve([month, day], now);
      && (!(1 <= month <= 12) <==> r == Err(IllegalMonth))
      && (r.Ok? ==> && r.value.month == month && r.value.day == day
                    && YearOf(now) <= r.value.year < YearOf(now) + Window
                    && Midnight(r.value) > now
                    && forall y :: YearOf(now) <= y < r.value.year ==> PassedOver(month, day, now, y))
      && (1 <= month <= 12 ==>
            (r == Err(DateNotFound)
             <==> forall y :: YearOf(now) <= y < YearOf(now) + Window ==> PassedOver(month, day, now, y)))
  {
    if 1 <= month <= 12 {
      var s := Lab3Scan(month, day, now, YearOf(now), YearOf(now) + Window);
      var r := Lab3Resolve([month, day], now);
      ScanNotFound(month, day, now, YearOf(now), YearOf(now) + Window);
      match s
      case Found(d) =>
        assert r == Ok(d);
        ScanFound(month, day, now, YearOf(now), YearOf(now) + Window);
      case NotFound =>
        assert r == Err(DateNotFound);
      case Raised =>
        assert r == Err(InvalidDate);
    }
  }

  /** Three fields are taken literally as year, month and day. */
  lemma Lab3ThreeFields(a: int, b: int, c: int, now: int)
    requires ValidNow(now)
    ensures Lab3Resolve([a, b, c], now) == Lab2Resolve([a, b, c], now)
    ensures Lab3Resolve([a, b, c], now).Ok? <==> IsDate(Ymd(a, b, c))
    ensures Lab3Resolve([a, b, c], now).Ok? ==> Lab3Resolve([a, b, c], now).value == Ymd(a, b, c)
    ensures !IsDate(Ymd(a, b, c)) ==> Lab3Resolve([a, b, c], now) == Err(InvalidDate)
  {
  }

  /** A date string is rejected as badly formatted exactly when some piece is not
      an integer or there are not two or three pieces. */
  lemma DateFormatRejected(date: string, now: int)
    requires ValidNow(now)
    ensures var pieces := Split(date, '/');
      var bad := (exists i :: 0 <= i < |pieces| && ParseInt(pieces[i]).None?) || (|pieces| != 2 && |pieces| != 3);
      && (Lab3EventDate(date, now) == Err(BadDateFormat) <==> bad)
      && (Lab2EventDate(date, now) == Err(BadDateFormat) <==> bad)
  {
    var pieces := Split(date, '/');
    match IntFields(pieces)
    case None =>
    case Some(fields) =>
      Lab2FormatError(fields, now);
      Lab3FormatError(fields, now);
  }

  /** Once every piece is an integer, only the number of pieces makes the date
      badly formatted. */
  lemma Lab2FormatError(fields: seq<int>, now: int)
    ensures Lab2Resolve(fields, now) == Err(BadDateFormat) <==> |fields| != 2 && |fields| != 3
  {
  }

  lemma Lab3FormatError(fields: seq<int>, now: int)
    requires ValidNow(now)
    ensures Lab3Resolve(fields, now) == Err(BadDateFormat) <==> |fields| != 2 && |fields| != 3
  {
  }

  // ---------------------------------------------------------------- lemmas: the finding

  /** The membership test can only pass for days 0..6 (a weekday) or 28..31 (a
      month length), so a day from 7 to 27, which every month has, is never found. */
  lemma MidMonthDayNeverFound(month: int, day: int, now: int)
    requires ValidNow(now)
    requires 1 <= month <= 12 && 7 <= day <= 27
    ensures Lab3Resolve([month, day], now) == Err(DateNotFound)
  {
    MidMonthScan(month, day, now, YearOf(now), YearOf(now) + Window);
  }

  lemma {:induction false} MidMonthScan(month: int, day: int, now: int, year: int, stop: int)
    requires 1 <= month <= 12 && 7 <= day <= 27
    ensures Lab3Scan(month, day, now, year, stop) == NotFound
    decreases stop - year
  {
    if year < stop {
      var r := MonthRange(year, month);
      assert !InMonthRange(day, year, month);
      MidMonthScan(month, day, now, year + 1, stop);
    }
  }

  lemma {:induction false} UpcomingFound(month: int, day: int, now: int, year: int, stop: int)
    requires UpcomingScan(month, day, now, year, stop).Some?
    ensures var d := UpcomingScan(month, day, now, year, stop).value;
      && d.month == month && d.day == day && year <= d.year < stop
      && Midnight(d) > now
      && forall y :: year <= y < d.year ==> !Upcoming(month, day, now, y)
    decreases stop - year
  {
    if !Upcoming(month, day, now, year) {
      UpcomingFound(month, day, now, year + 1, stop);
    }
  }

  lemma {:induction false} UpcomingNone(month: int, day: int, now: int, year: int, stop: int)
    ensures UpcomingScan(month, day, now, year, stop).None?
            <==> forall y :: year <= y < stop ==> !Upcoming(month, day, now, y)
    decreases stop - year
  {
    if year < stop {
      UpcomingNone(month, day, now, year + 1, stop);
      if !Upcoming(month, day, now, year) && forall y :: year + 1 <= y < stop ==> !Upcoming(month, day, now, y) {
        forall y | year <= y < stop ensures !Upcoming(month, day, now, y) {
          if y > year { assert year + 1 <= y; }
        }
      }
    }
  }

  /** The intended resolver returns the earliest real date with that month and day
      after the clock within the window, and reports none only when there is none. */
  lemma NextOccurrenceIsEarliest(month: int, day: int, now: int)
    requires ValidNow(now)
    ensures var r := NextOccurrence(month, day, now);
      && (r.Some? ==> && r.value.month == month && r.value.day == day
                      && YearOf(now) <= r.value.year < YearOf(now) + Window
                      && Midnight(r.value) > now
                      && forall y :: YearOf(now) <= y < r.value.year ==> !Upcoming(month, day, now, y))
      && (r.None? <==> forall y :: YearOf(now) <= y < YearOf(now) + Window ==> !Upcoming(month, day, now, y))
  {
    var cur := YearOf(now);
    UpcomingNone(month, day, now, cur, cur + Window);
    if NextOccurrence(month, day, now).Some? {
      UpcomingFound(month, day, now, cur, cur + Window);
    }
  }

  /** A day every month has is always found by the intended resolver, this year
      or the next (short of year 9999). */
  lemma NextOccurrenceExists(month: int, day: int, now: int)
    requires ValidNow(now) && YearOf(now) < MaxYear
    requires 1 <= month <= 12 && 1 <= day <= 28
    ensures NextOccurrence(month, day, now).Some?
    ensures NextOccurrence(month, day, now).value.year <= YearOf(now) + 1
  {
    var cur := YearOf(now);
    var next: Date := Ymd(cur + 1, month, day);
    OtherYearIsFuture(now, next);
    assert Upcoming(month, day, now, cur + 1);
    NextOccurrenceIsEarliest(month, day, now);
  }

  /** "06/15" entered on 2024-01-01: the source answers "Date does not exist!",
      the intended resolver gives 2024-06-15. */
  lemma BirthdayScenario()
    ensures ValidNow(Midnight(Ymd(2024, 1, 1)))
    ensures Lab3EventDate("06/15", Midnight(Ymd(2024, 1, 1))) == Err(DateNotFound)
    ensures NextOccurrence(6, 15, Midnight(Ymd(2024, 1, 1))) == Some(Ymd(2024, 6, 15))
  {
    var now := Midnight(Ymd(2024, 1, 1));
    YearOfMidnight(Ymd(2024, 1, 1));
    BirthdayFields();
    MidMonthDayNeverFound(6, 15, now);
    BirthdayUpcoming();
  }

  lemma BirthdayFields()
    ensures IntFields(Split("06/15", '/')) == Some([6, 15])
  {
    var pieces := Split("06/15", '/');
    assert pieces == ["06", "15"] by {
      SplitJoin(["06", "15"], '/');
      assert Join(["06", "15"], '/') == "06/15";
    }
    ParseBirthdayFields();
    assert ParseInt(pieces[0]) == Some(6) && ParseInt(pieces[1]) == Some(15);
    var r := IntFields(pieces);
    assert r.Some?;
    assert r.value[0] == 6 && r.value[1] == 15;
    assert r.value == [6, 15];
  }

  lemma ParseBirthdayFields()
    ensures ParseInt("06") == Some(6) && ParseInt("15") == Some(15)
  {
    ParseIntOfZeroPad(6, 2);
    assert ZeroPad(6, 2) == "06" by { assert NatToString(6) == "6"; }
    ParseIntOfZeroPad(15, 2);
    assert ZeroPad(15, 2) == "15" by { assert NatToString(15) == NatToString(1) + "5"; }
  }

  lemma BirthdayUpcoming()
    ensures Upcoming(6, 15, Midnight(Ymd(2024, 1, 1)), 2024)
  {
  }

  // ---------------------------------------------------------------- lemmas: Lab2

  /** Lab2's two-field choice: 2020-m-d when it is after the clock, otherwise
      2021-m-d whether or not that is after the clock; either raises for an
      impossible date. */
  lemma Lab2TwoFields(month: int, day: int, now: int)
    ensures var r := Lab2Resolve([month, day], now);
      && (r.Ok? ==> r.value.month == month && r.value.day == day
                    && ((r.value.year == 2020 && Midnight(r.value) > now)
                        || (r.value.year == 2021 && IsDate(Ymd(2020, month, day)) && Midnight(Ymd(2020, month, day)) <= now)))
      && (r.Err? ==> r.error == InvalidDate)
      && (IsDate(Ymd(2021, month, day)) ==> r.Ok?)
  {
    if IsDate(Ymd(2021, month, day)) {
      assert IsDate(Ymd(2020, month, day));
    }
  }

  /** The 2021 fallback is not checked against the clock: once 2021-m-d has
      passed, Lab2 still stores 2021-m-d, a date in the past. */
  lemma Lab2FallbackInPast(month: int, day: int, now: int)
    requires IsDate(Ymd(2021, month, day)) && Midnight(Ymd(2021, month, day)) <= now
    ensures Lab2Resolve([month, day], now) == Ok(Ymd(2021, month, day))
    ensures Midnight(Lab2Resolve([month, day], now).value) <= now
  {
    var early: Date := Ymd(2020, month, day);
    var late: Date := Ymd(2021, month, day);
    OrdinalStrict(early, late);
  }
}
