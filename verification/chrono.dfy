/**
 * Dates, times of day and instants as the scraper sees them.
 *
 * A date is its proleptic Gregorian ordinal, as Python's `date.toordinal()`
 * gives it (0001-01-01 is day 1), so "yesterday" is `d - 1` and the weekday
 * is Python's `date.weekday()` (Monday is 0). A time of day is an hour and a
 * minute; instants (`timezone.now()`) are opaque numbers supplied by the caller.
 */
module Chrono {
  import opened Wrappers
  import opened Text

  type Date = int
  type Instant = int

  /** Python's `date.weekday()`: Monday is 0, Sunday is 6. */
  function Weekday(d: Date): (w: int)
    ensures 0 <= w <= 6
  {
    (d + 6) % 7
  }

  /** Every non-empty finite set of dates has a latest one. */
  lemma {:induction false} LatestExists(s: set<Date>)
    requires exists d :: d in s
    ensures exists m :: m in s && forall d :: d in s ==> d <= m
    decreases |s|
  {
    var y :| y in s;
    if exists d :: d in s && d != y {
      var other :| other in s && other != y;
      var rest := s - {y};
      assert other in rest;
      LatestExists(rest);
      var m :| m in rest && forall d :: d in rest ==> d <= m;
      var top := if m < y then y else m;
      forall d | d in s
        ensures d <= top
      {
        if d != y {
          assert d in rest;
        }
      }
      assert top in s;
    } else {
      assert forall d :: d in s ==> d <= y;
    }
  }

  /** The latest of a set of dates: what `.latest("date")` returns. */
  function Latest(s: set<Date>): (m: Date)
    requires exists d :: d in s
    ensures m in s
    ensures forall d :: d in s ==> d <= m
  {
    LatestExists(s);
    var m :| m in s && forall d :: d in s ==> d <= m;
    m
  }

  type Hour = h: int | 0 <= h <= 23
  type Minute = m: int | 0 <= m <= 59

  /** A `datetime.time` with zero seconds. */
  datatype Time = Time(hour: Hour, minute: Minute)

  /** Python's `<` on `datetime.time` values: hour first, then minute. */
  predicate TimeBefore(a: Time, b: Time) {
    a.hour < b.hour || (a.hour == b.hour && a.minute < b.minute)
  }

  /** A calendar date as year, month and day of month. */
  datatype CalendarDate = CalendarDate(year: int, month: int, day: int)

  predicate IsLeapYear(y: int) {
    y % 4 == 0 && (y % 100 != 0 || y % 400 == 0)
  }

  function DaysInMonth(y: int, m: int): int
    requires 1 <= m <= 12
  {
    if m == 2 then (if IsLeapYear(y) then 29 else 28)
    else if m == 4 || m == 6 || m == 9 || m == 11 then 30
    else 31
  }

  /** The range Python's `date` accepts. */
  predicate ValidCalendarDate(c: CalendarDate) {
    1 <= c.year <= 9999 && 1 <= c.month <= 12 && 1 <= c.day <= DaysInMonth(c.year, c.month)
  }

  function DaysBeforeMonth(y: int, m: int): int
    requires 1 <= m <= 12
  {
    if m == 1 then 0 else DaysBeforeMonth(y, m - 1) + DaysInMonth(y, m - 1)
  }

  function DaysBeforeYear(y: int): int {
    var p := y - 1;
    365 * p + p / 4 - p / 100 + p / 400
  }

  /** Python's `date(y, m, d).toordinal()`. */
  function ToOrdinal(c: CalendarDate): Date
    requires ValidCalendarDate(c)
  {
    DaysBeforeYear(c.year) + DaysBeforeMonth(c.year, c.month) + c.day
  }

  /** Two decimal digits, zero-padded. */
  function Pad2(n: int): (s: string)
    requires 0 <= n <= 99
    ensures |s| == 2 && AllDigits(s)
  {
    [DigitChar(n / 10), DigitChar(n % 10)]
  }

  /** Four decimal digits, zero-padded. */
  function Pad4(n: int): (s: string)
    requires 0 <= n <= 9999
    ensures |s| == 4 && AllDigits(s)
  {
    Pad2(n / 100) + Pad2(n % 100)
  }

  lemma DigitsValueSnoc(a: string, c: char)
    requires AllDigits(a) && IsDigit(c)
    ensures AllDigits(a + [c])
    ensures DigitsValue(a + [c]) == DigitsValue(a) * 10 + DigitValue(c)
  {
    assert (a + [c])[..|a|] == a;
  }

  lemma DigitsValuePair(s: string)
    requires |s| == 2 && AllDigits(s)
    ensures DigitsValue(s) == DigitValue(s[0]) * 10 + DigitValue(s[1])
  {
    assert s == [] + [s[0]] + [s[1]];
    DigitsValueSnoc([], s[0]);
    DigitsValueSnoc([s[0]], s[1]);
  }

  lemma Pad2Value(n: int)
    requires 0 <= n <= 99
    ensures DigitsValue(Pad2(n)) == n
  {
    DigitsValuePair(Pad2(n));
  }

  lemma Pad2Canonical(s: string)
    requires |s| == 2 && AllDigits(s)
    ensures DigitsValue(s) <= 99 && Pad2(DigitsValue(s)) == s
  {
    DigitsValuePair(s);
    var v := DigitsValue(s);
    assert v / 10 == DigitValue(s[0]) && v % 10 == DigitValue(s[1]);
  }

  lemma DigitsValueAppend(a: string, b: string)
    requires AllDigits(a) && AllDigits(b) && |b| == 2
    ensures AllDigits(a + b)
    ensures DigitsValue(a + b) == DigitsValue(a) * 100 + DigitsValue(b)
  {
    assert a + b == (a + [b[0]]) + [b[1]];
    DigitsValueSnoc(a, b[0]);
    DigitsValueSnoc(a + [b[0]], b[1]);
    DigitsValuePair(b);
  }

  lemma Pad4Value(n: int)
    requires 0 <= n <= 9999
    ensures DigitsValue(Pad4(n)) == n
  {
    DigitsValueAppend(Pad2(n / 100), Pad2(n % 100));
    Pad2Value(n / 100);
    Pad2Value(n % 100);
  }

  lemma Pad4Canonical(s: string)
    requires |s| == 4 && AllDigits(s)
    ensures DigitsValue(s) <= 9999 && Pad4(DigitsValue(s)) == s
  {
    var hi, lo := s[..2], s[2..];
    assert s == hi + lo;
    DigitsValueAppend(hi, lo);
    Pad2Canonical(hi);
    Pad2Canonical(lo);
    var v := DigitsValue(s);
    assert v / 100 == DigitsValue(hi) && v % 100 == DigitsValue(lo);
  }

  /** `date.isoformat()`: YYYY-MM-DD. */
  function IsoText(c: CalendarDate): (s: string)
    requires ValidCalendarDate(c)
    ensures |s| == 10
  {
    Pad4(c.year) + "-" + Pad2(c.month) + "-" + Pad2(c.day)
  }

  /**
   * `date.fromisoformat(s)` for the extended calendar form YYYY-MM-DD of
   * ISO 8601 (section 4.1.2.2 of ISO 8601:2004); anything else, or a date
   * outside the calendar, raises ValueError.
   */
  function ParseIsoDate(s: string): (r: Result<CalendarDate>)
    ensures r.Ok? ==> ValidCalendarDate(r.value)
    ensures r.Err? ==> r.error == ValueError
  {
    if |s| != 10 || s[4] != '-' || s[7] != '-'
       || !AllDigits(s[..4]) || !AllDigits(s[5..7]) || !AllDigits(s[8..]) then
      Err(ValueError)
    else
      var c := CalendarDate(DigitsValue(s[..4]), DigitsValue(s[5..7]), DigitsValue(s[8..]));
      if ValidCalendarDate(c) then Ok(c) else Err(ValueError)
  }

  /** Every valid date reads back from its ISO text. */
  lemma IsoRoundTrip(c: CalendarDate)
    requires ValidCalendarDate(c)
    ensures ParseIsoDate(IsoText(c)) == Ok(c)
  {
    var s := IsoText(c);
    assert s[..4] == Pad4(c.year);
    assert s[5..7] == Pad2(c.month);
    assert s[8..] == Pad2(c.day);
    Pad4Value(c.year);
    Pad2Value(c.month);
    Pad2Value(c.day);
  }

  /** The only text that parses to a date is that date's ISO text. */
  lemma IsoParseCanonical(s: string)
    requires ParseIsoDate(s).Ok?
    ensures IsoText(ParseIsoDate(s).value) == s
  {
    Pad4Canonical(s[..4]);
    Pad2Canonical(s[5..7]);
    Pad2Canonical(s[8..]);
    assert s == s[..4] + "-" + s[5..7] + "-" + s[8..];
  }

  /** 2001-09-11, the date used by the end-date tests, was a Tuesday. */
  lemma KnownWeekday()
    ensures ParseIsoDate("2001-09-11") == Ok(CalendarDate(2001, 9, 11))
    ensures Weekday(ToOrdinal(CalendarDate(2001, 9, 11))) == 1
    ensures ParseIsoDate("Blah") == Err(ValueError)
  {
    IsoRoundTrip(CalendarDate(2001, 9, 11));
    assert IsoText(CalendarDate(2001, 9, 11)) == "2001-09-11";
  }
}
