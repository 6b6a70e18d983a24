/**
 * Dates and times as the booking code sees them: Python's `datetime.date` and
 * `datetime.time`, their ordering, their `str()` forms, and
 * `datetime.strptime(s, '%Y-%m-%d').date()`, which the slot listing uses to
 * read the requested date.
 */
module Calendar {
  import opened Wrappers
  import opened Text

  datatype Date = Date(year: nat, month: nat, day: nat)

  predicate IsLeapYear(y: nat) {
    y % 4 == 0 && (y % 100 != 0 || y % 400 == 0)
  }

  function DaysInMonth(year: nat, month: nat): nat
    requires 1 <= month <= 12
  {
    if month == 2 then (if IsLeapYear(year) then 29 else 28)
    else if month == 4 || month == 6 || month == 9 || month == 11 then 30
    else 31
  }

  /** The dates `datetime.date` accepts: years 1 to 9999 of the Gregorian calendar. */
  predicate ValidDate(d: Date) {
    1 <= d.year <= 9999 && 1 <= d.month <= 12 && 1 <= d.day <= DaysInMonth(d.year, d.month)
  }

  /** `a < b` on dates. */
  predicate DateBefore(a: Date, b: Date) {
    a.year < b.year
    || (a.year == b.year && a.month < b.month)
    || (a.year == b.year && a.month == b.month && a.day < b.day)
  }

  datatype Time = Time(hour: nat, minute: nat, second: nat, microsecond: nat)

  predicate ValidTime(t: Time) {
    t.hour < 24 && t.minute < 60 && t.second < 60 && t.microsecond < 1000000
  }

  /** `a < b` on times of day. */
  predicate TimeBefore(a: Time, b: Time) {
    a.hour < b.hour
    || (a.hour == b.hour && a.minute < b.minute)
    || (a.hour == b.hour && a.minute == b.minute && a.second < b.second)
    || (a.hour == b.hour && a.minute == b.minute && a.second == b.second && a.microsecond < b.microsecond)
  }

  /** `str(d)`: `YYYY-MM-DD`. */
  function IsoDate(d: Date): string {
    Padded(d.year, 4) + "-" + Padded(d.month, 2) + "-" + Padded(d.day, 2)
  }

  /** `str(t)`: `HH:MM:SS`, followed by `.ffffff` when the microseconds are not zero. */
  function IsoTime(t: Time): string {
    Padded(t.hour, 2) + ":" + Padded(t.minute, 2) + ":" + Padded(t.second, 2)
    + (if t.microsecond != 0 then "." + Padded(t.microsecond, 6) else "")
  }

  // ---------------------------------------------------------------------------
  // strptime(s, '%Y-%m-%d')
  //
  // The format compiles to the pattern
  //   (\d\d\d\d)-(1[0-2]|0[1-9]|[1-9])-(3[01]|[12]\d|0[1-9]|[1-9]| [1-9])
  // which must consume the whole string; the fields then have to form a real
  // calendar date. A month field never contains '-', so the month is the text
  // between the first two dashes, and the day is everything after the second.
  // ---------------------------------------------------------------------------

  /** The texts the `%m` alternatives accept when followed by '-'. */
  predicate MonthField(f: string) {
    || (|f| == 1 && '1' <= f[0] <= '9')
    || (|f| == 2 && f[0] == '0' && '1' <= f[1] <= '9')
    || (|f| == 2 && f[0] == '1' && '0' <= f[1] <= '2')
  }

  /**
   * The texts the `%d` alternatives accept as the whole remainder: the first
   * alternative that matches must reach the end of the string.
   */
  predicate DayField(f: string) {
    || (|f| == 1 && '1' <= f[0] <= '9')
    || (|f| == 2 && f[0] == '0' && '1' <= f[1] <= '9')
    || (|f| == 2 && (f[0] == '1' || f[0] == '2') && IsDigit(f[1]))
    || (|f| == 2 && f[0] == '3' && (f[1] == '0' || f[1] == '1'))
    || (|f| == 2 && f[0] == ' ' && '1' <= f[1] <= '9')
  }

  /** The number a month or day field denotes (a leading space is ignored). */
  function FieldValue(f: string): nat
    requires MonthField(f) || DayField(f)
  {
    if f[0] == ' ' then DigitValue(f[1]) else DigitsValue(f)
  }

  /** `datetime.strptime(s, '%Y-%m-%d').date()`, with None for the `ValueError` cases. */
  function ParseIsoDate(s: string): (r: Option<Date>)
    ensures r.Some? ==> ValidDate(r.value)
    ensures r.Some? ==> 8 <= |s| <= 10 && s[4] == '-' && AllDigits(s[..4])
    ensures r.Some? ==> exists m, dd :: MonthField(m) && DayField(dd) && s == s[..4] + "-" + m + "-" + dd
                                        && r.value == Date(DigitsValue(s[..4]), FieldValue(m), FieldValue(dd))
  {
    if |s| < 5 || !AllDigits(s[..4]) || s[4] != '-' then None
    else
      var rest := s[5..];
      var k := Find(rest, '-');
      if k < 0 then None
      else
        var m := rest[..k];
        var d := rest[k + 1..];
        if !MonthField(m) || !DayField(d) then None
        else
          var date := Date(DigitsValue(s[..4]), FieldValue(m), FieldValue(d));
          assert s == s[..4] + "-" + m + "-" + d;
          if ValidDate(date) then Some(date) else None
  }

  /** A date's `str()` form followed by anything more is unconverted data, which strptime refuses. */
  lemma TrailingDataRejected(d: Date, extra: string)
    requires ValidDate(d) && extra != ""
    ensures ParseIsoDate(IsoDate(d) + extra).None?
  {
    DecimalLength(d.year, 4, 10000);
    TwoDigits(d.month);
    TwoDigits(d.day);
    assert |IsoDate(d) + extra| > 10;
  }

  lemma TwoDigits(n: nat)
    requires n < 100
    ensures Padded(n, 2) == [DigitChar(n / 10), DigitChar(n % 10)]
  {
    if n >= 10 {
      assert Decimal(n) == Decimal(n / 10) + [DigitChar(n % 10)];
    }
  }

  /** A four-digit year, a month field and a day field joined by dashes parse field by field. */
  lemma ParseFields(y: string, m: string, dd: string)
    requires |y| == 4 && AllDigits(y) && MonthField(m) && DayField(dd)
    ensures ParseIsoDate(y + "-" + m + "-" + dd) ==
              var date := Date(DigitsValue(y), FieldValue(m), FieldValue(dd));
              if ValidDate(date) then Some(date) else None
  {
    var s := y + "-" + m + "-" + dd;
    assert s[..4] == y;
    var rest := s[5..];
    assert rest == m + "-" + dd;
    assert Find(rest, '-') == |m| by {
      assert rest[|m|] == '-';
      forall j | 0 <= j < |m| ensures rest[j] != '-' {
        assert rest[j] == m[j];
      }
    }
    assert rest[..|m|] == m && rest[|m| + 1..] == dd;
  }

  /** A month or day below 100, zero-padded to two digits, is a field denoting itself. */
  lemma PaddedField(n: nat)
    requires 1 <= n <= 31
    ensures n <= 12 ==> MonthField(Padded(n, 2))
    ensures DayField(Padded(n, 2))
    ensures (MonthField(Padded(n, 2)) || DayField(Padded(n, 2))) && FieldValue(Padded(n, 2)) == n
  {
    TwoDigits(n);
    PaddedRoundTrip(n, 2);
  }

  /** Reading back the `str()` form of a date gives the date. */
  lemma IsoDateRoundTrip(d: Date)
    requires ValidDate(d)
    ensures ParseIsoDate(IsoDate(d)) == Some(d)
  {
    var y := Padded(d.year, 4);
    assert |y| == 4 by {
      DecimalLength(d.year, 4, 10000);
    }
    PaddedRoundTrip(d.year, 4);
    PaddedField(d.month);
    PaddedField(d.day);
    ParseFields(y, Padded(d.month, 2), Padded(d.day, 2));
  }
}
