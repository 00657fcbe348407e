/**
 * Gregorian calendar facts and the date strings the pages build: the
 * `yyyy-MM-01` .. `yyyy-MM-31` query range of a month, ISO 8601 calendar
 * dates in extended format (`YYYY-MM-DD`), and the `dd-MM-yyyy` stamp used
 * in file names.
 */
module Calendar {

  import opened Text

  /** The year `new Date(y, m, d)` actually uses: years 0..99 mean 1900..1999. */
  function JsYear(y: int): (r: int)
    ensures y < 0 || y >= 100 ==> r == y
    ensures 0 <= y < 100 ==> r == 1900 + y
  {
    if 0 <= y < 100 then 1900 + y else y
  }

  predicate IsLeapYear(y: int) {
    y % 4 == 0 && (y % 100 != 0 || y % 400 == 0)
  }

  /**
   * `new Date(year, month, 0).getDate()` for a 1-based month: day 0 of the
   * following month is the last day of `month`.
   */
  function DaysInMonth(year: int, month: nat): (n: nat)
    requires 1 <= month <= 12
    ensures 28 <= n <= 31
  {
    if month == 2 then (if IsLeapYear(JsYear(year)) then 29 else 28)
    else if month == 4 || month == 6 || month == 9 || month == 11 then 30
    else 31
  }

  function DaysBefore(year: int, month: nat): nat
    requires 1 <= month <= 13
    decreases month
  {
    if month == 1 then 0 else DaysBefore(year, month - 1) + DaysInMonth(year, month - 1)
  }

  /** The twelve month lengths add up to the length of the Gregorian year. */
  lemma YearLength(year: int)
    ensures DaysBefore(year, 13) == if IsLeapYear(JsYear(year)) then 366 else 365
  {
  }

  // ---------------------------------------------------------------------------
  // Day numbers and the range of a JavaScript Date
  // ---------------------------------------------------------------------------

  /**
   * DayFromYear of section 21.4.1.3 of ECMA-262: the days from 1970-01-01 to
   * January 1 of year `y`. The standard's `floor` is Dafny's `/`, which rounds
   * down for a positive divisor.
   */
  function DayFromYear(y: int): int {
    365 * (y - 1970) + (y - 1969) / 4 - (y - 1901) / 100 + (y - 1601) / 400
  }

  /** One year on, January 1 has moved by the length of that year. */
  lemma DayFromYearStep(y: int)
    ensures DayFromYear(y + 1) - DayFromYear(y) == if IsLeapYear(y) then 366 else 365
  {
    LeapStep4(y);
    LeapStep100(y);
    LeapStep400(y);
    assert DayFromYear(y + 1) == 365 * (y - 1969) + (y - 1968) / 4 - (y - 1900) / 100 + (y - 1600) / 400;
  }

  /** The three floors of DayFromYear move by one exactly when `y` is a multiple of 4, 100 and 400. */
  lemma LeapStep4(y: int)
    ensures (y - 1968) / 4 - (y - 1969) / 4 == if y % 4 == 0 then 1 else 0
  {
    var a0, a1, q := (y - 1969) / 4, (y - 1968) / 4, y / 4;
    assert 4 * a0 <= y - 1969 < 4 * a0 + 4;
    assert 4 * a1 <= y - 1968 < 4 * a1 + 4;
    assert y == 4 * q + y % 4;
    assert a1 == q - 492;
  }

  lemma LeapStep100(y: int)
    ensures (y - 1900) / 100 - (y - 1901) / 100 == if y % 100 == 0 then 1 else 0
  {
    var a0, a1, q := (y - 1901) / 100, (y - 1900) / 100, y / 100;
    assert 100 * a0 <= y - 1901 < 100 * a0 + 100;
    assert 100 * a1 <= y - 1900 < 100 * a1 + 100;
    assert y == 100 * q + y % 100;
    assert a1 == q - 19;
  }

  lemma LeapStep400(y: int)
    ensures (y - 1600) / 400 - (y - 1601) / 400 == if y % 400 == 0 then 1 else 0
  {
    var a0, a1, q := (y - 1601) / 400, (y - 1600) / 400, y / 400;
    assert 400 * a0 <= y - 1601 < 400 * a0 + 400;
    assert 400 * a1 <= y - 1600 < 400 * a1 + 400;
    assert y == 400 * q + y % 400;
    assert a1 == q - 4;
  }

  /**
   * The day `new Date(y, m - 1, d)` falls on, counted from 1970-01-01, for a
   * 1-based month and the raw year argument.
   */
  function DayNumber(y: int, m: nat, d: nat): int
    requires 1 <= m <= 12
  {
    DayFromYear(JsYear(y)) + DaysBefore(y, m) + d - 1
  }

  /**
   * A time value lies within 8.64e15 ms of the epoch, that is 100,000,000
   * days (section 21.4.1.1 of ECMA-262); outside it a Date is invalid.
   */
  const MaxDays: int := 100_000_000

  function InTimeRange(y: int, m: nat, d: nat): bool
    requires 1 <= m <= 12
  {
    -MaxDays <= DayNumber(y, m, d) <= MaxDays
  }

  /** The range ends at 275760-09-13 and starts at -271821-04-20, the dates the standard names. */
  lemma TimeRangeEnds()
    ensures DayNumber(1970, 1, 1) == 0
    ensures DayNumber(275760, 9, 13) == MaxDays && DayNumber(275760, 9, 14) == MaxDays + 1
    ensures DayNumber(-271821, 4, 20) == -MaxDays && DayNumber(-271821, 4, 19) == -MaxDays - 1
  {
    assert DaysBefore(275760, 9) == 244;
    assert DaysBefore(-271821, 4) == 90;
  }

  /** `new Date(y, i, 1)` and `new Date(y, i + 1, 0)`, a month's first and last day, are both valid. */
  function MonthInTimeRange(y: int, i: nat): bool
    requires i < 12
  {
    InTimeRange(y, i + 1, 1) && InTimeRange(y, i + 1, DaysInMonth(y, i + 1))
  }

  const MaxYear: int := 275760
  const MinYear: int := -271821

  /** The first days of the months, as sums of the month lengths before them. */
  lemma DaysBeforeBounds(y: int, m: nat)
    requires 1 <= m <= 12
    ensures 28 * (m - 1) <= DaysBefore(y, m) && DaysBefore(y, m) + DaysInMonth(y, m) <= 31 * m
    decreases m
  {
    if m > 1 {
      DaysBeforeBounds(y, m - 1);
    }
  }

  /** January 1 of year `y` lies within a few days of 365.2425 days per year from 1970. */
  lemma DayFromYearBounds(y: int)
    ensures 400 * DayFromYear(y) >= 146097 * (y - 1970) - 2000
    ensures 400 * DayFromYear(y) <= 146097 * (y - 1970) + 2000
  {
    var a, b, c := (y - 1969) / 4, (y - 1901) / 100, (y - 1601) / 400;
    assert 4 * a <= y - 1969 < 4 * a + 4;
    assert 100 * b <= y - 1901 < 100 * b + 100;
    assert 400 * c <= y - 1601 < 400 * c + 400;
  }

  /**
   * Which months a year argument can name: every month of the years strictly
   * between -271821 and 275760 (after the two-digit rule), January to August
   * of 275760, and May to December of -271821.
   */
  lemma MonthInTimeRangeYears(y: int, i: nat)
    requires i < 12
    ensures MonthInTimeRange(y, i) <==>
      var yr := JsYear(y);
      (MinYear < yr < MaxYear) || (yr == MaxYear && i <= 7) || (yr == MinYear && i >= 4)
  {
    var yr := JsYear(y);
    if yr == MaxYear {
      LastYearMonths(y, i);
    } else if yr == MinYear {
      FirstYearMonths(y, i);
    } else {
      OtherYearMonths(y, i);
    }
  }

  /** The first and last day of a month lie within a year's length of January 1. */
  lemma MonthDays(y: int, i: nat)
    requires i < 12
    ensures DayFromYear(JsYear(y)) <= DayNumber(y, i + 1, 1)
    ensures DayNumber(y, i + 1, 1) <= DayNumber(y, i + 1, DaysInMonth(y, i + 1)) <= DayFromYear(JsYear(y)) + 371
  {
    DaysBeforeBounds(y, i + 1);
  }

  lemma OtherYearMonths(y: int, i: nat)
    requires i < 12 && JsYear(y) != MaxYear && JsYear(y) != MinYear
    ensures MonthInTimeRange(y, i) <==> MinYear < JsYear(y) < MaxYear
  {
    MonthDays(y, i);
    DayFromYearBounds(JsYear(y));
  }

  lemma LastYearMonths(y: int, i: nat)
    requires i < 12 && JsYear(y) == MaxYear
    ensures MonthInTimeRange(y, i) <==> i <= 7
  {
    assert y == MaxYear;
    assert IsLeapYear(y);
    assert DayFromYear(y) == MaxDays - 256;
    MonthStarts(y, i + 1);
  }

  lemma FirstYearMonths(y: int, i: nat)
    requires i < 12 && JsYear(y) == MinYear
    ensures MonthInTimeRange(y, i) <==> i >= 4
  {
    assert y == MinYear;
    assert !IsLeapYear(y);
    assert DayFromYear(y) == -MaxDays - 109;
    MonthStarts(y, i + 1);
  }

  /** The first day of each month in a year, by the leap rule. */
  lemma MonthStarts(y: int, m: nat)
    requires 1 <= m <= 12
    ensures DaysBefore(y, m) == [0, 31, 59, 90, 120, 151, 181, 212, 243, 273, 304, 334][m - 1] +
      (if m > 2 && IsLeapYear(JsYear(y)) then 1 else 0)
  {
    if m > 1 {
      MonthStarts(y, m - 1);
    }
  }

  /** The start and end strings of a Firestore `date` range query. */
  datatype DateRange = DateRange(start: string, end: string)

  /** `${year}-${month.padStart(2,'0')}-01` .. `-31`, the range every monthly query uses. */
  function MonthRange(year: nat, month: nat): DateRange
    requires 1 <= month <= 12
  {
    var prefix := NatToString(year) + "-" + TwoDigits(month) + "-";
    DateRange(prefix + "01", prefix + "31")
  }

  /** `where("date", ">=", start)` and `where("date", "<=", end)` on string dates. */
  predicate InRange(date: string, r: DateRange) {
    StrLe(r.start, date) && StrLe(date, r.end)
  }

  /** A calendar date written `YYYY-MM-DD`. */
  function IsoDate(year: nat, month: nat, day: nat): string {
    NatToString(year) + "-" + TwoDigits(month) + "-" + TwoDigits(day)
  }

  /** An ISO date splits on `-` into its year, month and day fields. */
  lemma IsoDateParts(y: nat, m: nat, d: nat)
    ensures Split(IsoDate(y, m, d), '-') == [NatToString(y), TwoDigits(m), TwoDigits(d)]
  {
    var Y, M, D := NatToString(y), TwoDigits(m), TwoDigits(d);
    DigitsNoDash(Y);
    DigitsNoDash(M);
    DigitsNoDash(D);
    assert IsoDate(y, m, d) == Y + ['-'] + (M + ['-'] + D);
    SplitConcat(Y, M + ['-'] + D, '-');
    SplitConcat(M, D, '-');
    SplitNoSeparator(D, '-');
  }

  lemma FourDigitYear(y: nat)
    requires 1000 <= y <= 9999
    ensures |NatToString(y)| == 4
  {
    assert |NatToString(y / 1000)| == 1;
    assert NatToString(y / 100) == NatToString(y / 100 / 10) + [DigitChar(y / 100 % 10)];
    assert NatToString(y / 10) == NatToString(y / 10 / 10) + [DigitChar(y / 10 % 10)];
  }

  lemma DayBounds(d: nat)
    requires 1 <= d <= 31
    ensures StrLe("01", TwoDigits(d)) && StrLe(TwoDigits(d), "31")
  {
    TwoDigitsChars(d);
    TwoDigitsChars(1);
    TwoDigitsChars(31);
    DigitCharOrder(0, d / 10);
    DigitCharOrder(d / 10, 3);
    DigitCharOrder(1, d % 10);
    DigitCharOrder(d % 10, 1);
    var s := TwoDigits(d);
    assert s[1..] == [DigitChar(d % 10)];
    assert "01"[1..] == [DigitChar(1)];
    assert "31"[1..] == [DigitChar(1)];
  }

  /**
   * A string lies between two bounds that share a prefix of the same length as
   * its own prefix exactly when the prefixes agree and the rests are in order.
   */
  lemma BetweenSplit(p: string, q: string, a: string, b: string, c: string)
    requires |p| == |q|
    ensures (StrLe(p + a, q + b) && StrLe(q + b, p + c)) <==> (p == q && StrLe(a, b) && StrLe(b, c))
  {
    if p != q {
      StrLeFirstDifference(p, q, a, b);
      StrLeFirstDifference(q, p, b, c);
      if StrLe(p, q) && StrLe(q, p) {
        StrLeAntisym(p, q);
      }
    } else {
      StrLeCommonPrefix(p, a, b);
      StrLeCommonPrefix(p, b, c);
    }
  }

  /**
   * The month's query range selects exactly the dates of that month: a date
   * with a four-digit year lies in `MonthRange(year, month)` if and only if it
   * has that year and that month (day 1..31, whatever the month's length).
   */
  lemma MonthRangeSelectsMonth(year: nat, month: nat, y: nat, m: nat, d: nat)
    requires 1000 <= year <= 9999 && 1 <= month <= 12
    requires 1000 <= y <= 9999 && 1 <= m <= 12 && 1 <= d <= 31
    ensures InRange(IsoDate(y, m, d), MonthRange(year, month)) <==> y == year && m == month
  {
    RangeByParts(year, month, y, m, d);
    DayBounds(d);
    ParseNatToString(year);
    ParseNatToString(y);
    if TwoDigits(month) == TwoDigits(m) {
      TwoDigitsInjective(month, m);
    }
  }

  /** Membership in the range, compared part by part: the year text, the month text and the day between "01" and "31". */
  lemma RangeByParts(year: nat, month: nat, y: nat, m: nat, d: nat)
    requires 1000 <= year <= 9999 && 1 <= month <= 12
    requires 1000 <= y <= 9999 && 1 <= m <= 12 && 1 <= d <= 31
    ensures InRange(IsoDate(y, m, d), MonthRange(year, month)) <==>
      NatToString(year) == NatToString(y) && TwoDigits(month) == TwoDigits(m) &&
      StrLe("01", TwoDigits(d)) && StrLe(TwoDigits(d), "31")
  {
    var Y, Y' := NatToString(year), NatToString(y);
    var M, M' := TwoDigits(month), TwoDigits(m);
    var D := TwoDigits(d);
    FourDigitYear(year);
    FourDigitYear(y);
    var r := MonthRange(year, month);
    var date := IsoDate(y, m, d);
    assert r.start == Y + ("-" + (M + ("-" + "01")));
    assert r.end == Y + ("-" + (M + ("-" + "31")));
    assert date == Y' + ("-" + (M' + ("-" + D)));
    BetweenSplit(Y, Y', "-" + (M + ("-" + "01")), "-" + (M' + ("-" + D)), "-" + (M + ("-" + "31")));
    BetweenSplit("-", "-", M + ("-" + "01"), M' + ("-" + D), M + ("-" + "31"));
    BetweenSplit(M, M', "-" + "01", "-" + D, "-" + "31");
    BetweenSplit("-", "-", "01", D, "31");
  }

  /** A calendar date as `Date` fields: 1-based month and day. */
  datatype Date = Date(year: nat, month: nat, day: nat)

  /** date-fns `yyyy`: the year padded with zeros to at least four digits. */
  function YearDigits(y: nat): (s: string)
    ensures AllDigits(s) && |s| >= 4
    ensures ParseDigits(s) == y
  {
    ParseNatToString(y);
    PadZeros(NatToString(y), 4)
  }

  function PadZeros(s: string, width: nat): (r: string)
    requires AllDigits(s)
    ensures AllDigits(r) && |r| >= width && |r| >= |s|
    ensures ParseDigits(r) == ParseDigits(s)
    decreases width - |s|
  {
    if |s| >= width then s else ParseLeadingZero(s); PadZeros("0" + s, width)
  }

  /** date-fns `dd-MM-yyyy`, stamped into every downloaded file name. */
  function DdMmYyyy(t: Date): string {
    TwoDigits(t.day) + "-" + TwoDigits(t.month) + "-" + YearDigits(t.year)
  }

  /** The stamp splits back into its three fields, which parse back to the date. */
  lemma DdMmYyyyRoundTrip(t: Date)
    requires t.day < 100 && t.month < 100
    ensures |Split(DdMmYyyy(t), '-')| == 3
    ensures var parts := Split(DdMmYyyy(t), '-');
      AllDigits(parts[0]) && AllDigits(parts[1]) && AllDigits(parts[2]) &&
      Date(ParseDigits(parts[2]), ParseDigits(parts[1]), ParseDigits(parts[0])) == t
  {
    var dd, mm, yy := TwoDigits(t.day), TwoDigits(t.month), YearDigits(t.year);
    DigitsNoDash(dd);
    DigitsNoDash(mm);
    DigitsNoDash(yy);
    assert DdMmYyyy(t) == dd + ['-'] + (mm + ['-'] + yy);
    SplitConcat(dd, mm + ['-'] + yy, '-');
    SplitConcat(mm, yy, '-');
    SplitNoSeparator(yy, '-');
  }

  lemma DigitsNoDash(s: string)
    requires AllDigits(s)
    ensures '-' !in s
  {
  }
}
