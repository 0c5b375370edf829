/**
  * Proleptic Gregorian civil dates at UTC midnight, the way the core uses
  * JavaScript `Date` objects built from `YYYY-MM-DD` strings. A date's time
  * value is represented by its day number from 1970-01-01; `<=` between two
  * dates is `<=` between their day numbers.
  */
module Calendar {
  import opened Wrappers
  import opened Strings

  datatype Date = Date(year: int, month: int, day: int)

  predicate IsLeap(y: int) {
    y % 4 == 0 && (y % 100 != 0 || y % 400 == 0)
  }

  function DaysInMonth(y: int, m: int): (n: int)
    requires 1 <= m <= 12
    ensures 28 <= n <= 31
    ensures m == 2 ==> (n == 29 <==> IsLeap(y))
  {
    if m == 2 then (if IsLeap(y) then 29 else 28)
    else if m == 4 || m == 6 || m == 9 || m == 11 then 30
    else 31
  }

  function DaysInYear(y: int): int {
    if IsLeap(y) then 366 else 365
  }

  /** A real calendar day: month 1..12 and a day that exists in that month. */
  predicate Valid(d: Date) {
    1 <= d.month <= 12 && 1 <= d.day <= DaysInMonth(d.year, d.month)
  }

  /** Leap years among 1..y, extended to every integer by floor division. */
  function LeapsThrough(y: int): int {
    y / 4 - y / 100 + y / 400
  }

  /** Days from 1970-01-01 to the first of January of year `y`. */
  function DaysBeforeYear(y: int): int {
    365 * (y - 1970) + LeapsThrough(y - 1) - LeapsThrough(1969)
  }

  /** Days from the first of January to the first of month `m`. */
  function DaysBeforeMonth(y: int, m: int): int
    requires 1 <= m <= 12
  {
    (match m
     case 1 => 0 case 2 => 31 case 3 => 59 case 4 => 90 case 5 => 120 case 6 => 151
     case 7 => 181 case 8 => 212 case 9 => 243 case 10 => 273 case 11 => 304 case _ => 334)
    + (if m > 2 && IsLeap(y) then 1 else 0)
  }

  /** The day number of a date: days from 1970-01-01, negative before it. */
  function DaysFromEpoch(d: Date): int
    requires 1 <= d.month <= 12
  {
    DaysBeforeYear(d.year) + DaysBeforeMonth(d.year, d.month) + d.day - 1
  }

  /** `d <= e` on dates built from valid strings. */
  predicate NotAfter(d: Date, e: Date)
    requires 1 <= d.month <= 12 && 1 <= e.month <= 12
  {
    DaysFromEpoch(d) <= DaysFromEpoch(e)
  }

  // ----- year and month lengths -----

  lemma DivUnique(y: int, k: int, q: int, r: int)
    requires k > 0 && 0 <= r < k && y == k * q + r
    ensures y / k == q && y % k == r
  {
    var q', r' := y / k, y % k;
    assert k * (q - q') == r' - r;
    if q > q' {
      MulAtLeast(k, q - q');
    } else if q < q' {
      MulAtLeast(k, q' - q);
    }
  }

  lemma MulAtLeast(k: int, n: int)
    requires k > 0 && n >= 1
    ensures k * n >= k
  {
  }

  /** Stepping `y` by one changes `y / k` exactly when `y` is a multiple of `k`. */
  lemma DivStep(y: int, k: int)
    requires k > 0
    ensures y / k - (y - 1) / k == if y % k == 0 then 1 else 0
  {
    var q, r := (y - 1) / k, (y - 1) % k;
    if r == k - 1 {
      DivUnique(y, k, q + 1, 0);
    } else {
      DivUnique(y, k, q, r + 1);
    }
  }

  lemma {:induction false} YearLength(y: int)
    ensures DaysBeforeYear(y + 1) == DaysBeforeYear(y) + DaysInYear(y)
  {
    DivStep(y, 4);
    DivStep(y, 100);
    DivStep(y, 400);
    if y % 400 == 0 {
      DivUnique(y, 100, 4 * (y / 400), 0);
    }
    if y % 100 == 0 {
      DivUnique(y, 4, 25 * (y / 100), 0);
    }
  }

  /** The first day of the month after `(y, m)`. */
  function NextMonth(y: int, m: int): (r: Date)
    requires 1 <= m <= 12
    ensures Valid(r) && r.day == 1
  {
    if m == 12 then Date(y + 1, 1, 1) else Date(y, m + 1, 1)
  }

  /** A month starts right after the previous one's last day. */
  lemma MonthLength(y: int, m: int)
    requires 1 <= m <= 12
    ensures DaysFromEpoch(NextMonth(y, m)) == DaysFromEpoch(Date(y, m, 1)) + DaysInMonth(y, m)
  {
    if m == 12 {
      YearLength(y);
    }
  }

  /**
    * `Date.UTC(y, mi, 1)`: the first day of the month with 0-based index
    * `mi` counted from January of year `y`; an index outside 0..11 moves
    * into earlier or later years.
    */
  function FirstOf(y: int, mi: int): (r: Date)
    ensures Valid(r) && r.day == 1
    ensures 12 * r.year + r.month - 1 == 12 * y + mi
  {
    Date(y + mi / 12, mi % 12 + 1, 1)
  }

  lemma FirstOfNext(y: int, mi: int)
    ensures FirstOf(y, mi + 1) == NextMonth(FirstOf(y, mi).year, FirstOf(y, mi).month)
  {
  }

  // ----- setUTCDate and setUTCMonth -----

  /** `d.setUTCDate(d.getUTCDate() + n)` for `n >= 0`: `n` days later, across month and year ends. */
  function AddDays(c: Date, n: nat): (r: Date)
    requires Valid(c)
    ensures Valid(r)
    ensures DaysFromEpoch(r) == DaysFromEpoch(c) + n
    decreases n
  {
    var dim := DaysInMonth(c.year, c.month);
    if c.day + n <= dim then Date(c.year, c.month, c.day + n)
    else
      MonthLength(c.year, c.month);
      AddDays(NextMonth(c.year, c.month), n - (dim - c.day + 1))
  }

  /**
    * `d.setUTCMonth(d.getUTCMonth() + k)`: the same day of the month `k`
    * months later; a day the target month lacks rolls over into the month
    * after it (January 31 plus one month is March 2 or March 3).
    */
  function AddMonths(c: Date, k: int): (r: Date)
    requires Valid(c)
    ensures Valid(r)
    ensures DaysFromEpoch(r) == DaysFromEpoch(FirstOf(c.year, c.month - 1 + k)) + c.day - 1
    ensures var f := FirstOf(c.year, c.month - 1 + k);
            var dim := DaysInMonth(f.year, f.month);
            if c.day <= dim then r == Date(f.year, f.month, c.day)
            else r == Date(NextMonth(f.year, f.month).year, NextMonth(f.year, f.month).month, c.day - dim)
  {
    var f := FirstOf(c.year, c.month - 1 + k);
    AddDaysWithinTwoMonths(f, c.day - 1);
    AddDays(f, c.day - 1)
  }

  /** From a first of the month, up to 30 days later lands in that month or the next. */
  lemma AddDaysWithinTwoMonths(f: Date, n: nat)
    requires Valid(f) && f.day == 1 && n <= 30
    ensures var dim := DaysInMonth(f.year, f.month);
            if 1 + n <= dim then AddDays(f, n) == Date(f.year, f.month, 1 + n)
            else AddDays(f, n) == Date(NextMonth(f.year, f.month).year, NextMonth(f.year, f.month).month, 1 + n - dim)
  {
    var dim := DaysInMonth(f.year, f.month);
    if 1 + n > dim {
      var g := NextMonth(f.year, f.month);
      assert AddDays(f, n) == AddDays(g, n - dim);
      assert 1 + (n - dim) <= DaysInMonth(g.year, g.month);
    }
  }

  /** The position of a date's month, counted in months from January of year 0. */
  function MonthIndex(d: Date): int {
    12 * d.year + d.month - 1
  }

  /** A date in a later month is a later date. */
  lemma LaterMonth(a: Date, b: Date)
    requires Valid(a) && Valid(b) && MonthIndex(a) < MonthIndex(b)
    ensures DaysFromEpoch(a) < DaysFromEpoch(b)
  {
    assert Before(a, b);
    BeforeFewerDays(a, b);
  }

  /** Adding `k >= 1` months moves a date to a later day. */
  lemma AddMonthsAdvances(c: Date, k: int)
    requires Valid(c) && k >= 1
    ensures DaysFromEpoch(AddMonths(c, k)) > DaysFromEpoch(c)
  {
    var r := AddMonths(c, k);
    var f := FirstOf(c.year, c.month - 1 + k);
    assert MonthIndex(f) == MonthIndex(c) + k;
    assert MonthIndex(r) >= MonthIndex(f);
    LaterMonth(c, r);
  }

  /** A day of the month that every month has (1..28) survives month steps unchanged. */
  lemma AddMonthsKeepsDay(c: Date, k: int)
    requires Valid(c) && c.day <= 28
    ensures AddMonths(c, k).day == c.day
  {
  }

  /** Within one year, a day every month has moves to the same day `k` months on. */
  lemma AddMonthsSameYear(c: Date, k: nat)
    requires Valid(c) && c.day <= 28 && c.month + k <= 12
    ensures AddMonths(c, k) == Date(c.year, c.month + k, c.day)
  {
    var f := FirstOf(c.year, c.month - 1 + k);
    DivUnique(c.month - 1 + k, 12, 0, c.month - 1 + k);
    assert f == Date(c.year, c.month + k, 1);
  }

  /** January 31 plus one month is March 2 in a leap year and March 3 otherwise; the next step starts from there. */
  lemma MonthEndRollover()
    ensures AddMonths(Date(2024, 1, 31), 1) == Date(2024, 3, 2)
    ensures AddMonths(Date(2023, 1, 31), 1) == Date(2023, 3, 3)
    ensures AddMonths(AddMonths(Date(2024, 1, 31), 1), 1) == Date(2024, 4, 2)
  {
  }

  /** `getUTCDay()`: 0 for Sunday .. 6 for Saturday (1970-01-01 was a Thursday). */
  function Weekday(d: Date): (w: int)
    requires 1 <= d.month <= 12
    ensures 0 <= w < 7
  {
    (DaysFromEpoch(d) + 4) % 7
  }

  lemma EpochWeekdays()
    ensures DaysFromEpoch(Date(1970, 1, 1)) == 0 && Weekday(Date(1970, 1, 1)) == 4
    ensures Weekday(Date(2024, 1, 1)) == 1
  {
  }

  /** A week later is the same weekday. */
  lemma WeekdayPeriodic(d: Date, weeks: nat)
    requires Valid(d)
    ensures Weekday(AddDays(d, 7 * weeks)) == Weekday(d)
  {
    var x := DaysFromEpoch(d) + 4;
    DivUnique(x + 7 * weeks, 7, x / 7 + weeks, x % 7);
  }

  // ----- order of dates -----

  /** Calendar order: by year, then month, then day. */
  predicate Before(a: Date, b: Date) {
    a.year < b.year || (a.year == b.year && (a.month < b.month || (a.month == b.month && a.day < b.day)))
  }

  lemma {:induction false} YearsApart(y: int, z: int)
    requires y <= z
    ensures DaysBeforeYear(y) <= DaysBeforeYear(z)
    decreases z - y
  {
    if y < z {
      YearLength(y);
      YearsApart(y + 1, z);
    }
  }

  lemma MonthsBefore(y: int, m: int, n: int)
    requires 1 <= m < n <= 12
    ensures DaysBeforeMonth(y, m) + DaysInMonth(y, m) <= DaysBeforeMonth(y, n)
  {
  }

  lemma MonthsInYear(y: int, m: int)
    requires 1 <= m <= 12
    ensures DaysBeforeMonth(y, m) + DaysInMonth(y, m) <= DaysInYear(y)
  {
  }

  /** Day numbers follow calendar order, so comparing dates compares their day numbers. */
  lemma DayNumberOrder(a: Date, b: Date)
    requires Valid(a) && Valid(b)
    ensures Before(a, b) <==> DaysFromEpoch(a) < DaysFromEpoch(b)
    ensures a == b <==> DaysFromEpoch(a) == DaysFromEpoch(b)
  {
    if Before(a, b) {
      BeforeFewerDays(a, b);
    } else if Before(b, a) {
      BeforeFewerDays(b, a);
    }
  }

  lemma BeforeFewerDays(a: Date, b: Date)
    requires Valid(a) && Valid(b) && Before(a, b)
    ensures DaysFromEpoch(a) < DaysFromEpoch(b)
  {
    if a.year < b.year {
      MonthsInYear(a.year, a.month);
      YearLength(a.year);
      YearsApart(a.year + 1, b.year);
    } else if a.month < b.month {
      MonthsBefore(a.year, a.month, b.month);
    }
  }

  // ----- ISO strings -----

  /** The shape `YYYY-MM-DD` (`/^\d{4}-\d{2}-\d{2}$/`). */
  predicate IsoShape(s: string) {
    |s| == 10 && AllDigits(s[..4]) && s[4] == '-' && AllDigits(s[5..7]) && s[7] == '-' && AllDigits(s[8..])
  }

  /**
    * `new Date(s)` for a date-only string: a date when `s` has the shape
    * `YYYY-MM-DD` and names a real day, otherwise an invalid date (`None`).
    */
  function ParseIso(s: string): (r: Option<Date>)
    ensures r.Some? ==> Valid(r.value) && IsoShape(s)
    ensures r.Some? ==> 0 <= r.value.year <= 9999
  {
    if !IsoShape(s) then None
    else
      var d := Date(DigitsValue(s[..4]), DigitsValue(s[5..7]), DigitsValue(s[8..]));
      if 1 <= d.month <= 12 && 1 <= d.day <= DaysInMonth(d.year, d.month) then Some(d) else None
  }

  /** The year as `toISOString` writes it: four digits, or a sign and six digits outside 0..9999. */
  function YearString(y: int): string {
    if 0 <= y <= 9999 then Digits(y, 4)
    else (if y < 0 then "-" else "+") + Digits(if y < 0 then -y else y, 6)
  }

  /** `d.toISOString()` for a date at UTC midnight. */
  function IsoTimestamp(d: Date): string
    requires Valid(d)
  {
    YearString(d.year) + "-" + Digits(d.month, 2) + "-" + Digits(d.day, 2) + "T00:00:00.000Z"
  }

  /** `d.toISOString().slice(0, 10)`. */
  function IsoDay(d: Date): (s: string)
    requires Valid(d)
    ensures |s| == 10
    ensures 0 <= d.year <= 9999 ==> s == Digits(d.year, 4) + "-" + Digits(d.month, 2) + "-" + Digits(d.day, 2)
  {
    IsoTimestamp(d)[..10]
  }

  /** Writing a date of years 0..9999 and reading it back gives the date. */
  lemma IsoRoundTrip(d: Date)
    requires Valid(d) && 0 <= d.year <= 9999
    ensures ParseIso(IsoDay(d)) == Some(d)
  {
    var s := IsoDay(d);
    assert s[..4] == Digits(d.year, 4) && s[5..7] == Digits(d.month, 2) && s[8..] == Digits(d.day, 2);
    DigitsRoundTrip(d.year, 4);
    DigitsRoundTrip(d.month, 2);
    DigitsRoundTrip(d.day, 2);
  }

  /** A string that reads as a date is exactly how that date is written. */
  lemma IsoCanonical(s: string)
    requires ParseIso(s).Some?
    ensures IsoDay(ParseIso(s).value) == s
  {
    DigitsOfValue(s[..4]);
    DigitsOfValue(s[5..7]);
    DigitsOfValue(s[8..]);
    assert s == s[..4] + "-" + s[5..7] + "-" + s[8..];
  }

  /** Two strings of a dash-joined pair, the heads of equal length, compare head first. */
  lemma LessDashed(x1: string, x2: string, y1: string, y2: string)
    requires |x1| == |y1|
    ensures Less(x1 + "-" + x2, y1 + "-" + y2) <==> Less(x1, y1) || (x1 == y1 && Less(x2, y2))
  {
    assert x1 + "-" + x2 == x1 + ("-" + x2);
    assert y1 + "-" + y2 == y1 + ("-" + y2);
    LessConcat(x1, "-" + x2, y1, "-" + y2);
    LessConcat("-", x2, "-", y2);
    assert !Less("-", "-");
  }

  /** ISO day strings of years 0..9999 compare in calendar order. */
  lemma IsoLess(a: Date, b: Date)
    requires Valid(a) && Valid(b) && 0 <= a.year <= 9999 && 0 <= b.year <= 9999
    ensures Less(IsoDay(a), IsoDay(b)) <==> Before(a, b)
  {
    var ya, yb := Digits(a.year, 4), Digits(b.year, 4);
    var ma, mb := Digits(a.month, 2), Digits(b.month, 2);
    var da, db := Digits(a.day, 2), Digits(b.day, 2);
    assert IsoDay(a) == ya + "-" + (ma + "-" + da);
    assert IsoDay(b) == yb + "-" + (mb + "-" + db);
    LessDashed(ya, ma + "-" + da, yb, mb + "-" + db);
    LessDashed(ma, da, mb, db);
    DigitsCompare(a.year, b.year, 4);
    DigitsCompare(a.month, b.month, 2);
    DigitsCompare(a.day, b.day, 2);
  }

  /**
    * For years 0..9999 the ISO day strings sort in date order, so comparing
    * the strings compares the days.
    */
  lemma IsoOrder(a: Date, b: Date)
    requires Valid(a) && Valid(b) && 0 <= a.year <= 9999 && 0 <= b.year <= 9999
    ensures Less(IsoDay(a), IsoDay(b)) <==> DaysFromEpoch(a) < DaysFromEpoch(b)
  {
    IsoLess(a, b);
    DayNumberOrder(a, b);
  }
}
