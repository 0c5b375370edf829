/**
  * `getTaxYear` of `src/lib/ato/helpers.ts`: the Australian financial year,
  * which starts on 1 July, written `<start>-<last two digits of start + 1>`.
  */
module TaxYear {
  import opened Wrappers
  import opened Strings
  import opened Numbers
  import opened Calendar

  /** `n + 1`; `NaN` stays `NaN`. */
  function PlusOne(n: Num): (r: Num)
    ensures r.NaN? <==> n.NaN?
    ensures n.Fin? ==> r.value == n.value + 1.0
  {
    match n
    case NaN => NaN
    case Fin(v) => Fin(v + 1.0)
  }

  /** `m >= 7` for the month piece, which is `undefined` when the date has no dash: false for it and for `NaN`. */
  predicate FromJuly(m: Option<Num>) {
    m.Some? && m.value.Fin? && m.value.value >= 7.0
  }

  /** `${start}-${(start + 1).toString().slice(-2)}`. */
  function Label(start: Num): string {
    NumberString(start) + "-" + TakeLast(NumberString(PlusOne(start)), 2)
  }

  /**
    * `startYear`: the first two dash-separated pieces read as a year and a
    * month; from July the tax year starts in that year, otherwise in the
    * year before.
    */
  function StartYear(isoDate: string): Num {
    StartOfPieces(Split(isoDate, {'-'}))
  }

  /** `startYear` once the date is split into its dash-separated pieces. */
  function StartOfPieces(parts: seq<string>): Num
    requires |parts| >= 1
  {
    var y := ParseNumber(parts[0]);
    var m := if |parts| >= 2 then Some(ParseNumber(parts[1])) else None;
    if FromJuly(m) then y else Sub(y, Fin(1.0))
  }

  /** `getTaxYear`. */
  function GetTaxYear(isoDate: string): string {
    Label(StartYear(isoDate))
  }

  /** The label of a tax year starting in a year of two or more digits. */
  lemma LabelOfYear(start: int)
    requires start >= 9
    ensures Label(Fin(start as real)) == IntToString(start) + "-" + Digits((start + 1) % 100, 2)
  {
    IntString(start);
    IntString(start + 1);
    assert PlusOne(Fin(start as real)) == Fin((start + 1) as real);
    NatToStringLastTwo(start + 1);
  }

  /** The year and month a `YYYY-MM-DD` string is read as. */
  lemma ReadYearMonth(d: Date)
    requires Valid(d) && 0 <= d.year <= 9999
    ensures var parts := Split(IsoDay(d), {'-'});
      |parts| >= 2 && ParseNumber(parts[0]) == Fin(d.year as real) && ParseNumber(parts[1]) == Fin(d.month as real)
  {
    var s := IsoDay(d);
    var y, m, rest := Digits(d.year, 4), Digits(d.month, 2), Digits(d.day, 2);
    assert s == y + ['-'] + (m + ['-'] + rest);
    assert NoneIn(y, {'-'}) && NoneIn(m, {'-'}) by {
      assert AllDigits(y) && AllDigits(m);
    }
    SplitAt(y, '-', m + ['-'] + rest, {'-'});
    SplitAt(m, '-', rest, {'-'});
    DigitsRoundTrip(d.year, 4);
    DigitsRoundTrip(d.month, 2);
    ParseDigitString(y);
    ParseDigitString(m);
  }

  /** Pieces that read as a year and a month give the year, or the year before when the month is before July. */
  lemma StartOf(parts: seq<string>, year: int, month: int)
    requires |parts| >= 2
    requires ParseNumber(parts[0]) == Fin(year as real)
    requires ParseNumber(parts[1]) == Fin(month as real)
    ensures StartOfPieces(parts) == Fin((if month >= 7 then year else year - 1) as real)
  {
  }

  /**
    * The tax year of a day is the year `start` whose 1 July is on or before
    * the day and whose following 1 July is after it.
    */
  lemma TaxYearOfDay(d: Date, start: int)
    requires Valid(d) && 1000 <= d.year <= 9999
    requires !Before(d, Date(start, 7, 1)) && Before(d, Date(start + 1, 7, 1))
    ensures GetTaxYear(IsoDay(d)) == IntToString(start) + "-" + Digits((start + 1) % 100, 2)
  {
    ReadYearMonth(d);
    StartOf(Split(IsoDay(d), {'-'}), d.year, d.month);
    assert start == if d.month >= 7 then d.year else d.year - 1;
    LabelOfYear(start);
  }

  /** The day of the month does not matter: two days of one month share a tax year. */
  lemma TaxYearIgnoresDay(d: Date, e: Date)
    requires Valid(d) && Valid(e) && 1000 <= d.year <= 9999
    requires d.year == e.year && d.month == e.month
    ensures GetTaxYear(IsoDay(d)) == GetTaxYear(IsoDay(e))
  {
    var start := if d.month >= 7 then d.year else d.year - 1;
    TaxYearOfDay(d, start);
    TaxYearOfDay(e, start);
  }
}
