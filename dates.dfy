/**
  * The date string helpers of `src/lib/date.ts`: the month-name table, the
  * `YYYY-MM-DD` check, the conversions between that form and the display
  * form `DD-MM-YYYY`, and the reading of bank dates such as `3 Jan`.
  */
module Dates {
  import opened Wrappers
  import opened Strings
  import opened Numbers
  import opened Calendar

  /** `monthMap`: short and long English month names, and `sept`, to month numbers. */
  const MonthMap: map<string, int> := map[
    "jan" := 1, "january" := 1, "feb" := 2, "february" := 2, "mar" := 3, "march" := 3,
    "apr" := 4, "april" := 4, "may" := 5, "jun" := 6, "june" := 6, "jul" := 7, "july" := 7,
    "aug" := 8, "august" := 8, "sep" := 9, "sept" := 9, "september" := 9,
    "oct" := 10, "october" := 10, "nov" := 11, "november" := 11, "dec" := 12, "december" := 12]

  /** `monthMap[name] ?? 0`: the month of a known name, 0 for any other. */
  function MonthNumber(name: string): (m: int)
    ensures 0 <= m <= 12
    ensures m == 0 <==> name !in MonthMap
  {
    if name in MonthMap then MonthMap[name] else 0
  }

  /** `validIso`: the shape `YYYY-MM-DD`, naming a real calendar day. */
  predicate ValidIso(s: string) {
    ParseIso(s).Some?
  }

  /** The three dash-separated pieces of a `YYYY-MM-DD` string. */
  lemma IsoPieces(s: string)
    requires IsoShape(s)
    ensures Split(s, {'-'}) == [s[..4], s[5..7], s[8..]]
  {
    var y, m, d := s[..4], s[5..7], s[8..];
    assert NoneIn(y, {'-'}) && NoneIn(m, {'-'}) && NoneIn(d, {'-'}) by {
      assert AllDigits(y) && AllDigits(m) && AllDigits(d);
    }
    assert s == y + ['-'] + (m + ['-'] + d);
    SplitAt(y, '-', m + ['-'] + d, {'-'});
    SplitAt(m, '-', d, {'-'});
    SplitNone(d, {'-'});
  }

  /** `toDisplay`: a valid `YYYY-MM-DD` becomes `DD-MM-YYYY`; anything else is returned as it is. */
  function ToDisplay(iso: string): (r: string)
    ensures !ValidIso(iso) ==> r == iso
    ensures ValidIso(iso) ==> r == iso[8..] + "-" + iso[5..7] + "-" + iso[..4]
  {
    if iso == "" || !ValidIso(iso) then iso
    else
      IsoPieces(iso);
      var parts := Split(iso, {'-'});
      parts[2] + "-" + parts[1] + "-" + parts[0]
  }

  /** The separators of a display date, `/[-/]/`. */
  const DisplaySeparators: set<char> := {'-', '/'}

  /** `${y.padStart(4, "0")}-${m.padStart(2, "0")}-${d.padStart(2, "0")}`. */
  function PaddedIso(d: string, m: string, y: string): string {
    PadStart(y, 4, '0') + "-" + PadStart(m, 2, '0') + "-" + PadStart(d, 2, '0')
  }

  /**
    * `toISOFromDisplay`: exactly three pieces, day first, each trimmed and
    * zero-padded; the result is a valid ISO date or "".
    */
  function ToIsoFromDisplay(display: string): (r: string)
    ensures r == "" || ValidIso(r)
    ensures |Split(display, DisplaySeparators)| != 3 ==> r == ""
  {
    var parts := Split(display, DisplaySeparators);
    if |parts| != 3 then ""
    else
      var iso := PaddedIso(Trim(parts[0]), Trim(parts[1]), Trim(parts[2]));
      if ValidIso(iso) then iso else ""
  }

  /** Three separator-free pieces joined by two separators split back into those pieces. */
  lemma SplitThree(a: string, s1: char, b: string, s2: char, c: string, seps: set<char>)
    requires NoneIn(a, seps) && NoneIn(b, seps) && NoneIn(c, seps) && s1 in seps && s2 in seps
    ensures Split(a + [s1] + b + [s2] + c, seps) == [a, b, c]
  {
    assert a + [s1] + b + [s2] + c == a + [s1] + (b + [s2] + c);
    SplitAt(a, s1, b + [s2] + c, seps);
    SplitAt(b, s2, c, seps);
    SplitNone(c, seps);
  }

  /** A digit string has no white space at either end and no separator. */
  lemma DigitsPlain(s: string)
    requires AllDigits(s)
    ensures Trim(s) == s
    ensures NoneIn(s, DisplaySeparators)
  {
    if s != [] {
      assert IsDigit(s[0]) && IsDigit(s[|s| - 1]);
    }
    TrimUnchanged(s);
  }

  /** Showing a valid ISO date and reading the display back gives the ISO date. */
  lemma DisplayRoundTrip(iso: string)
    requires ValidIso(iso)
    ensures ToIsoFromDisplay(ToDisplay(iso)) == iso
  {
    var y, m, d := iso[..4], iso[5..7], iso[8..];
    DigitsPlain(y);
    DigitsPlain(m);
    DigitsPlain(d);
    assert ToDisplay(iso) == d + ['-'] + m + ['-'] + y;
    SplitThree(d, '-', m, '-', y, DisplaySeparators);
    assert iso == y + "-" + m + "-" + d;
  }

  /**
    * A display date written without leading zeros, with `/` or `-`, reads as
    * the zero-padded ISO date: `3/1/2024` is `2024-01-03` and the year 24 is
    * `0024`.
    */
  lemma DisplayPadding(date: Date, s1: char, s2: char)
    requires Valid(date) && 1 <= date.year <= 9999
    requires s1 in DisplaySeparators && s2 in DisplaySeparators
    ensures ToIsoFromDisplay(NatToString(date.day) + [s1] + NatToString(date.month) + [s2] + NatToString(date.year))
            == IsoDay(date)
  {
    DigitPieces(NatToString(date.day), s1, NatToString(date.month), s2, NatToString(date.year));
    PaddedDate(date);
  }

  /** Three digit strings joined by separators are read piece by piece, untrimmed. */
  lemma DigitPieces(d: string, s1: char, m: string, s2: char, y: string)
    requires AllDigits(d) && AllDigits(m) && AllDigits(y)
    requires s1 in DisplaySeparators && s2 in DisplaySeparators
    ensures ToIsoFromDisplay(d + [s1] + m + [s2] + y)
            == if ValidIso(PaddedIso(d, m, y)) then PaddedIso(d, m, y) else ""
  {
    DigitsPlain(d);
    DigitsPlain(m);
    DigitsPlain(y);
    SplitThree(d, s1, m, s2, y, DisplaySeparators);
  }

  /** The unpadded numbers of a day, padded, are its ISO date. */
  lemma PaddedDate(date: Date)
    requires Valid(date) && 1 <= date.year <= 9999
    ensures PaddedIso(NatToString(date.day), NatToString(date.month), NatToString(date.year)) == IsoDay(date)
    ensures ValidIso(IsoDay(date))
  {
    PadDigits(date.day, 2);
    PadDigits(date.month, 2);
    PadDigits(date.year, 4);
    IsoRoundTrip(date);
  }

  // ----- toISO -----

  /** `s.replace(/\s+/g, " ")`: every run of white space becomes one space. */
  function CollapseSpace(s: string): (r: string)
    ensures |r| <= |s|
    decreases |s|
  {
    if s == [] then []
    else if IsSpace(s[0]) then [' '] + CollapseSpace(TrimStart(s))
    else [s[0]] + CollapseSpace(s[1..])
  }

  /** No white space at all. */
  predicate NoSpace(s: string) {
    forall i :: 0 <= i < |s| ==> !IsSpace(s[i])
  }

  /** Text without white space passes through the collapse unchanged. */
  lemma {:induction false} CollapseKeeps(a: string, t: string)
    requires NoSpace(a)
    ensures CollapseSpace(a + t) == a + CollapseSpace(t)
  {
    if a != [] {
      var s := a + t;
      assert s[0] == a[0] && !IsSpace(s[0]);
      assert s[1..] == a[1..] + t;
      assert CollapseSpace(s) == [a[0]] + CollapseSpace(s[1..]);
      CollapseKeeps(a[1..], t);
      assert a == [a[0]] + a[1..];
    } else {
      assert a + t == t;
    }
  }

  /** The space-separated tokens of `input.trim().replace(/\s+/g, " ")`. */
  function Tokens(input: string): (parts: seq<string>)
    ensures |parts| >= 1
  {
    Split(CollapseSpace(Trim(input)), {' '})
  }

  /** `pad(n)`: `n.toString().padStart(2, "0")`. */
  function Pad(n: Num): string {
    PadStart(NumberString(n), 2, '0')
  }

  /** `!n` for a number: 0 and `NaN` are falsy. */
  predicate Falsy(n: Num) {
    n == NaN || n == Fin(0.0)
  }

  /**
    * `toISO` with the current year passed in: the day number and month name
    * of a bank date such as `3 Jan`, in the given year, or "" when it does
    * not read as a valid date.
    */
  function ToIso(input: string, currentYear: int): (r: string)
    ensures r == "" || ValidIso(r)
    ensures |Tokens(input)| < 2 ==> r == ""
    ensures |Tokens(input)| >= 2 && Falsy(ParseNumber(Tokens(input)[0])) ==> r == ""
    ensures |Tokens(input)| >= 2 && MonthNumber(Lower(Tokens(input)[1])) == 0 ==> r == ""
  {
    var parts := Tokens(input);
    if |parts| < 2 then ""
    else
      var day := ParseNumber(parts[0]);
      var month := MonthNumber(Lower(parts[1]));
      if Falsy(day) || month == 0 then ""
      else
        var iso := IntToString(currentYear) + "-" + Pad(Fin(month as real)) + "-" + Pad(day);
        if ValidIso(iso) then iso else ""
  }

  /** A whole number below 100 is padded to its two digits. */
  lemma PadWhole(n: nat)
    requires n < 100
    ensures Pad(Fin(n as real)) == Digits(n, 2)
  {
    IntString(n);
    PadDigits(n, 2);
  }

  /** A four-digit year is written as its four digits. */
  lemma YearDigits(y: int)
    requires 1000 <= y <= 9999
    ensures IntToString(y) == Digits(y, 4)
  {
    assert Pow10(3) == 1000 && Pow10(4) == 10000;
    NatToStringLength(y, 4);
    PadDigits(y, 4);
  }

  /** One space before a word is kept as it is. */
  lemma CollapseOneSpace(name: string)
    requires name != "" && NoSpace(name)
    ensures CollapseSpace([' '] + name) == [' '] + name
  {
    var s := [' '] + name;
    assert s[1..] == name;
    assert TrimStart(s) == TrimStart(name) == name;
    CollapseKeeps(name, []);
    assert name + [] == name;
  }

  /** Two space-free words joined by one space split into the two words. */
  lemma SplitWords(a: string, b: string)
    requires NoneIn(a, {' '}) && NoneIn(b, {' '})
    ensures Split(a + [' '] + b, {' '}) == [a, b]
  {
    SplitAt(a, ' ', b, {' '});
    SplitNone(b, {' '});
  }

  /** Two words joined by one space are their own trimmed, collapsed form. */
  lemma CleanWords(a: string, b: string)
    requires a != "" && b != "" && NoSpace(a) && NoSpace(b)
    ensures CollapseSpace(Trim(a + [' '] + b)) == a + [' '] + b
  {
    var s := a + [' '] + b;
    assert s[0] == a[0] && s[|s| - 1] == b[|b| - 1];
    TrimUnchanged(s);
    assert s == a + ([' '] + b);
    CollapseKeeps(a, [' '] + b);
    CollapseOneSpace(b);
  }

  /** A day token and a month name separated by one space are the two tokens. */
  lemma TwoTokens(dayText: string, name: string)
    requires dayText != "" && name != "" && NoSpace(dayText) && NoSpace(name)
    ensures Tokens(dayText + [' '] + name) == [dayText, name]
  {
    CleanWords(dayText, name);
    assert NoneIn(dayText, {' '}) && NoneIn(name, {' '}) by {
      assert IsSpace(' ');
    }
    SplitWords(dayText, name);
  }

  /** The digits of a year, a month and a day form a valid ISO date exactly when the day is real. */
  lemma IsoOfDigits(y: nat, m: nat, d: nat)
    requires y <= 9999 && 1 <= m <= 12 && d < 100
    ensures var iso := Digits(y, 4) + "-" + Digits(m, 2) + "-" + Digits(d, 2);
      (ValidIso(iso) <==> Valid(Date(y, m, d))) && (Valid(Date(y, m, d)) ==> iso == IsoDay(Date(y, m, d)))
  {
    var iso := Digits(y, 4) + "-" + Digits(m, 2) + "-" + Digits(d, 2);
    DigitsRoundTrip(y, 4);
    DigitsRoundTrip(m, 2);
    DigitsRoundTrip(d, 2);
    assert iso[..4] == Digits(y, 4) && iso[5..7] == Digits(m, 2) && iso[8..] == Digits(d, 2);
    assert IsoShape(iso);
  }

  /** Once the two tokens read as a day and a month, `toISO` writes them after the year. */
  lemma ToIsoWrites(input: string, year: int, day: Num, month: int)
    requires |Tokens(input)| >= 2
    requires ParseNumber(Tokens(input)[0]) == day && !Falsy(day)
    requires MonthNumber(Lower(Tokens(input)[1])) == month != 0
    ensures var iso := IntToString(year) + "-" + Pad(Fin(month as real)) + "-" + Pad(day);
      ToIso(input, year) == if ValidIso(iso) then iso else ""
  {
  }

  /**
    * A bank date `<day> <month name>` reads as that day of the named month,
    * in any letter case, in a four-digit current year; a day past the
    * month's end gives "".
    */
  lemma ToIsoReads(dayText: string, name: string, day: nat, year: int)
    requires dayText != "" && name != "" && NoSpace(dayText) && NoSpace(name)
    requires ParseNumber(dayText) == Fin(day as real) && 1 <= day < 100
    requires MonthNumber(Lower(name)) != 0
    requires 1000 <= year <= 9999
    ensures var date := Date(year, MonthNumber(Lower(name)), day);
      ToIso(dayText + [' '] + name, year) == if Valid(date) then IsoDay(date) else ""
  {
    var month := MonthNumber(Lower(name));
    TwoTokens(dayText, name);
    ToIsoWrites(dayText + [' '] + name, year, Fin(day as real), month);
    PadWhole(month);
    PadWhole(day);
    YearDigits(year);
    IsoOfDigits(year, month, day);
  }

  /** The table knows September by three spellings. */
  lemma SeptemberNames()
    ensures MonthNumber("sep") == MonthNumber("sept") == MonthNumber("september") == 9
  {
  }
}
