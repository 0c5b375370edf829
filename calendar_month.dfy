/**
  * The month grid of `components/CalendarMonth.tsx`: blank cells up to the
  * weekday of the 1st, then one cell per day of the month carrying that
  * day's entries, and at most three markers per cell plus a `+k` count.
  */
module CalendarMonth {
  import opened Wrappers
  import opened Strings
  import opened Calendar

  datatype EntryType = Debt | Credit

  datatype Status = Scheduled | Paid | Partial | Skipped | Missed

  /** `CalendarEntry`. */
  datatype CalendarEntry = CalendarEntry(date: string, entryType: EntryType, status: Status, name: string, amount: real)

  /** A grid cell: `date` is `None` for a blank before the 1st. */
  datatype Cell = Cell(date: Option<string>, entries: seq<CalendarEntry>)

  /** `entries.filter((e) => e.date === iso)`. */
  function EntriesOn(entries: seq<CalendarEntry>, iso: string): seq<CalendarEntry> {
    if entries == [] then []
    else
      var n := |entries| - 1;
      EntriesOn(entries[..n], iso) + (if entries[n].date == iso then [entries[n]] else [])
  }

  /** The filter keeps every entry of the date as often as it occurs, and nothing else. */
  lemma {:induction false} EntriesOnCounts(entries: seq<CalendarEntry>, iso: string, e: CalendarEntry)
    ensures multiset(EntriesOn(entries, iso))[e] == if e.date == iso then multiset(entries)[e] else 0
  {
    if entries != [] {
      var n := |entries| - 1;
      EntriesOnCounts(entries[..n], iso, e);
      assert entries == entries[..n] + [entries[n]];
    }
  }

  /** The filter works piece by piece, so it keeps the entries in their input order. */
  lemma {:induction false} EntriesOnConcat(a: seq<CalendarEntry>, b: seq<CalendarEntry>, iso: string)
    ensures EntriesOn(a + b, iso) == EntriesOn(a, iso) + EntriesOn(b, iso)
    decreases |b|
  {
    if b == [] {
      assert a + b == a;
    } else {
      var n := |b| - 1;
      EntriesOnConcat(a, b[..n], iso);
      assert (a + b)[..|a + b| - 1] == a + b[..n];
    }
  }

  /** The blank cells before the 1st. */
  function Blanks(n: nat): (r: seq<Cell>)
    ensures |r| == n && forall k | 0 <= k < n :: r[k] == Cell(None, [])
  {
    seq(n, _ => Cell(None, []))
  }

  /** The cell of day `day`: its ISO date and the entries of that date. */
  function DayCell(year: int, month: int, day: int, entries: seq<CalendarEntry>): Cell
    requires Valid(Date(year, month, day))
  {
    var iso := IsoDay(Date(year, month, day));
    Cell(Some(iso), EntriesOn(entries, iso))
  }

  /** The grid of a month: `getUTCDay()` of the 1st blanks, then the days. */
  function Cells(year: int, month: int, entries: seq<CalendarEntry>): (cells: seq<Cell>)
    requires 1 <= month <= 12
    ensures |cells| == Weekday(Date(year, month, 1)) + DaysInMonth(year, month)
  {
    Blanks(Weekday(Date(year, month, 1)))
    + seq(DaysInMonth(year, month), i requires 0 <= i < DaysInMonth(year, month) => DayCell(year, month, i + 1, entries))
  }

  /**
    * The grid computation in the component's `useMemo`, for the month
    * `month` (1..12) of `year`.
    */
  method MonthCells(year: int, month: int, entries: seq<CalendarEntry>) returns (cells: seq<Cell>)
    requires 1 <= month <= 12
    ensures cells == Cells(year, month, entries)
  {
    var startDay := Weekday(Date(year, month, 1));
    var totalDays := DaysInMonth(year, month);
    cells := [];
    for i := 0 to startDay
      invariant cells == Blanks(i)
    {
      cells := cells + [Cell(None, [])];
    }
    for day := 1 to totalDays + 1
      invariant |cells| == startDay + day - 1
      invariant cells[..startDay] == Blanks(startDay)
      invariant forall k | startDay <= k < |cells| :: cells[k] == DayCell(year, month, k - startDay + 1, entries)
    {
      var iso := IsoDay(Date(year, month, day));
      var items := EntriesOn(entries, iso);
      cells := cells + [Cell(Some(iso), items)];
    }
    assert cells[..startDay] == Blanks(startDay);
  }

  /** Day 0 of the next month, the end date of the component, is the last day of this month. */
  lemma LastDayOfMonth(year: int, month: int)
    requires 1 <= month <= 12
    ensures Valid(Date(year, month, DaysInMonth(year, month)))
    ensures DaysFromEpoch(Date(year, month, DaysInMonth(year, month))) + 1 == DaysFromEpoch(NextMonth(year, month))
  {
    MonthLength(year, month);
  }

  /** The cells by position: blanks before the weekday of the 1st, then day after day. */
  lemma CellAt(year: int, month: int, entries: seq<CalendarEntry>, k: int)
    requires 1 <= month <= 12 && 0 <= k < |Cells(year, month, entries)|
    ensures var start := Weekday(Date(year, month, 1));
      Cells(year, month, entries)[k] == if k < start then Cell(None, []) else DayCell(year, month, k - start + 1, entries)
  {
  }

  /** Days of one month are written in increasing string order. */
  lemma DaysInOrder(year: int, month: int, d: int, e: int)
    requires 0 <= year <= 9999 && Valid(Date(year, month, d)) && Valid(Date(year, month, e)) && d < e
    ensures Less(IsoDay(Date(year, month, d)), IsoDay(Date(year, month, e)))
  {
    IsoOrder(Date(year, month, d), Date(year, month, e));
  }

  /** The cells before the weekday of the 1st are blank. */
  lemma CellsBlank(year: int, month: int, entries: seq<CalendarEntry>)
    requires 1 <= month <= 12
    ensures forall k | 0 <= k < Weekday(Date(year, month, 1)) :: Cells(year, month, entries)[k].date.None?
  {
    forall k | 0 <= k < Weekday(Date(year, month, 1)) ensures Cells(year, month, entries)[k].date.None? {
      CellAt(year, month, entries, k);
    }
  }

  /** Day `d` of the month sits `d - 1` cells after the blanks. */
  lemma CellsDays(year: int, month: int, entries: seq<CalendarEntry>)
    requires 1 <= month <= 12
    ensures var start := Weekday(Date(year, month, 1));
      forall d | 1 <= d <= DaysInMonth(year, month) ::
        Cells(year, month, entries)[start + d - 1].date == Some(IsoDay(Date(year, month, d)))
  {
    var start := Weekday(Date(year, month, 1));
    forall d | 1 <= d <= DaysInMonth(year, month)
      ensures Cells(year, month, entries)[start + d - 1].date == Some(IsoDay(Date(year, month, d)))
    {
      CellAt(year, month, entries, start + d - 1);
    }
  }

  /** After the blanks every cell has a date, and the dates increase. */
  lemma CellsOrdered(year: int, month: int, entries: seq<CalendarEntry>)
    requires 1 <= month <= 12 && 0 <= year <= 9999
    ensures var cells := Cells(year, month, entries);
      forall k, l | Weekday(Date(year, month, 1)) <= k < l < |cells| ::
        cells[k].date.Some? && cells[l].date.Some? && Less(cells[k].date.value, cells[l].date.value)
  {
    var cells := Cells(year, month, entries);
    var start := Weekday(Date(year, month, 1));
    forall k, l | start <= k < l < |cells|
      ensures cells[k].date.Some? && cells[l].date.Some? && Less(cells[k].date.value, cells[l].date.value)
    {
      CellAt(year, month, entries, k);
      CellAt(year, month, entries, l);
      DaysInOrder(year, month, k - start + 1, l - start + 1);
    }
  }

  /** An entry is in a day's cell exactly when its date reads as that day. */
  lemma InDayCell(year: int, month: int, day: int, entries: seq<CalendarEntry>, e: CalendarEntry)
    requires 0 <= year <= 9999 && Valid(Date(year, month, day)) && e in entries
    ensures e in DayCell(year, month, day, entries).entries <==> ParseIso(e.date) == Some(Date(year, month, day))
  {
    var date := Date(year, month, day);
    var iso := IsoDay(date);
    EntriesOnCounts(entries, iso, e);
    assert multiset(entries)[e] > 0;
    assert e in EntriesOn(entries, iso) <==> multiset(EntriesOn(entries, iso))[e] > 0;
    IsoRoundTrip(date);
    if ParseIso(e.date) == Some(date) {
      IsoCanonical(e.date);
    }
  }

  /**
    * An entry dated on a day of the month is listed in that day's cell and
    * in no other; an entry whose date is no day of the month is in no cell.
    */
  lemma EntryPlacement(year: int, month: int, entries: seq<CalendarEntry>, e: CalendarEntry, k: int)
    requires 1 <= month <= 12 && 0 <= year <= 9999
    requires e in entries
    requires 0 <= k < |Cells(year, month, entries)|
    ensures var start := Weekday(Date(year, month, 1));
      e in Cells(year, month, entries)[k].entries <==> k >= start && ParseIso(e.date) == Some(Date(year, month, k - start + 1))
  {
    var start := Weekday(Date(year, month, 1));
    var cell := Cells(year, month, entries)[k];
    if k < start {
      assert cell == Cell(None, []) by {
        CellAt(year, month, entries, k);
      }
    } else {
      var day := k - start + 1;
      assert cell == DayCell(year, month, day, entries) by {
        CellAt(year, month, entries, k);
      }
      InDayCell(year, month, day, entries, e);
    }
  }

  // ----- markers -----

  /** The colour of a marker: rose for a debt, emerald otherwise. */
  datatype Marker = Rose | Emerald

  function MarkerOf(e: CalendarEntry): Marker {
    if e.entryType == Debt then Rose else Emerald
  }

  /** `cell.entries.slice(0, 3).map(...)`: a marker for each of the first three entries. */
  function Markers(entries: seq<CalendarEntry>): (r: seq<Marker>)
    ensures |r| == if |entries| < 3 then |entries| else 3
    ensures forall i | 0 <= i < |r| :: r[i] == MarkerOf(entries[i])
  {
    var shown := if |entries| <= 3 then entries else entries[..3];
    seq(|shown|, i requires 0 <= i < |shown| => MarkerOf(shown[i]))
  }

  /** The `+k` label, present only with more than three entries. */
  function Overflow(entries: seq<CalendarEntry>): (r: Option<int>)
    ensures r.Some? <==> |entries| > 3
  {
    if |entries| > 3 then Some(|entries| - 3) else None
  }

  /** Every entry of a cell is accounted for, by a marker or in the `+k` count, and no more than three markers are drawn. */
  lemma MarkersAccountForAll(entries: seq<CalendarEntry>)
    ensures |Markers(entries)| <= 3
    ensures |Markers(entries)| + Overflow(entries).GetOr(0) == |entries|
    ensures Overflow(entries).Some? ==> Overflow(entries).value >= 1
  {
  }
}
