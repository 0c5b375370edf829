/**
  * Expansion of a recurring schedule into dated occurrences
  * (`generateOccurrences` and `isMissed`).
  *
  * A cursor starts at the schedule's start date and moves forward one step at
  * a time: weekly and fortnightly steps are whole days, monthly and yearly
  * steps are calendar months with the day of the month carried over (and
  * rolled into the next month when the target month is too short). Every
  * cursor position up to the horizon boundary and the optional end date, both
  * inclusive, becomes an occurrence; with a resume date, positions before it
  * are skipped but the stepping stays anchored at the start date.
  */
module Recurrence {
  import opened Wrappers
  import opened Strings
  import opened Calendar

  /** `Once` is the source's frequency `"none"`: a single occurrence, no stepping. */
  datatype Frequency = Once | Weekly | Fortnightly | Monthly | Yearly

  datatype Status = Scheduled | Paid | Partial | Skipped | Missed

  /** The fields of a schedule that the expansion reads. */
  datatype Schedule = Schedule(
    id: Option<int>,
    amount: real,
    startDate: string,
    frequency: Frequency,
    interval: Option<int>,
    endDate: Option<string>)

  datatype Occurrence = Occurrence(scheduleId: int, date: string, plannedAmount: real, status: Status)

  /** What the optional end date amounts to: none (absent or empty), a date, or an unparseable string. */
  datatype EndLimit = NoEnd | EndAt(last: Date) | InvalidEnd

  /** `frequencyToDays`: the day count of one step of a frequency. */
  function FrequencyToDays(f: Frequency, interval: int): (days: int)
  {
    match f
    case Weekly => 7 * interval
    case Fortnightly => 14 * interval
    case Monthly => 30 * interval
    case Yearly => 365 * interval
    case Once => 0
  }

  /** A fortnightly step is two weekly steps, so both keep the weekday. */
  lemma FortnightIsTwoWeeks(interval: int)
    ensures FrequencyToDays(Fortnightly, interval) == FrequencyToDays(Weekly, 2 * interval)
    ensures FrequencyToDays(Weekly, interval) % 7 == 0 && FrequencyToDays(Fortnightly, interval) % 7 == 0
  {
  }

  function EndLimitOf(endDate: Option<string>): (e: EndLimit)
    ensures e.EndAt? ==> Valid(e.last)
  {
    if endDate.None? || endDate.value == "" then NoEnd
    else match ParseIso(endDate.value)
      case Some(d) => EndAt(d)
      case None => InvalidEnd
  }

  /** `!schedule.endDate || d <= new Date(schedule.endDate)`; false for an invalid end date. */
  predicate WithinEnd(c: Date, e: EndLimit)
    requires Valid(c) && (e.EndAt? ==> Valid(e.last))
  {
    match e
    case NoEnd => true
    case EndAt(last) => NotAfter(c, last)
    case InvalidEnd => false
  }

  /** `inRange`: on or before the horizon boundary and the end date. */
  predicate InRange(c: Date, boundary: Date, e: EndLimit)
    requires Valid(c) && Valid(boundary) && (e.EndAt? ==> Valid(e.last))
  {
    NotAfter(c, boundary) && WithinEnd(c, e)
  }

  predicate Stepping(f: Frequency, interval: int) {
    f != Once && interval >= 1
  }

  /** One move of the cursor: calendar months for monthly and yearly, days otherwise. */
  function Step(c: Date, f: Frequency, interval: int): (r: Date)
    requires Valid(c) && Stepping(f, interval)
    ensures Valid(r) && DaysFromEpoch(r) > DaysFromEpoch(c)
  {
    if f == Monthly || f == Yearly then
      var months := if f == Monthly then interval else 12 * interval;
      AddMonthsAdvances(c, months);
      AddMonths(c, months)
    else
      AddDays(c, FrequencyToDays(f, interval))
  }

  /**
    * The dates the loop emits from cursor `c` on: every position in range,
    * except those before the resume date `from` when there is one.
    */
  function Walk(c: Date, f: Frequency, interval: int, boundary: Date, e: EndLimit, from: Option<Date>): (r: seq<Date>)
    requires Valid(c) && Valid(boundary) && (e.EndAt? ==> Valid(e.last)) && (from.Some? ==> Valid(from.value))
    requires Stepping(f, interval) || !InRange(c, boundary, e)
    ensures forall d | d in r :: Valid(d)
    ensures forall i | 0 <= i < |r| :: Valid(r[i])
    decreases DaysFromEpoch(boundary) - DaysFromEpoch(c)
  {
    if !InRange(c, boundary, e) then []
    else
      (if from.None? || NotAfter(from.value, c) then [c] else [])
      + Walk(Step(c, f, interval), f, interval, boundary, e, from)
  }

  lemma WalkUnfold(c: Date, f: Frequency, interval: int, boundary: Date, e: EndLimit, from: Option<Date>)
    requires Valid(c) && Valid(boundary) && (e.EndAt? ==> Valid(e.last)) && (from.Some? ==> Valid(from.value))
    requires Stepping(f, interval) && InRange(c, boundary, e)
    ensures Walk(c, f, interval, boundary, e, from)
         == (if from.None? || NotAfter(from.value, c) then [c] else []) + Walk(Step(c, f, interval), f, interval, boundary, e, from)
  {
  }

  /** An in-range cursor not before the resume date is emitted, then the walk goes on. */
  lemma WalkEmits(c: Date, f: Frequency, interval: int, boundary: Date, e: EndLimit, from: Option<Date>)
    requires Valid(c) && Valid(boundary) && (e.EndAt? ==> Valid(e.last)) && (from.Some? ==> Valid(from.value))
    requires Stepping(f, interval) && InRange(c, boundary, e) && (from.None? || NotAfter(from.value, c))
    ensures Walk(c, f, interval, boundary, e, from) == [c] + Walk(Step(c, f, interval), f, interval, boundary, e, from)
  {
    WalkUnfold(c, f, interval, boundary, e, from);
  }

  /** An in-range cursor before the resume date is skipped. */
  lemma WalkSkips(c: Date, f: Frequency, interval: int, boundary: Date, e: EndLimit, from: Option<Date>)
    requires Valid(c) && Valid(boundary) && (e.EndAt? ==> Valid(e.last)) && (from.Some? ==> Valid(from.value))
    requires Stepping(f, interval) && InRange(c, boundary, e) && !(from.None? || NotAfter(from.value, c))
    ensures Walk(c, f, interval, boundary, e, from) == Walk(Step(c, f, interval), f, interval, boundary, e, from)
  {
    WalkUnfold(c, f, interval, boundary, e, from);
    assert [] + Walk(Step(c, f, interval), f, interval, boundary, e, from) == Walk(Step(c, f, interval), f, interval, boundary, e, from);
  }

  /** The first cursor (the start date) is in range of the horizon and the end date. */
  predicate FirstInRange(s: Schedule, monthsAhead: int, fromDate: Option<string>) {
    var start := ParseIso(fromDate.GetOr(s.startDate));
    var cursor := ParseIso(s.startDate);
    start.Some? && cursor.Some? && InRange(cursor.value, AddMonths(start.value, monthsAhead), EndLimitOf(s.endDate))
  }

  /**
    * The loop of `generateOccurrences` ends: the schedule is one-off, or its
    * interval is positive, or the loop test fails on the first cursor. For a
    * repeating schedule whose start is in range, an interval of 0 leaves the
    * cursor where it is, so the loop never ends, and a negative interval
    * walks it backward until the date leaves the representable range; the
    * model covers neither.
    */
  predicate LoopEnds(s: Schedule, monthsAhead: int, fromDate: Option<string>) {
    s.frequency == Once || s.interval.GetOr(1) >= 1 || !FirstInRange(s, monthsAhead, fromDate)
  }

  /** What `generateOccurrences(schedule, monthsAhead, fromDate)` emits, as dates. */
  function OccurrenceDates(s: Schedule, monthsAhead: int, fromDate: Option<string>): seq<Date>
    requires LoopEnds(s, monthsAhead, fromDate)
  {
    var start := ParseIso(fromDate.GetOr(s.startDate));
    var cursor := ParseIso(s.startDate);
    var e := EndLimitOf(s.endDate);
    if start.None? || cursor.None? then []
    else
      var boundary := AddMonths(start.value, monthsAhead);
      if s.frequency == Once then
        (if InRange(cursor.value, boundary, e) then [cursor.value] else [])
      else
        var from := if fromDate.Some? && fromDate.value != "" then start else None;
        Walk(cursor.value, s.frequency, s.interval.GetOr(1), boundary, e, from)
  }

  /** The occurrence the loop pushes for a date. */
  function OccurrenceAt(s: Schedule, d: Date): Occurrence
    requires Valid(d)
  {
    Occurrence(s.id.GetOr(-1), IsoDay(d), s.amount, Scheduled)
  }

  lemma EmittedThen(emitted: seq<Date>, c: Date, rest: seq<Date>)
    ensures (emitted + [c]) + rest == emitted + ([c] + rest)
  {
  }

  /** The occurrences pushed for a list of dates, in order. */
  function Occurrences(s: Schedule, ds: seq<Date>): (r: seq<Occurrence>)
    requires forall d | d in ds :: Valid(d)
    ensures |r| == |ds|
    ensures forall i | 0 <= i < |ds| :: Valid(ds[i]) && r[i] == OccurrenceAt(s, ds[i])
  {
    seq(|ds|, i requires 0 <= i < |ds| => OccurrenceAt(s, ds[i]))
  }

  lemma OccurrencesAppend(s: Schedule, ds: seq<Date>, d: Date)
    requires (forall x | x in ds :: Valid(x)) && Valid(d)
    ensures Occurrences(s, ds + [d]) == Occurrences(s, ds) + [OccurrenceAt(s, d)]
  {
    assert forall x | x in ds + [d] :: Valid(x);
  }

  /**
    * The stepping loop of `generateOccurrences`: from cursor `c0`, push an
    * occurrence for every in-range position not before the resume date.
    */
  method EmitSteps(s: Schedule, c0: Date, interval: int, boundary: Date, e: EndLimit, from: Option<Date>)
    returns (occs: seq<Occurrence>)
    requires Valid(c0) && Valid(boundary) && (e.EndAt? ==> Valid(e.last)) && (from.Some? ==> Valid(from.value))
    requires Stepping(s.frequency, interval) || !InRange(c0, boundary, e)
    ensures occs == Occurrences(s, Walk(c0, s.frequency, interval, boundary, e, from))
  {
    occs := [];
    var c := c0;
    ghost var emitted: seq<Date> := [];
    while InRange(c, boundary, e)
      invariant Valid(c) && forall d | d in emitted :: Valid(d)
      invariant Stepping(s.frequency, interval) || !InRange(c, boundary, e)
      invariant emitted + Walk(c, s.frequency, interval, boundary, e, from)
             == Walk(c0, s.frequency, interval, boundary, e, from)
      invariant occs == Occurrences(s, emitted)
      decreases DaysFromEpoch(boundary) - DaysFromEpoch(c)
    {
      ghost var rest := Walk(Step(c, s.frequency, interval), s.frequency, interval, boundary, e, from);
      if from.None? || NotAfter(from.value, c) {
        WalkEmits(c, s.frequency, interval, boundary, e, from);
        EmittedThen(emitted, c, rest);
        OccurrencesAppend(s, emitted, c);
        occs := occs + [OccurrenceAt(s, c)];
        emitted := emitted + [c];
      } else {
        WalkSkips(c, s.frequency, interval, boundary, e, from);
      }
      c := Step(c, s.frequency, interval);
    }
    assert emitted + [] == emitted;
  }

  /**
    * `generateOccurrences`. An invalid start date, resume date or end date
    * makes every range test false, so nothing is emitted. With an interval
    * below 1 the model requires the start date to be already out of range
    * (see `LoopEnds`).
    */
  method GenerateOccurrences(s: Schedule, monthsAhead: int, fromDate: Option<string>) returns (occs: seq<Occurrence>)
    requires LoopEnds(s, monthsAhead, fromDate)
    ensures |occs| == |OccurrenceDates(s, monthsAhead, fromDate)|
    ensures forall i :: 0 <= i < |occs| ==>
      var d := OccurrenceDates(s, monthsAhead, fromDate)[i];
      Valid(d) && occs[i] == Occurrence(s.id.GetOr(-1), IsoDay(d), s.amount, Scheduled)
  {
    occs := [];
    var start := ParseIso(fromDate.GetOr(s.startDate));
    var cursor := ParseIso(s.startDate);
    var e := EndLimitOf(s.endDate);
    if start.None? || cursor.None? {
      return;
    }
    var endBoundary := AddMonths(start.value, monthsAhead);
    if s.frequency == Once {
      if InRange(cursor.value, endBoundary, e) {
        occs := [OccurrenceAt(s, cursor.value)];
      }
      return;
    }
    var from := if fromDate.Some? && fromDate.value != "" then start else None;
    occs := EmitSteps(s, cursor.value, s.interval.GetOr(1), endBoundary, e, from);
  }

  /** `isMissed`: still scheduled and dated before today, comparing the ISO strings. */
  predicate IsMissed(occ: Occurrence, todayIso: string) {
    occ.status == Scheduled && Less(occ.date, todayIso)
  }

  /** A missed occurrence is one still scheduled on a day before today. */
  lemma MissedMeansEarlier(s: Schedule, d: Date, today: Date)
    requires Valid(d) && Valid(today) && 0 <= d.year <= 9999 && 0 <= today.year <= 9999
    ensures IsMissed(OccurrenceAt(s, d), IsoDay(today)) <==> DaysFromEpoch(d) < DaysFromEpoch(today)
  {
    IsoOrder(d, today);
  }

  // ----- properties of the walk -----

  /** Every emitted date is in range, not before the resume date, and not before the cursor. */
  lemma {:induction false} WalkBounded(c: Date, f: Frequency, interval: int, boundary: Date, e: EndLimit, from: Option<Date>)
    requires Valid(c) && Valid(boundary) && (e.EndAt? ==> Valid(e.last)) && (from.Some? ==> Valid(from.value))
    requires Stepping(f, interval)
    ensures forall d | d in Walk(c, f, interval, boundary, e, from) ::
        Valid(d) && InRange(d, boundary, e) && DaysFromEpoch(c) <= DaysFromEpoch(d)
        && (from.Some? ==> NotAfter(from.value, d))
    decreases DaysFromEpoch(boundary) - DaysFromEpoch(c)
  {
    if InRange(c, boundary, e) {
      var next := Step(c, f, interval);
      WalkUnfold(c, f, interval, boundary, e, from);
      WalkBounded(next, f, interval, boundary, e, from);
    }
  }

  /** Strictly increasing in calendar order (equivalently in day numbers, by `DayNumberOrder`). */
  predicate Ascending(w: seq<Date>) {
    forall i | 0 <= i < |w| - 1 :: Before(w[i], w[i + 1])
  }

  lemma ConsAscending(c: Date, t: seq<Date>)
    requires Ascending(t) && (t != [] ==> Before(c, t[0]))
    ensures Ascending([c] + t)
  {
    var w := [c] + t;
    forall i | 0 <= i < |w| - 1
      ensures Before(w[i], w[i + 1])
    {
      if i == 0 {
        assert w[0] == c && w[1] == t[0];
      } else {
        assert w[i] == t[i - 1] && w[i + 1] == t[i];
      }
    }
  }

  /** The emitted dates are strictly increasing. */
  lemma {:induction false} WalkAscending(c: Date, f: Frequency, interval: int, boundary: Date, e: EndLimit, from: Option<Date>)
    requires Valid(c) && Valid(boundary) && (e.EndAt? ==> Valid(e.last)) && (from.Some? ==> Valid(from.value))
    requires Stepping(f, interval)
    ensures Ascending(Walk(c, f, interval, boundary, e, from))
    decreases DaysFromEpoch(boundary) - DaysFromEpoch(c)
  {
    if InRange(c, boundary, e) {
      var next := Step(c, f, interval);
      WalkUnfold(c, f, interval, boundary, e, from);
      WalkAscending(next, f, interval, boundary, e, from);
      WalkBounded(next, f, interval, boundary, e, from);
      var t := Walk(next, f, interval, boundary, e, from);
      if from.None? || NotAfter(from.value, c) {
        if t != [] {
          assert t[0] in t;
          DayNumberOrder(c, t[0]);
        }
        ConsAscending(c, t);
        assert [c] + t == Walk(c, f, interval, boundary, e, from);
      } else {
        assert [] + t == t;
      }
    }
  }

  /**
    * Without a resume date the walk starts at the cursor (when it is in
    * range) and each date is one step after the previous one.
    */
  lemma {:induction false} WalkSteps(c: Date, f: Frequency, interval: int, boundary: Date, e: EndLimit)
    requires Valid(c) && Valid(boundary) && (e.EndAt? ==> Valid(e.last))
    requires Stepping(f, interval)
    ensures var w := Walk(c, f, interval, boundary, e, None);
      (w != [] <==> InRange(c, boundary, e)) && (w != [] ==> w[0] == c)
      && forall i :: 0 <= i < |w| - 1 ==> Valid(w[i]) && w[i + 1] == Step(w[i], f, interval)
    decreases DaysFromEpoch(boundary) - DaysFromEpoch(c)
  {
    if InRange(c, boundary, e) {
      var next := Step(c, f, interval);
      WalkSteps(next, f, interval, boundary, e);
      WalkEmits(c, f, interval, boundary, e, None);
      var w, t := Walk(c, f, interval, boundary, e, None), Walk(next, f, interval, boundary, e, None);
      forall i | 0 <= i < |w| - 1 ensures Valid(w[i]) && w[i + 1] == Step(w[i], f, interval) {
        assert w[i + 1] == t[i];
        if i > 0 {
          assert w[i] == t[i - 1];
        }
      }
    }
  }

  /** One weekly or fortnightly step moves a whole number of weeks. */
  lemma WeeklyStep(d: Date, f: Frequency, interval: int)
    requires Valid(d) && (f == Weekly || f == Fortnightly) && interval >= 1
    ensures Weekday(Step(d, f, interval)) == Weekday(d)
    ensures DaysFromEpoch(Step(d, f, interval)) == DaysFromEpoch(d) + FrequencyToDays(f, interval)
  {
    var weeks := if f == Weekly then interval else 2 * interval;
    assert FrequencyToDays(f, interval) == 7 * weeks;
    WeekdayPeriodic(d, weeks);
  }

  /** Every date of a weekly or fortnightly walk falls on the cursor's weekday. */
  lemma {:induction false} WalkWeekday(c: Date, f: Frequency, interval: int, boundary: Date, e: EndLimit)
    requires Valid(c) && Valid(boundary) && (e.EndAt? ==> Valid(e.last))
    requires (f == Weekly || f == Fortnightly) && interval >= 1
    ensures forall d | d in Walk(c, f, interval, boundary, e, None) :: Valid(d) && Weekday(d) == Weekday(c)
    decreases DaysFromEpoch(boundary) - DaysFromEpoch(c)
  {
    if InRange(c, boundary, e) {
      var next := Step(c, f, interval);
      WalkUnfold(c, f, interval, boundary, e, None);
      WalkWeekday(next, f, interval, boundary, e);
      WeeklyStep(c, f, interval);
    }
  }

  /** Weekly and fortnightly occurrences are a fixed number of days apart and share the start's weekday. */
  lemma WeeklyGaps(c: Date, f: Frequency, interval: int, boundary: Date, e: EndLimit)
    requires Valid(c) && Valid(boundary) && (e.EndAt? ==> Valid(e.last))
    requires (f == Weekly || f == Fortnightly) && interval >= 1
    ensures var w := Walk(c, f, interval, boundary, e, None);
      forall i :: 0 <= i < |w| ==>
        Valid(w[i]) && Weekday(w[i]) == Weekday(c)
        && (i + 1 < |w| ==> DaysFromEpoch(w[i + 1]) == DaysFromEpoch(w[i]) + FrequencyToDays(f, interval))
  {
    var w := Walk(c, f, interval, boundary, e, None);
    WalkSteps(c, f, interval, boundary, e);
    WalkWeekday(c, f, interval, boundary, e);
    forall i | 0 <= i < |w|
      ensures Weekday(w[i]) == Weekday(c)
      ensures i + 1 < |w| ==> DaysFromEpoch(w[i + 1]) == DaysFromEpoch(w[i]) + FrequencyToDays(f, interval)
    {
      assert w[i] in w;
      if i + 1 < |w| {
        WeeklyStep(w[i], f, interval);
      }
    }
  }

  /** Monthly and yearly occurrences keep the start's day of the month when it is at most 28. */
  lemma MonthlyKeepsDay(c: Date, f: Frequency, interval: int, boundary: Date, e: EndLimit)
    requires Valid(c) && Valid(boundary) && (e.EndAt? ==> Valid(e.last))
    requires (f == Monthly || f == Yearly) && interval >= 1 && c.day <= 28
    ensures var w := Walk(c, f, interval, boundary, e, None);
      forall i :: 0 <= i < |w| ==> w[i].day == c.day
  {
    var w := Walk(c, f, interval, boundary, e, None);
    WalkSteps(c, f, interval, boundary, e);
    var i := 0;
    while i < |w|
      invariant 0 <= i <= |w|
      invariant forall k :: 0 <= k < i ==> w[k].day == c.day
    {
      if i > 0 {
        AddMonthsKeepsDay(w[i - 1], if f == Monthly then interval else 12 * interval);
      }
      i := i + 1;
    }
  }

  /** The dates of `ds` on or after `from`. */
  function OnOrAfter(ds: seq<Date>, from: Date): (r: seq<Date>)
    requires Valid(from) && forall d | d in ds :: Valid(d)
    ensures forall d | d in r :: d in ds && Valid(d) && NotAfter(from, d)
    ensures forall d | d in ds && Valid(d) && NotAfter(from, d) :: d in r
  {
    if ds == [] then []
    else
      assert ds[0] in ds;
      assert Valid(ds[0]);
      assert forall d | d in ds[1..] :: d in ds;
      (if NotAfter(from, ds[0]) then [ds[0]] else []) + OnOrAfter(ds[1..], from)
  }

  /**
    * Resuming from a date skips the earlier positions but keeps the stepping
    * anchored at the start: the result is the full walk filtered.
    */
  lemma {:induction false} ResumeIsFilter(c: Date, f: Frequency, interval: int, boundary: Date, e: EndLimit, from: Date)
    requires Valid(c) && Valid(boundary) && (e.EndAt? ==> Valid(e.last)) && Valid(from)
    requires Stepping(f, interval)
    ensures Walk(c, f, interval, boundary, e, Some(from)) == OnOrAfter(Walk(c, f, interval, boundary, e, None), from)
    decreases DaysFromEpoch(boundary) - DaysFromEpoch(c)
  {
    WalkBounded(c, f, interval, boundary, e, None);
    if InRange(c, boundary, e) {
      var next := Step(c, f, interval);
      ResumeIsFilter(next, f, interval, boundary, e, from);
      WalkBounded(next, f, interval, boundary, e, None);
      var w := Walk(c, f, interval, boundary, e, None);
      assert w == [c] + Walk(next, f, interval, boundary, e, None);
      assert w[1..] == Walk(next, f, interval, boundary, e, None);
    }
  }

  /** Counting steps of `k` days in a gap: one more step fits when the gap is `k` days longer. */
  lemma CountStep(gap: int, k: int)
    requires gap >= 0 && k > 0
    ensures (if gap - k < 0 then 0 else (gap - k) / k + 1) + 1 == gap / k + 1
  {
    if gap < k {
      DivUnique(gap, k, 0, gap);
    } else {
      DivUnique(gap - k, k, (gap - k) / k, (gap - k) % k);
      DivUnique(gap, k, (gap - k) / k + 1, (gap - k) % k);
    }
  }

  /** Day-stepped schedules without an end date emit one date per step that fits before the boundary. */
  lemma {:induction false} DayStepCount(c: Date, f: Frequency, interval: int, boundary: Date)
    requires Valid(c) && Valid(boundary) && (f == Weekly || f == Fortnightly) && interval >= 1
    ensures var gap := DaysFromEpoch(boundary) - DaysFromEpoch(c);
      |Walk(c, f, interval, boundary, NoEnd, None)| == if gap < 0 then 0 else gap / FrequencyToDays(f, interval) + 1
    decreases DaysFromEpoch(boundary) - DaysFromEpoch(c)
  {
    var gap := DaysFromEpoch(boundary) - DaysFromEpoch(c);
    if gap >= 0 {
      var next := Step(c, f, interval);
      var k := FrequencyToDays(f, interval);
      WalkUnfold(c, f, interval, boundary, NoEnd, None);
      DayStepCount(next, f, interval, boundary);
      assert DaysFromEpoch(boundary) - DaysFromEpoch(next) == gap - k;
      CountStep(gap, k);
    }
  }

  // ----- properties of generateOccurrences -----

  /** A one-off schedule yields its start date alone, and only when it is in range; the resume date does not filter it. */
  lemma OnceAtMostOne(s: Schedule, monthsAhead: int, fromDate: Option<string>)
    requires s.frequency == Once
    ensures var ds := OccurrenceDates(s, monthsAhead, fromDate);
      var start := ParseIso(fromDate.GetOr(s.startDate));
      var cursor := ParseIso(s.startDate);
      |ds| <= 1
      && (|ds| == 1 <==>
            start.Some? && cursor.Some?
            && InRange(cursor.value, AddMonths(start.value, monthsAhead), EndLimitOf(s.endDate)))
      && (|ds| == 1 ==> ds[0] == cursor.value)
  {
  }

  /** An end date before the start date yields nothing. */
  lemma EndBeforeStart(s: Schedule, monthsAhead: int, fromDate: Option<string>)
    requires LoopEnds(s, monthsAhead, fromDate)
    requires ParseIso(s.startDate).Some? && s.endDate.Some? && ParseIso(s.endDate.value).Some?
    requires DaysFromEpoch(ParseIso(s.endDate.value).value) < DaysFromEpoch(ParseIso(s.startDate).value)
    ensures OccurrenceDates(s, monthsAhead, fromDate) == []
  {
    var c := ParseIso(s.startDate).value;
    var last := ParseIso(s.endDate.value).value;
    DayNumberOrder(last, c);
    DayNumberOrder(c, last);
  }

  /** An unparseable start date, resume date or end date yields nothing. */
  lemma InvalidDatesYieldNothing(s: Schedule, monthsAhead: int, fromDate: Option<string>)
    requires LoopEnds(s, monthsAhead, fromDate)
    requires ParseIso(s.startDate).None? || ParseIso(fromDate.GetOr(s.startDate)).None?
             || EndLimitOf(s.endDate) == InvalidEnd
    ensures OccurrenceDates(s, monthsAhead, fromDate) == []
  {
    if ParseIso(s.startDate).Some? && ParseIso(fromDate.GetOr(s.startDate)).Some? && s.frequency != Once {
      var c := ParseIso(s.startDate).value;
      assert !InRange(c, AddMonths(ParseIso(fromDate.GetOr(s.startDate)).value, monthsAhead), InvalidEnd);
    }
  }

  /**
    * Every occurrence lies within the horizon and the end date, on or after
    * the resume date when there is one, and the dates strictly increase.
    */
  lemma OccurrencesInWindow(s: Schedule, monthsAhead: int, fromDate: Option<string>)
    requires LoopEnds(s, monthsAhead, fromDate)
    requires ParseIso(s.startDate).Some? && ParseIso(fromDate.GetOr(s.startDate)).Some?
    ensures var ds := OccurrenceDates(s, monthsAhead, fromDate);
      var start := ParseIso(fromDate.GetOr(s.startDate)).value;
      var boundary := AddMonths(start, monthsAhead);
      Ascending(ds)
      && forall d | d in ds ::
           Valid(d) && InRange(d, boundary, EndLimitOf(s.endDate))
           && (s.frequency != Once && fromDate.Some? && fromDate.value != "" ==> NotAfter(start, d))
  {
    if s.frequency != Once && s.interval.GetOr(1) >= 1 {
      var start := ParseIso(fromDate.GetOr(s.startDate)).value;
      var boundary := AddMonths(start, monthsAhead);
      var from := if fromDate.Some? && fromDate.value != "" then Some(start) else None;
      var c := ParseIso(s.startDate).value;
      WalkBounded(c, s.frequency, s.interval.GetOr(1), boundary, EndLimitOf(s.endDate), from);
      WalkAscending(c, s.frequency, s.interval.GetOr(1), boundary, EndLimitOf(s.endDate), from);
    }
  }

  /**
    * A monthly schedule from the 15th of January (or any day up to the 28th)
    * over three months: that day of January, February, March and April.
    */
  lemma MonthlyExample(y: int, day: int)
    requires 1 <= day <= 28
    ensures Walk(Date(y, 1, day), Monthly, 1, AddMonths(Date(y, 1, day), 3), NoEnd, None)
         == [Date(y, 1, day), Date(y, 2, day), Date(y, 3, day), Date(y, 4, day)]
  {
    var d0, d1, d2, d3 := Date(y, 1, day), Date(y, 2, day), Date(y, 3, day), Date(y, 4, day);
    ExampleTail(y, day);
    assert Walk(d0, Monthly, 1, d3, NoEnd, None) == [d0, d1, d2, d3] by {
      ExampleStep(d0, d3, [d1, d2, d3]);
      ConsThree(d0, d1, d2, d3);
    }
    assert AddMonths(d0, 3) == d3 by {
      AddMonthsSameYear(d0, 3);
    }
  }

  /** The example's walk from February on. */
  lemma ExampleTail(y: int, day: int)
    requires 1 <= day <= 28
    ensures Walk(Date(y, 2, day), Monthly, 1, Date(y, 4, day), NoEnd, None) == [Date(y, 2, day), Date(y, 3, day), Date(y, 4, day)]
  {
    var d1, d2, d3, d4 := Date(y, 2, day), Date(y, 3, day), Date(y, 4, day), Date(y, 5, day);
    assert Walk(d3, Monthly, 1, d3, NoEnd, None) == [d3] by {
      ExampleEnd(d4, d3);
      ExampleStep(d3, d3, []);
    }
    assert Walk(d2, Monthly, 1, d3, NoEnd, None) == [d2, d3] by {
      ExampleStep(d2, d3, [d3]);
    }
    ExampleStep(d1, d3, [d2, d3]);
  }

  /** A date put in front of a list of three. */
  lemma ConsThree<T>(a: T, b: T, c: T, d: T)
    ensures [a] + [b, c, d] == [a, b, c, d]
  {
  }

  /** One monthly step of the example: an in-range day is emitted, then the walk from the same day of the next month. */
  lemma ExampleStep(d: Date, b: Date, rest: seq<Date>)
    requires Valid(d) && Valid(b) && d.day <= 28 && d.month < 12 && !Before(b, d)
    requires Walk(Date(d.year, d.month + 1, d.day), Monthly, 1, b, NoEnd, None) == rest
    ensures Walk(d, Monthly, 1, b, NoEnd, None) == [d] + rest
  {
    assert InRange(d, b, NoEnd) by {
      DayNumberOrder(b, d);
    }
    assert Step(d, Monthly, 1) == Date(d.year, d.month + 1, d.day) by {
      AddMonthsSameYear(d, 1);
    }
    WalkEmits(d, Monthly, 1, b, NoEnd, None);
  }

  /** The example's walk ends at the first day after the boundary. */
  lemma ExampleEnd(d: Date, b: Date)
    requires Valid(d) && Valid(b) && Before(b, d)
    ensures Walk(d, Monthly, 1, b, NoEnd, None) == []
  {
    DayNumberOrder(b, d);
    assert !InRange(d, b, NoEnd);
  }
}
