/**
  The view of the transactions that the list and the totals show: the current
  filter mode applied to a copy of the store's transactions. The date picker's
  value, the year box's value and the clock's reading `new Date()` are
  parameters. Time zones are not modelled: every `Date` is read in UTC.
 */
module Filter {
  import opened Wrappers
  import opened Numbers
  import opened Calendar
  import opened Records
  import opened Seqs

  datatype FilterMode = All | Daily | Weekly | Monthly | Yearly

  /** What a mode keeps once its reference date or year has been read. */
  datatype Criterion =
    | KeepAll
    | KeepNone
    | DateIs(date: string)
    | TimeBetween(first: int, last: int)
    | MonthOf(year: int, month: int)
    | YearOf(year: int)

  /**
    The picked date at midnight, or the clock's reading when the picker is
    empty; `None` is an invalid `Date`.
   */
  function ReferenceMoment(dateValue: string, now: Moment): Option<Moment>
  {
    if dateValue != "" then
      match ParseIsoDate(dateValue)
      case None => None
      case Some(d) => Some(Moment(d, 0))
    else Some(now)
  }

  /**
    `startOfWeek`/`endOfWeek`: `setDate` moves the reference back to its Sunday
    and then on six days, keeping its time of day.
   */
  function WeekOf(m: Moment): Criterion
  {
    var day := DayNumber(m.date);
    var start := (day - Weekday(day)) * MillisPerDay + m.time;
    TimeBetween(start, start + 6 * MillisPerDay)
  }

  function CriterionFor(mode: FilterMode, dateValue: string, yearValue: string, now: Moment): Criterion
  {
    match mode
    case All => KeepAll
    case Daily => if dateValue != "" then DateIs(dateValue) else KeepAll
    case Weekly =>
      (match ReferenceMoment(dateValue, now)
       case None => KeepNone
       case Some(m) => WeekOf(m))
    case Monthly =>
      (match ReferenceMoment(dateValue, now)
       case None => KeepNone
       case Some(m) => MonthOf(m.date.year, m.date.month))
    case Yearly =>
      (match ParseLeadingInt(yearValue)
       case None => KeepAll
       case Some(y) => YearOf(y))
  }

  /**
    `updateFilterUI`: the input the mode shows is filled when it is empty, the
    date picker with today's date as `toISOString().slice(0, 10)` writes it and
    the year box with the current year. The result is the new (picker, year box).
   */
  function FillFilterInputs(mode: FilterMode, dateValue: string, yearValue: string, now: Moment): (r: (string, string))
    requires ValidDate(now.date) && 0 <= now.date.year < 10000
    ensures mode != Yearly ==> r.1 == yearValue
    ensures mode == All || mode == Yearly ==> r.0 == dateValue
    ensures mode != All && mode != Yearly ==> r.0 != "" && (dateValue != "" ==> r.0 == dateValue)
    ensures mode == Yearly ==> r.1 != "" && (yearValue != "" ==> r.1 == yearValue)
  {
    match mode
    case Daily | Weekly | Monthly =>
      (if dateValue == "" then FormatIsoDate(now.date) else dateValue, yearValue)
    case Yearly =>
      (dateValue, if yearValue == "" then IntToString(now.date.year) else yearValue)
    case All => (dateValue, yearValue)
  }

  /**
    A picker filled by `updateFilterUI` reads back as today at midnight, and a
    filled year box as the current year.
   */
  lemma FilledInputsReadBack(mode: FilterMode, yearValue: string, now: Moment)
    requires ValidDate(now.date) && 0 <= now.date.year < 10000
    ensures mode != All && mode != Yearly ==>
              ReferenceMoment(FillFilterInputs(mode, "", yearValue, now).0, now) == Some(Moment(now.date, 0))
    ensures ParseLeadingInt(FillFilterInputs(Yearly, "", "", now).1) == Some(now.date.year)
  {
    ParseOfFormatted(now.date);
    ParseOfIntToString(now.date.year);
  }

  /**
    Once `updateFilterUI` has filled an empty picker, `weekly` shows the whole
    Sunday-to-Saturday week of today, each record as often as the store holds it.
   */
  lemma FilledWeekIsWholeWeek(ts: seq<Transaction>, yearValue: string, now: Moment, t: Transaction)
    requires ValidDate(now.date) && 0 <= now.date.year < 10000
    ensures var picked := FillFilterInputs(Weekly, "", yearValue, now).0;
            var day := DayNumber(now.date);
            var sunday := day - Weekday(day);
            var p := ParseIsoDate(t.date);
            var inWeek := p.Some? && sunday <= DayNumber(p.value) <= sunday + 6;
            multiset(FilteredTransactions(ts, Weekly, picked, yearValue, now))[t] == if inWeek then multiset(ts)[t] else 0
  {
    var picked := FillFilterInputs(Weekly, "", yearValue, now).0;
    FilledInputsReadBack(Weekly, yearValue, now);
    WeeklyKeepsThatWeek(ts, picked, yearValue, now, t);
  }

  /**
    Whether a transaction passes. Every mode but `daily` reads the record's date
    as a `Date`; a date that does not parse compares false.
   */
  predicate Keeps(c: Criterion, t: Transaction)
  {
    match c
    case KeepAll => true
    case KeepNone => false
    case DateIs(s) => t.date == s
    case TimeBetween(first, last) =>
      var p := ParseIsoDate(t.date);
      p.Some? && first <= TimeValue(Moment(p.value, 0)) <= last
    case MonthOf(y, m) =>
      var p := ParseIsoDate(t.date);
      p.Some? && p.value.year == y && p.value.month == m
    case YearOf(y) =>
      var p := ParseIsoDate(t.date);
      p.Some? && p.value.year == y
  }

  /** `filtered.filter(t => Keeps(c, t))`. */
  function FilterBy(ts: seq<Transaction>, c: Criterion): seq<Transaction>
  {
    if ts == [] then [] else (if Keeps(c, ts[0]) then [ts[0]] else []) + FilterBy(ts[1..], c)
  }

  /** Every record that passes is in the view as often as in the store, and no other record is. */
  lemma {:induction false} FilterByCounts(ts: seq<Transaction>, c: Criterion)
    ensures forall t :: multiset(FilterBy(ts, c))[t] == if Keeps(c, t) then multiset(ts)[t] else 0
  {
    if ts != [] {
      assert ts == [ts[0]] + ts[1..];
      FilterByCounts(ts[1..], c);
    }
  }

  /** One record's count in the view, and whether it is there at all. */
  lemma FilterByCount(ts: seq<Transaction>, c: Criterion, t: Transaction)
    ensures multiset(FilterBy(ts, c))[t] == if Keeps(c, t) then multiset(ts)[t] else 0
    ensures t in FilterBy(ts, c) <==> t in ts && Keeps(c, t)
  {
    FilterByCounts(ts, c);
    assert t in FilterBy(ts, c) <==> multiset(FilterBy(ts, c))[t] > 0;
    assert t in ts <==> multiset(ts)[t] > 0;
  }

  /** `getFilteredTransactions()`. */
  function FilteredTransactions(ts: seq<Transaction>, mode: FilterMode, dateValue: string, yearValue: string, now: Moment): seq<Transaction>
  {
    FilterBy(ts, CriterionFor(mode, dateValue, yearValue, now))
  }

  /** The filtered view keeps the store's order. */
  lemma {:induction false} FilterIsSubsequence(ts: seq<Transaction>, c: Criterion)
    ensures IsSubsequence(FilterBy(ts, c), ts)
  {
    if ts != [] {
      FilterIsSubsequence(ts[1..], c);
      var rest := FilterBy(ts[1..], c);
      if Keeps(c, ts[0]) {
        assert ([ts[0]] + rest)[1..] == rest;
      } else {
        assert FilterBy(ts, c) == rest;
        SkipHead(rest, ts);
      }
    }
  }

  lemma {:induction false} SkipHead(a: seq<Transaction>, b: seq<Transaction>)
    requires b != [] && IsSubsequence(a, b[1..])
    ensures IsSubsequence(a, b)
  {
  }

  lemma {:induction false} KeepAllKeepsEverything(ts: seq<Transaction>)
    ensures FilterBy(ts, KeepAll) == ts
  {
    if ts != [] {
      KeepAllKeepsEverything(ts[1..]);
    }
  }

  /**
    `all`, `daily` with an empty picker and `yearly` with a year box that does not
    parse all show the whole list (unlike `weekly`/`monthly`, which fall back to the clock).
   */
  lemma UnfilteredModes(ts: seq<Transaction>, mode: FilterMode, dateValue: string, yearValue: string, now: Moment)
    requires mode == All || (mode == Daily && dateValue == "") || (mode == Yearly && ParseLeadingInt(yearValue).None?)
    ensures FilteredTransactions(ts, mode, dateValue, yearValue, now) == ts
  {
    KeepAllKeepsEverything(ts);
  }

  /** `daily` with a picked date keeps exactly the records whose date string is that one. */
  lemma DailyKeepsThatDate(ts: seq<Transaction>, dateValue: string, yearValue: string, now: Moment)
    requires dateValue != ""
    ensures var r := FilteredTransactions(ts, Daily, dateValue, yearValue, now);
            (forall i :: 0 <= i < |r| ==> r[i].date == dateValue) &&
            (forall i :: 0 <= i < |ts| && ts[i].date == dateValue ==> ts[i] in r)
  {
    var r := FilteredTransactions(ts, Daily, dateValue, yearValue, now);
    FilterByCounts(ts, CriterionFor(Daily, dateValue, yearValue, now));
    forall i | 0 <= i < |r| ensures r[i].date == dateValue {
      assert multiset(r)[r[i]] > 0;
    }
    forall i | 0 <= i < |ts| && ts[i].date == dateValue ensures ts[i] in r {
      assert multiset(ts)[ts[i]] > 0;
    }
  }

  /**
    The weekly window runs from the reference moment's Sunday to the Saturday
    after it, both at the reference moment's time of day, and contains it.
   */
  lemma WeekWindow(m: Moment)
    ensures var day := DayNumber(m.date);
            var sunday := day - Weekday(day);
            Weekday(sunday) == 0 && Weekday(sunday + 6) == 6 && sunday <= day <= sunday + 6
            && WeekOf(m).first == sunday * MillisPerDay + m.time
            && WeekOf(m).last == WeekOf(m).first + 6 * MillisPerDay
            && WeekOf(m).first <= TimeValue(m) <= WeekOf(m).last
  {
  }

  /**
    A record's date is midnight of its day, so it falls in a window opened at
    time `time` of day `sunday` exactly when it is no earlier than that Sunday,
    or the Monday after when the window opened past midnight.
   */
  lemma MidnightInWindow(n: int, sunday: int, time: TimeOfDay)
    ensures sunday * MillisPerDay + time <= n * MillisPerDay <= (sunday + 6) * MillisPerDay + time
            <==> (if time == 0 then sunday else sunday + 1) <= n <= sunday + 6
  {
    var k := n - sunday;
    assert n * MillisPerDay - sunday * MillisPerDay == k * MillisPerDay;
    if k <= 0 {
      assert k * MillisPerDay <= 0;
    } else if k <= 6 {
      assert MillisPerDay <= k * MillisPerDay <= 6 * MillisPerDay;
    } else {
      assert k * MillisPerDay >= 7 * MillisPerDay;
    }
  }

  /**
    `weekly` keeps exactly the records dated in the reference week, each as
    often as the store holds it. A picked date is midnight, so its week starts
    on Sunday; the clock is usually past midnight, and then the week it
    gives starts on Monday, since that Sunday's midnight lies before it.
   */
  lemma WeeklyKeepsThatWeek(ts: seq<Transaction>, dateValue: string, yearValue: string, now: Moment, t: Transaction)
    requires ReferenceMoment(dateValue, now).Some?
    ensures var m := ReferenceMoment(dateValue, now).value;
            var day := DayNumber(m.date);
            var sunday := day - Weekday(day);
            var first := if m.time == 0 then sunday else sunday + 1;
            var p := ParseIsoDate(t.date);
            var inWeek := p.Some? && first <= DayNumber(p.value) <= sunday + 6;
            var r := FilteredTransactions(ts, Weekly, dateValue, yearValue, now);
            Weekday(sunday) == 0
            && (dateValue != "" ==> first == sunday)
            && multiset(r)[t] == (if inWeek then multiset(ts)[t] else 0)
            && (t in r <==> t in ts && inWeek)
  {
    var m := ReferenceMoment(dateValue, now).value;
    assert CriterionFor(Weekly, dateValue, yearValue, now) == WeekOf(m);
    FilterByCount(ts, WeekOf(m), t);
    WeekWindow(m);
    WeekKeeps(m, t);
  }

  /** Which records the weekly window keeps, counted in days. */
  lemma WeekKeeps(m: Moment, t: Transaction)
    ensures var day := DayNumber(m.date);
            var sunday := day - Weekday(day);
            var p := ParseIsoDate(t.date);
            Keeps(WeekOf(m), t) <==>
              p.Some? && (if m.time == 0 then sunday else sunday + 1) <= DayNumber(p.value) <= sunday + 6
  {
    var day := DayNumber(m.date);
    var p := ParseIsoDate(t.date);
    if p.Some? {
      MidnightInWindow(DayNumber(p.value), day - Weekday(day), m.time);
    }
  }

  /** With an empty picker and the clock past midnight, `weekly` hides the records of this week's Sunday. */
  lemma WeeklyHidesSundayAfterMidnight(ts: seq<Transaction>, yearValue: string, now: Moment, t: Transaction)
    requires now.time > 0
    requires ParseIsoDate(t.date).Some?
    requires DayNumber(ParseIsoDate(t.date).value) == DayNumber(now.date) - Weekday(DayNumber(now.date))
    ensures t !in FilteredTransactions(ts, Weekly, "", yearValue, now)
  {
    WeeklyKeepsThatWeek(ts, "", yearValue, now, t);
  }

  /** An invalid picked date makes `weekly` and `monthly` show nothing. */
  lemma InvalidDateShowsNothing(ts: seq<Transaction>, mode: FilterMode, dateValue: string, yearValue: string, now: Moment)
    requires mode == Weekly || mode == Monthly
    requires dateValue != "" && ParseIsoDate(dateValue).None?
    ensures FilteredTransactions(ts, mode, dateValue, yearValue, now) == []
  {
    var r := FilteredTransactions(ts, mode, dateValue, yearValue, now);
    FilterByCounts(ts, CriterionFor(mode, dateValue, yearValue, now));
    assert forall t :: multiset(r)[t] == 0;
  }

  /** `monthly` keeps exactly the records dated in the reference month, `yearly` those in the parsed year. */
  lemma MonthlyAndYearly(ts: seq<Transaction>, dateValue: string, yearValue: string, now: Moment, t: Transaction)
    ensures var ref := ReferenceMoment(dateValue, now);
            var p := ParseIsoDate(t.date);
            ref.Some? ==>
              (t in FilteredTransactions(ts, Monthly, dateValue, yearValue, now) <==>
               t in ts && p.Some? && p.value.year == ref.value.date.year && p.value.month == ref.value.date.month)
    ensures var y := ParseLeadingInt(yearValue);
            var p := ParseIsoDate(t.date);
            y.Some? ==>
              (t in FilteredTransactions(ts, Yearly, dateValue, yearValue, now) <==>
               t in ts && p.Some? && p.value.year == y.value)
  {
    if ReferenceMoment(dateValue, now).Some? {
      MonthlyKeepsThatMonth(ts, dateValue, yearValue, now, t);
    }
    if ParseLeadingInt(yearValue).Some? {
      YearlyKeepsThatYear(ts, dateValue, yearValue, now, t);
    }
  }

  lemma MonthlyKeepsThatMonth(ts: seq<Transaction>, dateValue: string, yearValue: string, now: Moment, t: Transaction)
    requires ReferenceMoment(dateValue, now).Some?
    ensures var m := ReferenceMoment(dateValue, now).value;
            var p := ParseIsoDate(t.date);
            t in FilteredTransactions(ts, Monthly, dateValue, yearValue, now) <==>
              t in ts && p.Some? && p.value.year == m.date.year && p.value.month == m.date.month
  {
    var m := ReferenceMoment(dateValue, now).value;
    var c := MonthOf(m.date.year, m.date.month);
    assert CriterionFor(Monthly, dateValue, yearValue, now) == c;
    FilterByCount(ts, c, t);
  }

  lemma YearlyKeepsThatYear(ts: seq<Transaction>, dateValue: string, yearValue: string, now: Moment, t: Transaction)
    requires ParseLeadingInt(yearValue).Some?
    ensures var p := ParseIsoDate(t.date);
            t in FilteredTransactions(ts, Yearly, dateValue, yearValue, now) <==>
              t in ts && p.Some? && p.value.year == ParseLeadingInt(yearValue).value
  {
    var c := YearOf(ParseLeadingInt(yearValue).value);
    assert CriterionFor(Yearly, dateValue, yearValue, now) == c;
    FilterByCount(ts, c, t);
  }

  /** The view's share of one store record: the record itself if it passes, nothing otherwise. */
  function Kept(c: Criterion, t: Transaction): seq<Transaction>
  {
    if Keeps(c, t) then [t] else []
  }

  /** Filtering a concatenation filters each part. */
  lemma {:induction false} FilterByAppend(a: seq<Transaction>, b: seq<Transaction>, c: Criterion)
    ensures FilterBy(a + b, c) == FilterBy(a, c) + FilterBy(b, c)
  {
    if a == [] {
      assert a + b == b;
    } else {
      var h := Kept(c, a[0]);
      assert (a + b)[0] == a[0] && (a + b)[1..] == a[1..] + b;
      assert FilterBy(a + b, c) == h + FilterBy(a[1..] + b, c);
      assert FilterBy(a, c) == h + FilterBy(a[1..], c);
      FilterByAppend(a[1..], b, c);
      AppendAssoc(h, FilterBy(a[1..], c), FilterBy(b, c));
    }
  }

  lemma FilterBySingle(t: Transaction, c: Criterion)
    ensures FilterBy([t], c) == Kept(c, t)
  {
    assert [t][1..] == [];
  }

  /** A `push` onto the store adds the new record to the end of the view if it passes, and changes nothing otherwise. */
  lemma FilterPush(ts: seq<Transaction>, c: Criterion, t: Transaction)
    ensures FilterBy(ts + [t], c) == FilterBy(ts, c) + Kept(c, t)
  {
    FilterByAppend(ts, [t], c);
    FilterBySingle(t, c);
  }

  /** The view of a store split around position `i`: what comes before it, its own share, what comes after. */
  lemma FilterAround(ts: seq<Transaction>, c: Criterion, i: nat)
    requires i < |ts|
    ensures FilterBy(ts, c) == FilterBy(ts[..i], c) + Kept(c, ts[i]) + FilterBy(ts[i + 1..], c)
  {
    assert ts == ts[..i] + [ts[i]] + ts[i + 1..];
    FilterByAppend(ts[..i] + [ts[i]], ts[i + 1..], c);
    FilterByAppend(ts[..i], [ts[i]], c);
    FilterBySingle(ts[i], c);
  }

  /** Replacing store record `i` swaps its share of the view for the new record's, in the same place. */
  lemma FilterReplace(ts: seq<Transaction>, c: Criterion, i: nat, t: Transaction)
    requires i < |ts|
    ensures FilterBy(ts[i := t], c) == FilterBy(ts[..i], c) + Kept(c, t) + FilterBy(ts[i + 1..], c)
  {
    var u := ts[i := t];
    FilterAround(u, c, i);
    assert u[..i] == ts[..i] && u[i + 1..] == ts[i + 1..];
  }

  /** Removing store record `i` removes its share of the view and keeps the rest in order. */
  lemma FilterRemove(ts: seq<Transaction>, c: Criterion, i: nat)
    requires i < |ts|
    ensures FilterBy(ts[..i] + ts[i + 1..], c) == FilterBy(ts[..i], c) + FilterBy(ts[i + 1..], c)
  {
    FilterByAppend(ts[..i], ts[i + 1..], c);
  }
}
