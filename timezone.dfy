/**
 * The date helpers as the browser evaluates them, with instants counted in
 * minutes since 1970-01-01T00:00Z and the user's time zone a fixed offset in
 * minutes east of UTC (daylight saving time is not modelled).
 *
 * A due date is stored as `YYYY-MM-DD`. `new Date('YYYY-MM-DD')` is UTC
 * midnight of that day; `setHours(0,0,0,0)` moves an instant to the local
 * midnight of the local day it falls on; `toISOString().slice(0, 10)` is the
 * UTC calendar day of an instant. Outside UTC these do not line up: the due
 * day is read one day early west of UTC, and "today's" ISO string is one day
 * early east of UTC. `Dates` holds the intended day-number semantics.
 */
module LocalTime {
  import opened Wrappers
  import opened Seqs
  import opened Entities
  import Dates
  import Query

  const MinutesPerDay: int := 1440

  /** Real offsets lie within a day of UTC. */
  predicate ValidOffset(offset: int) {
    -MinutesPerDay < offset < MinutesPerDay
  }

  /** The local calendar day an instant falls on. */
  function LocalDayOf(instant: int, offset: int): int {
    (instant + offset) / MinutesPerDay
  }

  /** The instant of local midnight starting local day `day`. */
  function LocalMidnight(day: int, offset: int): int {
    day * MinutesPerDay - offset
  }

  /**
   * `new Date(due)` followed by `setHours(0,0,0,0)`, as a local day: west of
   * UTC the stored date is read as the day before.
   */
  function ParsedDueDay(due: int, offset: int): (r: int)
    requires ValidOffset(offset)
    ensures offset < 0 ==> r == due - 1
    ensures offset >= 0 ==> r == due
  {
    LocalDayOf(due * MinutesPerDay, offset)
  }

  /**
   * `todayISO()`: local midnight of today, written as its UTC date. East of
   * UTC that is yesterday's date.
   */
  function TodayIso(today: int, offset: int): (r: int)
    requires ValidOffset(offset)
    ensures offset > 0 ==> r == today - 1
    ensures offset <= 0 ==> r == today
  {
    LocalMidnight(today, offset) / MinutesPerDay
  }

  /** `isOverdue(due)`: the parsed due date's local midnight is before today's. */
  predicate IsOverdueAsWritten(due: Option<int>, today: int, offset: int)
    requires ValidOffset(offset)
  {
    due.Some? && LocalMidnight(ParsedDueDay(due.value, offset), offset) < LocalMidnight(today, offset)
  }

  /** `isToday(due)`: the stored string equals `todayISO()`. */
  predicate IsTodayAsWritten(due: Option<int>, today: int, offset: int)
    requires ValidOffset(offset)
  {
    due == Some(TodayIso(today, offset))
  }

  /** The `diffDays` of `formatDueLabel`: whole days from today's local midnight to the parsed due date's. */
  function DiffDaysAsWritten(due: int, today: int, offset: int): (r: int)
    requires ValidOffset(offset)
    ensures r == ParsedDueDay(due, offset) - today
  {
    (LocalMidnight(ParsedDueDay(due, offset), offset) - LocalMidnight(today, offset)) / MinutesPerDay
  }

  /**
   * `formatDueLabel(due)` in the browser: the label of the day `diffDays`
   * away from today, except that beyond a week it shows the stored date.
   */
  function DueLabelAsWritten(due: Option<int>, today: int, offset: int): Dates.DueLabel
    requires ValidOffset(offset)
  {
    if due.None? then Dates.FormatDueLabel(None, today)
    else
      var diff := DiffDaysAsWritten(due.value, today, offset);
      if diff > 7 then Dates.DueOn(due.value)
      else Dates.FormatDueLabel(Some(today + diff), today)
  }

  /** In UTC the browser's helpers are exactly the day-number ones of `Dates`. */
  lemma AsWrittenAgreesInUtc(due: Option<int>, today: int)
    ensures IsOverdueAsWritten(due, today, 0) <==> Dates.IsOverdue(due, today)
    ensures IsTodayAsWritten(due, today, 0) <==> Dates.IsToday(due, today)
    ensures DueLabelAsWritten(due, today, 0) == Dates.FormatDueLabel(due, today)
  {
  }

  /**
   * West of UTC a task due today is both "today" and "overdue", and its
   * label reads "Overdue 1d".
   */
  lemma DueTodayIsOverdueWestOfUtc(today: int, offset: int)
    requires ValidOffset(offset) && offset < 0
    ensures IsTodayAsWritten(Some(today), today, offset)
    ensures IsOverdueAsWritten(Some(today), today, offset)
    ensures DueLabelAsWritten(Some(today), today, offset) == Dates.OverdueBy(1)
  {
    assert Dates.FormatDueLabel(Some(today - 1), today).Kind() == Dates.Overdue;
  }

  /**
   * East of UTC a task due today is not "today", while a task due yesterday
   * is both "today" and "overdue".
   */
  lemma DueYesterdayIsTodayEastOfUtc(today: int, offset: int)
    requires ValidOffset(offset) && offset > 0
    ensures !IsTodayAsWritten(Some(today), today, offset)
    ensures IsTodayAsWritten(Some(today - 1), today, offset)
    ensures IsOverdueAsWritten(Some(today - 1), today, offset)
    ensures DueLabelAsWritten(Some(today), today, offset) == Dates.DueToday
  {
    assert Dates.FormatDueLabel(Some(today), today).Kind() == Dates.Today;
  }

  /** Beyond a week the browser's label shows the stored date, whatever the offset. */
  lemma FarDueShowsStoredDate(due: int, today: int, offset: int)
    requires ValidOffset(offset) && due > today + 8
    ensures DueLabelAsWritten(Some(due), today, offset) == Dates.DueOn(due)
    ensures DueLabelAsWritten(Some(due), today, offset).Kind() == Dates.Future
  {
  }

  /** Open tasks the browser counts as due today. */
  function OpenDueTodayAsWritten(today: int, offset: int): Task -> bool
    requires ValidOffset(offset)
  {
    (t: Task) => IsTodayAsWritten(t.due, today, offset) && !t.completed
  }

  /** Open tasks the browser counts as overdue. */
  function OpenOverdueAsWritten(today: int, offset: int): Task -> bool
    requires ValidOffset(offset)
  {
    (t: Task) => IsOverdueAsWritten(t.due, today, offset) && !t.completed
  }

  /** `updateStats` with the browser's date helpers. */
  function StatsAsWritten(tasks: seq<Task>, today: int, offset: int): Query.Stats
    requires ValidOffset(offset)
  {
    Query.Stats(
      |tasks|,
      |Filter(tasks, Query.IsCompleted)|,
      |Filter(tasks, OpenDueTodayAsWritten(today, offset))|,
      |Filter(tasks, OpenOverdueAsWritten(today, offset))|)
  }

  /**
   * In UTC-5 a single open task due today is counted under both "due today"
   * and "overdue", so the two counters add up to more tasks than exist;
   * `Query.StatsBounds` rules this out for the day-number counters.
   */
  lemma StatsDoubleCountAsWritten(today: int)
    ensures var tasks := [Task("1", "Pay rent", [], Medium, Some(today), false, 0)];
      var s := StatsAsWritten(tasks, today, -300);
      s.total == 1 && s.dueToday == 1 && s.overdue == 1 && s.dueToday + s.overdue > s.total
  {
    var t := Task("1", "Pay rent", [], Medium, Some(today), false, 0);
    DueTodayIsOverdueWestOfUtc(today, -300);
    assert OpenDueTodayAsWritten(today, -300)(t) && OpenOverdueAsWritten(today, -300)(t);
    assert [t][1..] == [];
    assert Filter([t], OpenDueTodayAsWritten(today, -300)) == [t];
    assert Filter([t], OpenOverdueAsWritten(today, -300)) == [t];
  }
}
