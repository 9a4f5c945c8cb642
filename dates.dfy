/**
 * Due-date classification: `isOverdue`, `isToday` and `formatDueLabel`, on
 * calendar day numbers (days since 1970-01-01) with the current day given
 * as `today`.
 */
module Dates {
  import opened Wrappers

  /** The day number of a date of the proleptic Gregorian calendar. */
  function DaysFromCivil(year: int, month: int, day: int): int
    requires 1 <= month <= 12 && 1 <= day <= 31
  {
    var y := if month <= 2 then year - 1 else year;
    var era := y / 400;
    var yearOfEra := y - era * 400;
    var dayOfYear := (153 * (if month > 2 then month - 3 else month + 9) + 2) / 5 + day - 1;
    var dayOfEra := yearOfEra * 365 + yearOfEra / 4 - yearOfEra / 100 + dayOfYear;
    era * 146097 + dayOfEra - 719468
  }

  /** The key `'9999-12-31'` that the deadline sort gives a task without a due date. */
  const UndatedKey: int := 2932896

  /** Day 0 is 1970-01-01 and `UndatedKey` is the day number of 9999-12-31. */
  lemma UndatedKeyIsLastDay()
    ensures DaysFromCivil(1970, 1, 1) == 0
    ensures UndatedKey == DaysFromCivil(9999, 12, 31)
  {
  }

  /** `isOverdue(due)`: there is a due date and it is before today. */
  predicate IsOverdue(due: Option<int>, today: int) {
    due.Some? && due.value < today
  }

  /** `isToday(due)`: there is a due date and it is today. */
  predicate IsToday(due: Option<int>, today: int) {
    due.Some? && due.value == today
  }

  /** The `kind` field of a due label. */
  datatype DueKind = Undated | Overdue | Today | Soon | Future

  /** The `text` field of a due label, one constructor per text template. */
  datatype DueLabel =
    | NoDeadline           // "No deadline"
    | OverdueBy(days: nat) // "Overdue {days}d"
    | DueToday             // "Due today"
    | DueTomorrow          // "Due tomorrow"
    | DueIn(days: nat)     // "Due in {days}d"
    | DueOn(day: int)      // "Due {the due date}"
  {
    function Kind(): DueKind {
      match this
      case NoDeadline => Undated
      case OverdueBy(_) => Overdue
      case DueToday => Today
      case DueTomorrow => Soon
      case DueIn(_) => Soon
      case DueOn(_) => Future
    }
  }

  /**
   * `formatDueLabel(due)`: every due date falls in exactly one band — before
   * today, today, within the next seven days, later — and the label carries
   * the distance in days where its text shows one.
   */
  function FormatDueLabel(due: Option<int>, today: int): (r: DueLabel)
    ensures r.Kind() == Undated <==> due.None?
    ensures r.Kind() == Overdue <==> due.Some? && due.value < today
    ensures r.Kind() == Today <==> due == Some(today)
    ensures r.Kind() == Soon <==> due.Some? && today < due.value <= today + 7
    ensures r.Kind() == Future <==> due.Some? && today + 7 < due.value
    ensures r.OverdueBy? ==> due.Some? && r.days == today - due.value
    ensures r.DueTomorrow? <==> due == Some(today + 1)
    ensures r.DueIn? ==> 2 <= r.days <= 7 && due == Some(today + r.days)
    ensures r.DueOn? ==> due == Some(r.day)
  {
    match due
    case None => NoDeadline
    case Some(d) =>
      var diffDays := d - today;
      if diffDays < 0 then OverdueBy(-diffDays)
      else if diffDays == 0 then DueToday
      else if diffDays == 1 then DueTomorrow
      else if diffDays <= 7 then DueIn(diffDays)
      else DueOn(d)
  }

  /**
   * The filter predicates and the label are computed separately in the
   * source; on day numbers they classify every due date the same way, and a
   * task is never both due today and overdue.
   */
  lemma DueLabelAgrees(due: Option<int>, today: int)
    ensures IsOverdue(due, today) <==> FormatDueLabel(due, today).Kind() == Overdue
    ensures IsToday(due, today) <==> FormatDueLabel(due, today).Kind() == Today
    ensures !(IsToday(due, today) && IsOverdue(due, today))
    ensures due.None? ==> !IsToday(due, today) && !IsOverdue(due, today)
  {
  }
}
