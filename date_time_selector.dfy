/**
 * The single-date picker of the site-date form: one selected date, its start
 * time and the employees assigned for it. A click selects a day, or clears the
 * selection when the day is already selected; either way the employee list is
 * reset.
 *
 * The grid and month navigation are `Calendar.DaysInMonth`,
 * `Calendar.PreviousMonth` and `Calendar.NextMonth`.
 */
module DateTimeSelector {
  import opened Wrappers
  import opened Calendar
  import Payroll

  /** The three pieces of parent state the picker drives. */
  datatype Selection = Selection(selectedDate: Option<Moment>, dateStartTime: string, dateEmployees: seq<Payroll.Employee>)

  const DefaultStartTime := "08:30"

  /** `selectedDate && date.toDateString() === selectedDate.toDateString()`. */
  predicate IsDateSelected(s: Selection, date: Moment) {
    s.selectedDate.Some? && s.selectedDate.value.day == date.day
  }

  /**
   * `handleDateClick`: when not disabled, clicking the selected day clears the
   * date and start time, any other day becomes the selection with start time
   * "08:30", and the employees are reset.
   */
  function HandleDateClick(s: Selection, date: Moment, disabled: bool): (r: Selection)
    ensures disabled ==> r == s
    ensures !disabled ==> r.dateEmployees == []
    ensures !disabled ==> (IsDateSelected(r, date) <==> !IsDateSelected(s, date))
    ensures !disabled ==> (r.selectedDate.None? <==> r.dateStartTime == "")
    ensures !disabled && IsDateSelected(s, date) ==> r.selectedDate == None
    ensures !disabled && !IsDateSelected(s, date) ==> r.selectedDate == Some(date) && r.dateStartTime == DefaultStartTime
  {
    if disabled then s
    else if IsDateSelected(s, date) then Selection(None, "", [])
    else Selection(Some(date), DefaultStartTime, [])
  }

  /** Whatever the selection, the days it reports as selected are all the same day. */
  lemma AtMostOneSelectedDay(s: Selection, a: Moment, b: Moment)
    ensures IsDateSelected(s, a) && IsDateSelected(s, b) ==> a.day == b.day
    ensures s.selectedDate.Some? ==> (IsDateSelected(s, a) <==> a.day == s.selectedDate.value.day)
    ensures s.selectedDate.None? ==> !IsDateSelected(s, a)
  {
  }

  /** Clicking a day twice clears the selection; clicking the selected day twice reselects it at "08:30". */
  lemma ClickTwice(s: Selection, date: Moment)
    ensures var twice := HandleDateClick(HandleDateClick(s, date, false), date, false);
            && twice.dateEmployees == []
            && (IsDateSelected(s, date) ==> twice.selectedDate == Some(date) && twice.dateStartTime == DefaultStartTime)
            && (!IsDateSelected(s, date) ==> twice.selectedDate == None && twice.dateStartTime == "")
  {
  }

  /** A click on another day moves the selection: the previously selected day is no longer selected. */
  lemma ClickMovesSelection(s: Selection, date: Moment, other: Moment)
    requires other.day != date.day
    ensures !IsDateSelected(HandleDateClick(s, date, false), other)
  {
  }
}
