/**
 * The multi-date picker of the site form: a list of chosen dates that a click
 * on a calendar cell toggles, keyed by calendar day (`toDateString`), so two
 * instants on the same day count as the same choice.
 *
 * The grid and month navigation are `Calendar.DaysInMonth`,
 * `Calendar.PreviousMonth` and `Calendar.NextMonth`.
 */
module DateSelector {
  import opened Calendar

  /** `value.some(d => d.toDateString() === date.toDateString())`. */
  predicate IsDateSelected(value: seq<Moment>, date: Moment) {
    exists i :: 0 <= i < |value| && value[i].day == date.day
  }

  /** `value.filter(d => d.toDateString() !== day)`. */
  function RemoveDay(value: seq<Moment>, day: Day): (r: seq<Moment>)
    ensures |r| <= |value|
    ensures forall m :: m in r <==> m in value && m.day != day
  {
    if value == [] then []
    else
      var rest := RemoveDay(value[1..], day);
      if value[0].day != day then [value[0]] + rest else rest
  }

  /** A click on `date`: ignored when disabled, else removes that day if chosen, or appends it. */
  function HandleDateClick(value: seq<Moment>, date: Moment, disabled: bool): (r: seq<Moment>)
    ensures disabled ==> r == value
    ensures !disabled ==> (IsDateSelected(r, date) <==> !IsDateSelected(value, date))
    ensures !disabled && IsDateSelected(value, date) ==> r == RemoveDay(value, date.day) && |r| < |value|
    ensures !disabled && !IsDateSelected(value, date) ==> |r| == |value| + 1 && r[..|value|] == value && r[|value|] == date
  {
    if disabled then value
    else if IsDateSelected(value, date) then
      SelectedDayRemoved(value, date);
      RemoveDay(value, date.day)
    else
      assert (value + [date])[|value|] == date;
      value + [date]
  }

  lemma SelectedDayRemoved(value: seq<Moment>, date: Moment)
    requires IsDateSelected(value, date)
    ensures !IsDateSelected(RemoveDay(value, date.day), date)
    ensures |RemoveDay(value, date.day)| < |value|
  {
    var i :| 0 <= i < |value| && value[i].day == date.day;
    ShorterWhenPresent(value, date.day, i);
    var r := RemoveDay(value, date.day);
    forall j | 0 <= j < |r| ensures r[j].day != date.day {
      assert r[j] in r;
    }
  }

  lemma {:induction false} ShorterWhenPresent(value: seq<Moment>, day: Day, i: int)
    requires 0 <= i < |value| && value[i].day == day
    ensures |RemoveDay(value, day)| < |value|
  {
    if i > 0 {
      ShorterWhenPresent(value[1..], day, i - 1);
    }
  }

  /** `handleRemoveDate`: drops every entry on that date's day. */
  function HandleRemoveDate(value: seq<Moment>, dateToRemove: Moment): (r: seq<Moment>)
    ensures !IsDateSelected(r, dateToRemove)
    ensures forall m :: m in r <==> m in value && m.day != dateToRemove.day
  {
    var r := RemoveDay(value, dateToRemove.day);
    assert forall j :: 0 <= j < |r| ==> r[j] in r;
    r
  }

  // ----------------------------------------------- order of what is kept

  /** Removing a day from a concatenation removes it from each part, so the kept entries keep their order. */
  lemma {:induction false} RemoveDayAppend(a: seq<Moment>, b: seq<Moment>, day: Day)
    ensures RemoveDay(a + b, day) == RemoveDay(a, day) + RemoveDay(b, day)
  {
    if a != [] {
      assert (a + b)[1..] == a[1..] + b;
      RemoveDayAppend(a[1..], b, day);
    } else {
      assert a + b == b;
    }
  }

  /** Removing a day nobody chose changes nothing. */
  lemma {:induction false} RemoveDayNoop(value: seq<Moment>, day: Day)
    requires forall m :: m in value ==> m.day != day
    ensures RemoveDay(value, day) == value
  {
    if value != [] {
      assert value[0] in value;
      assert forall m :: m in value[1..] ==> m in value;
      RemoveDayNoop(value[1..], day);
      assert [value[0]] + value[1..] == value;
    }
  }

  /** A single entry is kept exactly when it is not on the removed day. */
  lemma RemoveDaySingle(m: Moment, day: Day)
    ensures RemoveDay([m], day) == if m.day == day then [] else [m]
  {
    assert [m][1..] == [];
  }

  // ------------------------------------------------------ duplicate days

  predicate DistinctDays(value: seq<Moment>) {
    forall i, j :: 0 <= i < j < |value| ==> value[i].day != value[j].day
  }

  lemma {:induction false} RemoveDayKeepsDistinct(value: seq<Moment>, day: Day)
    requires DistinctDays(value)
    ensures DistinctDays(RemoveDay(value, day))
  {
    if value != [] {
      assert DistinctDays(value[1..]) by {
        forall i, j | 0 <= i < j < |value[1..]| ensures value[1..][i].day != value[1..][j].day {
          assert value[1..][i] == value[i + 1] && value[1..][j] == value[j + 1];
        }
      }
      RemoveDayKeepsDistinct(value[1..], day);
      var rest := RemoveDay(value[1..], day);
      if value[0].day != day {
        forall k | 0 <= k < |rest| ensures rest[k].day != value[0].day {
          assert rest[k] in rest;
          var i :| 0 <= i < |value[1..]| && value[1..][i] == rest[k];
          assert value[i + 1] == rest[k];
        }
        var r := [value[0]] + rest;
        forall i, j | 0 <= i < j < |r| ensures r[i].day != r[j].day {
          if i > 0 {
            assert r[i] == rest[i - 1] && r[j] == rest[j - 1];
          } else {
            assert r[j] == rest[j - 1];
          }
        }
      }
    }
  }

  /** A list without two entries on the same day keeps that property through any click. */
  lemma ClickKeepsDistinct(value: seq<Moment>, date: Moment, disabled: bool)
    requires DistinctDays(value)
    ensures DistinctDays(HandleDateClick(value, date, disabled))
  {
    if !disabled {
      if IsDateSelected(value, date) {
        RemoveDayKeepsDistinct(value, date.day);
      } else {
        var r := value + [date];
        forall i, j | 0 <= i < j < |r| ensures r[i].day != r[j].day {
          if j == |value| {
            assert r[i] == value[i];
          } else {
            assert r[i] == value[i] && r[j] == value[j];
          }
        }
      }
    }
  }

  /** Clicking a day that was not chosen, then clicking it again, restores the list. */
  lemma ClickTwiceRestores(value: seq<Moment>, date: Moment)
    requires !IsDateSelected(value, date)
    ensures HandleDateClick(HandleDateClick(value, date, false), date, false) == value
  {
    var once := HandleDateClick(value, date, false);
    assert once == value + [date];
    forall m | m in value ensures m.day != date.day {
      var i :| 0 <= i < |value| && value[i] == m;
    }
    RemoveDayAppend(value, [date], date.day);
    RemoveDayNoop(value, date.day);
    RemoveDaySingle(date, date.day);
  }
}
