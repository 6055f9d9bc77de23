/**
 * The site calendar: a month grid and, for a chosen day, the sites working on
 * that day with only that day's site dates. Days are compared by their local
 * `YYYY-MM-DD` key (`Calendar.DayKey`).
 *
 * Parsing each site date's stored string into a local day is not modelled: the
 * site dates carry the day directly.
 */
module SiteCalendar {
  import opened Wrappers
  import opened Calendar

  datatype CalendarSiteDate = CalendarSiteDate(id: string, date: Day, startTime: Option<string>,
                                               endTime: Option<string>, employeeIds: seq<string>)

  datatype CalendarSite = CalendarSite(id: string, name: string, client: string, contactPerson: string,
                                       address: string, employeeNames: Option<string>,
                                       siteDates: seq<CalendarSiteDate>)

  /**
   * `dstr === target`: the site date falls on the target day. The component
   * compares `YYYY-MM-DD` keys; on real dates that is comparing the days
   * themselves (`OnDayIsKeyEquality`), which is what is written here.
   */
  predicate OnDay(sd: CalendarSiteDate, target: Day) {
    sd.date == target
  }

  lemma OnDayIsKeyEquality(sd: CalendarSiteDate, target: Day)
    requires ValidDay(sd.date) && ValidDay(target)
    ensures OnDay(sd, target) <==> DayKey(sd.date) == DayKey(target)
  {
    DayKeyInjective(sd.date, target);
  }

  /** `site.siteDates.filter(...)`: the site dates on the target day, in order. */
  function DatesOn(siteDates: seq<CalendarSiteDate>, target: Day): (r: seq<CalendarSiteDate>)
    ensures |r| <= |siteDates|
    ensures forall sd :: sd in r <==> sd in siteDates && OnDay(sd, target)
  {
    if siteDates == [] then []
    else
      var rest := DatesOn(siteDates[1..], target);
      if OnDay(siteDates[0], target) then [siteDates[0]] + rest else rest
  }

  /** `site.siteDates.some(...)`. */
  predicate WorksOn(site: CalendarSite, target: Day) {
    exists i :: 0 <= i < |site.siteDates| && OnDay(site.siteDates[i], target)
  }

  /** A site as listed for the target day: its other fields unchanged, its dates cut to that day. */
  function ForDay(site: CalendarSite, target: Day): CalendarSite {
    site.(siteDates := DatesOn(site.siteDates, target))
  }

  /** `getSitesForDate(target)`: the sites working that day, each with only that day's dates. */
  function SitesForDate(sites: seq<CalendarSite>, target: Day): (r: seq<CalendarSite>)
    ensures |r| <= |sites|
    ensures forall x :: x in r <==> exists s :: s in sites && WorksOn(s, target) && x == ForDay(s, target)
  {
    if sites == [] then []
    else
      var rest := SitesForDate(sites[1..], target);
      if WorksOn(sites[0], target) then [ForDay(sites[0], target)] + rest else rest
  }

  /**
   * Every listed site works on the target day: its date list is non-empty and
   * holds only dates on that day; every field but the dates is the original's.
   */
  lemma ListedSitesWorkThatDay(sites: seq<CalendarSite>, target: Day, x: CalendarSite)
    requires x in SitesForDate(sites, target)
    ensures x.siteDates != []
    ensures forall sd :: sd in x.siteDates ==> OnDay(sd, target)
    ensures exists s :: s in sites && x == s.(siteDates := x.siteDates)
  {
    var s :| s in sites && WorksOn(s, target) && x == ForDay(s, target);
    var i :| 0 <= i < |s.siteDates| && OnDay(s.siteDates[i], target);
    assert s.siteDates[i] in x.siteDates;
  }

  /** The listing of a concatenation is the listings of its parts, so sites keep their order. */
  lemma {:induction false} SitesForDateAppend(a: seq<CalendarSite>, b: seq<CalendarSite>, target: Day)
    ensures SitesForDate(a + b, target) == SitesForDate(a, target) + SitesForDate(b, target)
  {
    if a != [] {
      assert (a + b)[1..] == a[1..] + b;
      SitesForDateAppend(a[1..], b, target);
    } else {
      assert a + b == b;
    }
  }

  /** The dates kept for a day are those of each part, so they keep their order. */
  lemma {:induction false} DatesOnAppend(a: seq<CalendarSiteDate>, b: seq<CalendarSiteDate>, target: Day)
    ensures DatesOn(a + b, target) == DatesOn(a, target) + DatesOn(b, target)
  {
    if a != [] {
      assert (a + b)[1..] == a[1..] + b;
      DatesOnAppend(a[1..], b, target);
    } else {
      assert a + b == b;
    }
  }

  /** `hasSitesOnDate(target)`: `getSitesForDate(target).length > 0`. */
  predicate HasSitesOnDate(sites: seq<CalendarSite>, target: Day) {
    |SitesForDate(sites, target)| > 0
  }

  /** A day is marked exactly when some site has a site date on it. */
  lemma HasSitesOnDateIff(sites: seq<CalendarSite>, target: Day)
    ensures HasSitesOnDate(sites, target) <==> exists s :: s in sites && WorksOn(s, target)
  {
    var r := SitesForDate(sites, target);
    if exists s :: s in sites && WorksOn(s, target) {
      var s :| s in sites && WorksOn(s, target);
      assert ForDay(s, target) in r;
    }
    if |r| > 0 {
      assert r[0] in r;
    }
  }

  // -------------------------------------------------------------- state

  /** The calendar's state: the sites shown, the chosen day and its listing, and the month shown. */
  class SiteCalendarView {
    var sites: seq<CalendarSite>
    var selectedDate: Option<Moment>
    var sitesForSelectedDate: seq<CalendarSite>
    var currentMonth: YearMonth

    /** The listing matches the chosen day: empty with none, else that day's sites. */
    predicate InSync()
      reads this
    {
      sitesForSelectedDate == if selectedDate.None? then [] else SitesForDate(sites, selectedDate.value.day)
    }

    constructor(sites: seq<CalendarSite>, selectedDate: Option<Moment>, currentMonth: YearMonth)
      ensures this.sites == sites && this.selectedDate == selectedDate && this.currentMonth == currentMonth
      ensures sitesForSelectedDate == []
    {
      this.sites := sites;
      this.selectedDate := selectedDate;
      this.currentMonth := currentMonth;
      sitesForSelectedDate := [];
    }

    /** The effect on `selectedDate` and `sites`: recompute the listing for the chosen day. */
    method SyncSelectedDate()
      modifies this
      ensures InSync()
      ensures sites == old(sites) && selectedDate == old(selectedDate) && currentMonth == old(currentMonth)
    {
      if selectedDate.Some? {
        sitesForSelectedDate := SitesForDate(sites, selectedDate.value.day);
      } else {
        sitesForSelectedDate := [];
      }
    }

    /**
     * `handleDateClick`: the clicked date becomes the chosen one when the parent
     * lets the calendar choose (`canSelect`), and the listing shows that date's sites.
     */
    method HandleDateClick(date: Moment, canSelect: bool)
      modifies this
      ensures selectedDate == if canSelect then Some(date) else old(selectedDate)
      ensures sitesForSelectedDate == SitesForDate(sites, date.day)
      ensures canSelect ==> InSync()
      ensures sites == old(sites) && currentMonth == old(currentMonth)
    {
      if canSelect {
        selectedDate := Some(date);
      }
      sitesForSelectedDate := SitesForDate(sites, date.day);
    }

    method GoToPreviousMonth()
      modifies this
      ensures currentMonth == PreviousMonth(old(currentMonth))
      ensures MonthIndex(currentMonth) == MonthIndex(old(currentMonth)) - 1
      ensures sites == old(sites) && selectedDate == old(selectedDate)
      ensures sitesForSelectedDate == old(sitesForSelectedDate)
    {
      currentMonth := PreviousMonth(currentMonth);
    }

    method GoToNextMonth()
      modifies this
      ensures currentMonth == NextMonth(old(currentMonth))
      ensures MonthIndex(currentMonth) == MonthIndex(old(currentMonth)) + 1
      ensures sites == old(sites) && selectedDate == old(selectedDate)
      ensures sitesForSelectedDate == old(sitesForSelectedDate)
    {
      currentMonth := NextMonth(currentMonth);
    }

    /** The month grid shown; `startingDay` is the weekday (0 = Sunday) of the month's first day. */
    method Days(startingDay: int) returns (days: seq<Cell>)
      requires 0 <= startingDay <= 6
      ensures |days| == GridSize
      ensures forall i :: 0 <= i < GridSize ==> days[i] == GridCell(currentMonth, startingDay, i)
    {
      days := DaysInMonth(currentMonth, startingDay);
    }
  }
}
