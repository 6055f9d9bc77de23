/**
 * The employee table: the age column and the pagination bar.
 *
 * Today's date is a parameter; parsing the stored birth date string is not
 * modelled, the birth date is a calendar day.
 */
module EmployeeList {
  import opened Calendar

  /**
   * `calculateAge`: the difference of the years, less one when today's month
   * and day come before the birth month and day.
   */
  function CalculateAge(birth: Day, today: Day): (age: int)
    ensures age == today.year - birth.year || age == today.year - birth.year - 1
    ensures age == today.year - birth.year - 1
            <==> today.month < birth.month || (today.month == birth.month && today.day < birth.day)
  {
    var age := today.year - birth.year;
    var monthDiff := today.month - birth.month;
    if monthDiff < 0 || (monthDiff == 0 && today.day < birth.day) then age - 1 else age
  }

  /** The `n`-th birthday, as a (year, month, day) triple. */
  function Anniversary(birth: Day, n: int): Day {
    Day(birth.year + n, birth.month, birth.day)
  }

  /** The age is the number of birthdays reached: the `age`-th has come and the next has not. */
  lemma AgeCountsBirthdays(birth: Day, today: Day)
    ensures var age := CalculateAge(birth, today);
            DayLe(Anniversary(birth, age), today) && !DayLe(Anniversary(birth, age + 1), today)
  {
  }

  /** Only one number of years fits between two consecutive birthdays around today. */
  lemma AgeIsUnique(birth: Day, today: Day, n: int)
    requires DayLe(Anniversary(birth, n), today) && !DayLe(Anniversary(birth, n + 1), today)
    ensures CalculateAge(birth, today) == n
  {
    AgeCountsBirthdays(birth, today);
    var age := CalculateAge(birth, today);
    if n < age {
      AnniversariesAscend(birth, n + 1, age, today);
    } else if n > age {
      AnniversariesAscend(birth, age + 1, n, today);
    }
  }

  /** A later birthday that has come means every earlier one has too. */
  lemma AnniversariesAscend(birth: Day, m: int, n: int, today: Day)
    requires m <= n && DayLe(Anniversary(birth, n), today)
    ensures DayLe(Anniversary(birth, m), today)
  {
  }

  /** On the `n`-th birthday the age is exactly `n`. */
  lemma AgeOnBirthday(birth: Day, n: int)
    ensures CalculateAge(birth, Anniversary(birth, n)) == n
  {
  }

  /** Born no later than today means an age of at least 0. */
  lemma AgeNonNegative(birth: Day, today: Day)
    requires DayLe(birth, today)
    ensures CalculateAge(birth, today) >= 0
  {
  }

  /** The age never goes down as today advances. */
  lemma AgeMonotone(birth: Day, today: Day, later: Day)
    requires DayLe(today, later)
    ensures CalculateAge(birth, today) <= CalculateAge(birth, later)
  {
    AgeCountsBirthdays(birth, today);
    AgeCountsBirthdays(birth, later);
    var a, b := CalculateAge(birth, today), CalculateAge(birth, later);
    if b < a {
      AnniversariesAscend(birth, b + 1, a, today);
    }
  }

  // --------------------------------------------------------- pagination

  /** The number shown as the first row of the page: `(page - 1) * limit + 1`. */
  function RangeStart(page: int, limit: int): int {
    (page - 1) * limit + 1
  }

  /** The number shown as the last row of the page: `Math.min(page * limit, total)`. */
  function RangeEnd(page: int, limit: int, total: int): int {
    if page * limit < total then page * limit else total
  }

  /** `Math.ceil(total / limit)`, as the list routes compute `totalPages`. */
  function TotalPages(total: nat, limit: int): int
    requires limit >= 1
  {
    (total + limit - 1) / limit
  }

  /** The shown range never passes the total and never spans more than one page. */
  lemma RangeBounds(page: int, limit: int, total: int)
    requires page >= 1 && limit >= 1
    ensures RangeEnd(page, limit, total) <= total
    ensures RangeEnd(page, limit, total) - RangeStart(page, limit) + 1 <= limit
    ensures RangeStart(page, limit) >= 1
  {
    assert (page - 1) * limit >= 0;
  }

  /** On any existing page of a non-empty list the range is non-empty. */
  lemma RangeNonEmpty(page: int, limit: int, total: nat)
    requires limit >= 1 && total >= 1 && 1 <= page <= TotalPages(total, limit)
    ensures RangeStart(page, limit) <= RangeEnd(page, limit, total)
  {
    var q := TotalPages(total, limit);
    assert q * limit <= total + limit - 1;
    assert (page - 1) * limit <= (q - 1) * limit by {
      MultiplyMonotone(page - 1, q - 1, limit);
    }
  }

  lemma MultiplyMonotone(a: int, b: int, c: int)
    requires a <= b && c >= 0
    ensures a * c <= b * c
  {
    assert b * c - a * c == (b - a) * c;
  }

  /** The bar appears only with more than one page. */
  predicate ShowsPagination(totalPages: int) {
    totalPages > 1
  }

  /** "Previous" is disabled at `page <= 1`. */
  predicate PreviousDisabled(page: int) {
    page <= 1
  }

  /** "Next" is disabled at `page >= totalPages`. */
  predicate NextDisabled(page: int, totalPages: int) {
    page >= totalPages
  }

  /** From any existing page, an enabled button leads to an existing page. */
  lemma ButtonsStayInRange(page: int, totalPages: int)
    requires 1 <= page <= totalPages
    ensures !PreviousDisabled(page) ==> 1 <= page - 1 <= totalPages
    ensures !NextDisabled(page, totalPages) ==> 1 <= page + 1 <= totalPages
    ensures ShowsPagination(totalPages) ==> !PreviousDisabled(page) || !NextDisabled(page, totalPages)
  {
  }
}
