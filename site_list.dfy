/**
 * The site table: the initial month filter, the month picker's options, the
 * employee-name chips, and the pagination buttons.
 *
 * The current date is a parameter.
 */
module SiteList {
  import opened Wrappers
  import opened Text
  import opened Calendar
  import EmployeeList

  /** The initial `selectedMonth`: `${year}-${MM}` of the current month. */
  function InitialSelectedMonth(now: YearMonth): (key: string)
    ensures |key| == |IntToString(now.year)| + 3 && key[|key| - 3] == '-'
    ensures key[..|key| - 3] == IntToString(now.year)
    ensures key[|key| - 2..] == TwoDigits(now.month) && DigitsValue(TwoDigits(now.month)) == now.month
  {
    TwoDigitPad(now.month);
    MonthKey(now)
  }

  /** One `<option>`: the month key as value and `${year}年${month}月` as label. */
  datatype MonthOption = MonthOption(value: string, optionLabel: string)

  function OptionFor(ym: YearMonth): MonthOption {
    MonthOption(MonthKey(ym), MonthLabel(ym))
  }

  /** The `k`-th option: January of the previous year counts as 0. */
  function OptionMonth(currentYear: int, k: int): YearMonth {
    MonthAt(MonthIndex(YearMonth(currentYear - 1, 1)) + k)
  }

  lemma OptionMonthOf(currentYear: int, year: int, month: Month)
    ensures OptionMonth(currentYear, 12 * (year - (currentYear - 1)) + month - 1) == YearMonth(year, month)
  {
    MonthIndexInjective(OptionMonth(currentYear, 12 * (year - (currentYear - 1)) + month - 1), YearMonth(year, month));
  }

  /** The first `n` options, oldest first. */
  function OptionsUpTo(currentYear: int, n: nat): (r: seq<MonthOption>)
    ensures |r| == n
  {
    seq(n, k requires 0 <= k < n => OptionFor(OptionMonth(currentYear, k)))
  }

  /** One more option is the option for the next month appended. */
  lemma OptionsUpToSnoc(currentYear: int, n: nat)
    ensures OptionsUpTo(currentYear, n + 1) == OptionsUpTo(currentYear, n) + [OptionFor(OptionMonth(currentYear, n))]
  {
    var longer, shorter := OptionsUpTo(currentYear, n + 1), OptionsUpTo(currentYear, n) + [OptionFor(OptionMonth(currentYear, n))];
    forall k | 0 <= k <= n ensures longer[k] == shorter[k] {
      if k < n {
        assert shorter[k] == OptionsUpTo(currentYear, n)[k];
      }
    }
  }

  /** The nested loops over `year` and `month` that build the picker's options. */
  method MonthOptions(currentYear: int) returns (months: seq<MonthOption>)
    ensures months == OptionsUpTo(currentYear, 36)
  {
    months := [];
    var year := currentYear - 1;
    while year <= currentYear + 1
      invariant currentYear - 1 <= year <= currentYear + 2
      invariant months == OptionsUpTo(currentYear, 12 * (year - (currentYear - 1)))
    {
      var month := 1;
      while month <= 12
        invariant 1 <= month <= 13
        invariant months == OptionsUpTo(currentYear, 12 * (year - (currentYear - 1)) + month - 1)
      {
        var monthStr := IntToString(year) + "-" + TwoDigits(month);
        var monthLabel := IntToString(year) + "年" + IntToString(month) + "月";
        OptionsStep(currentYear, year, month);
        months := months + [MonthOption(monthStr, monthLabel)];
        month := month + 1;
      }
      year := year + 1;
    }
    assert year == currentYear + 2;
  }

  /** One pass of the inner loop appends the option for `year`-`month`. */
  lemma OptionsStep(currentYear: int, year: int, month: Month)
    requires 12 * (year - (currentYear - 1)) + month - 1 >= 0
    ensures var n := 12 * (year - (currentYear - 1)) + month - 1;
            OptionsUpTo(currentYear, n + 1)
            == OptionsUpTo(currentYear, n)
               + [MonthOption(IntToString(year) + "-" + TwoDigits(month), IntToString(year) + "年" + IntToString(month) + "月")]
  {
    OptionMonthOf(currentYear, year, month);
    OptionsUpToSnoc(currentYear, 12 * (year - (currentYear - 1)) + month - 1);
  }

  /**
   * The options run from January of the previous year to December of the next,
   * one month apart, and the current month's option is the one at
   * `12 + month - 1`, whose value is the initial filter.
   */
  lemma OptionsSpanThreeYears(currentYear: int, now: YearMonth)
    requires now.year == currentYear
    ensures OptionMonth(currentYear, 0) == YearMonth(currentYear - 1, 1)
    ensures OptionMonth(currentYear, 35) == YearMonth(currentYear + 1, 12)
    ensures forall k :: 0 <= k < 35 ==> OptionMonth(currentYear, k + 1) == NextMonth(OptionMonth(currentYear, k))
    ensures OptionFor(OptionMonth(currentYear, 11 + now.month)).value == InitialSelectedMonth(now)
  {
    MonthIndexInjective(OptionMonth(currentYear, 0), YearMonth(currentYear - 1, 1));
    MonthIndexInjective(OptionMonth(currentYear, 35), YearMonth(currentYear + 1, 12));
    MonthIndexInjective(OptionMonth(currentYear, 11 + now.month), now);
    forall k | 0 <= k < 35 ensures OptionMonth(currentYear, k + 1) == NextMonth(OptionMonth(currentYear, k)) {
      MonthIndexInjective(OptionMonth(currentYear, k + 1), NextMonth(OptionMonth(currentYear, k)));
    }
  }

  // ------------------------------------------------- option value order

  /** Years rendered with exactly four digits. */
  predicate FourDigitYear(y: int) {
    1000 <= y <= 9999
  }

  lemma FourDigitYearString(y: int)
    requires FourDigitYear(y)
    ensures |IntToString(y)| == 4 && AllDigits(IntToString(y)) && DigitsValue(IntToString(y)) == y
  {
    assert Pow10(3) == 1000 && Pow10(4) == 10000 by {
      assert Pow10(1) == 10 && Pow10(2) == 100;
    }
    NatToStringLength(y, 4);
    DigitsValueOfNatToString(y);
  }

  /** For four-digit years, the string order of month keys is the chronological order. */
  lemma MonthKeyOrder(a: YearMonth, b: YearMonth)
    requires FourDigitYear(a.year) && FourDigitYear(b.year)
    ensures LexLess(MonthKey(a), MonthKey(b)) <==> MonthIndex(a) < MonthIndex(b)
  {
    var ya, yb := IntToString(a.year), IntToString(b.year);
    var pa, pb := TwoDigits(a.month), TwoDigits(b.month);
    FourDigitYearString(a.year);
    FourDigitYearString(b.year);
    TwoDigitPad(a.month);
    TwoDigitPad(b.month);
    assert MonthKey(a) == ya + ("-" + pa);
    assert MonthKey(b) == yb + ("-" + pb);
    LexLessConcat(ya, "-" + pa, yb, "-" + pb);
    LexLessConcat("-", pa, "-", pb);
    LexLessDigits(ya, yb);
    LexLessDigits(pa, pb);
    IntToStringInjective(a.year, b.year);
    assert "-" + pa == "-" + pb <==> pa == pb by {
      if "-" + pa == "-" + pb {
        assert pa == ("-" + pa)[1..];
      }
    }
    assert !LexLess("-", "-") by {
      LexLessIrreflexive("-");
    }
  }

  lemma {:induction false} LexLessIrreflexive(s: string)
    ensures !LexLess(s, s)
  {
    if s != [] {
      LexLessIrreflexive(s[1..]);
    }
  }

  /**
   * With four-digit years around the current one, the option values strictly
   * ascend in string order, so they are distinct and sorting them by value
   * sorts them by date.
   */
  lemma OptionValuesAscend(currentYear: int, i: int, j: int)
    requires FourDigitYear(currentYear - 1) && FourDigitYear(currentYear + 1)
    requires 0 <= i < j < 36
    ensures LexLess(OptionFor(OptionMonth(currentYear, i)).value, OptionFor(OptionMonth(currentYear, j)).value)
    ensures OptionFor(OptionMonth(currentYear, i)).value != OptionFor(OptionMonth(currentYear, j)).value
  {
    var a, b := OptionMonth(currentYear, i), OptionMonth(currentYear, j);
    assert currentYear - 1 <= a.year <= currentYear + 1;
    assert currentYear - 1 <= b.year <= currentYear + 1;
    MonthKeyOrder(a, b);
    LexLessIrreflexive(MonthKey(a));
  }

  // -------------------------------------------------- employee-name chips

  /**
   * The chips of the "staff" cell: no chips (the "not set" text) when the
   * names are absent or empty, else the names split on `,` and trimmed.
   */
  function EmployeeNameChips(employeeNames: Option<string>): (chips: Option<seq<string>>)
    ensures employeeNames.None? || employeeNames.value == "" <==> chips.None?
    ensures chips.Some? ==> |chips.value| >= 1 && forall k :: 0 <= k < |chips.value| ==> ',' !in chips.value[k]
  {
    if employeeNames.None? || employeeNames.value == "" then None
    else
      var parts := Split(employeeNames.value, ',');
      var chips := TrimAll(parts);
      assert forall k :: 0 <= k < |chips| ==> ',' !in chips[k] by {
        forall k | 0 <= k < |chips| ensures ',' !in chips[k] {
          SplitPiecesLackSeparator(employeeNames.value, ',', k);
          TrimIsInfix(parts[k]);
        }
      }
      Some(chips)
  }

  /** Trimming only takes characters away from the ends. */
  lemma TrimIsInfix(s: string)
    ensures exists i, j :: 0 <= i <= j <= |s| && Trim(s) == s[i..j]
  {
    var t := TrimStart(s);
    var u := TrimEnd(t);
    TrimStartDropsBlankPrefix(s);
    TrimEndDropsBlankSuffix(t);
    assert u == s[|s| - |t|..][..|u|];
    assert u == s[|s| - |t|..|s| - |t| + |u|];
  }

  /**
   * The names the site form joins with `", "` come back as the same chips, as
   * long as no name holds a comma or surrounding white space and the joined
   * string is not empty.
   */
  lemma ChipsInvertFormJoin(names: seq<string>)
    requires |names| > 1 || (|names| == 1 && names[0] != "")
    requires forall k :: 0 <= k < |names| ==> ',' !in names[k] && IsTrimmed(names[k])
    ensures EmployeeNameChips(Some(Join(names, ", "))) == Some(names)
  {
    SplitTrimInvertsJoin(names);
    if |names| == 1 {
      assert Join(names, ", ") == names[0];
    } else {
      assert Join(names, ", ") != "" by {
        JoinLength(names);
      }
    }
  }

  lemma JoinLength(names: seq<string>)
    requires |names| > 1
    ensures |Join(names, ", ")| >= 2
  {
  }

  // --------------------------------------------------------- pagination

  /** "Previous" is disabled at `page === 1`. */
  predicate PreviousDisabled(page: int) {
    page == 1
  }

  /** "Next" is disabled at `page === totalPages`. */
  predicate NextDisabled(page: int, totalPages: int) {
    page == totalPages
  }

  /** On existing pages the site table's buttons behave like the employee table's. */
  lemma SameButtonsAsEmployeeList(page: int, totalPages: int)
    requires 1 <= page <= totalPages
    ensures PreviousDisabled(page) <==> EmployeeList.PreviousDisabled(page)
    ensures NextDisabled(page, totalPages) <==> EmployeeList.NextDisabled(page, totalPages)
  {
  }

  /** Outside the existing pages the strict comparisons leave a button enabled that the employee table disables. */
  lemma StrictButtonsDifferOffRange()
    ensures !PreviousDisabled(0) && EmployeeList.PreviousDisabled(0)
    ensures !NextDisabled(3, 2) && EmployeeList.NextDisabled(3, 2)
  {
  }
}
