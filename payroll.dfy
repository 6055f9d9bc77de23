/**
 * The payroll unit-pay engine behind `POST /api/payroll/calculate`: the request
 * guards, the resolver that turns a site's pay-condition payCondition and the
 * employee's base unit pay into the pay for one assignment, the loop that sums
 * those pays, the per-assignment detail list, and the response record.
 *
 * The database reads become inputs: the employee table, the site-date table
 * (each row with its site and the ids of the employees assigned to it), and the
 * date parser applied to the request's date strings.
 */
module Payroll {
  import opened Wrappers
  import opened Calendar
  import Text

  datatype Employee = Employee(id: string, name: string, unitPay: Option<int>, hourlyOvertimePay: Option<int>)

  datatype Site = Site(id: string, name: string, unitPayCondition: Option<string>)

  /** A site-date row, its site, and the employees assigned to it. */
  datatype SiteDate = SiteDate(id: string, date: Day, site: Site, assignedEmployeeIds: seq<string>)

  /** The JSON body; an absent field is `None`. */
  datatype Request = Request(employeeId: Option<string>, startDate: Option<string>, endDate: Option<string>)

  datatype AssignmentDetail = AssignmentDetail(date: Day, siteName: string, unitPayCondition: string, effectiveUnitPay: int)

  datatype Calculation = Calculation(
    employeeId: string,
    employeeName: string,
    unitPay: int,
    hourlyOvertimePay: int,
    totalAssignments: int,
    baseSalary: int,
    overtimeHours: int,
    overtimePay: int,
    totalSalary: int,
    assignmentDetails: seq<AssignmentDetail>)

  datatype PayrollError = MissingParameter | EmployeeNotFound | UnitPayNotSet | CalculationFailed

  function Status(e: PayrollError): int {
    match e
    case MissingParameter => 400
    case EmployeeNotFound => 404
    case UnitPayNotSet => 400
    case CalculationFailed => 500
  }

  function Message(e: PayrollError): string {
    match e
    case MissingParameter => "従業員ID、開始日、終了日は必須です"
    case EmployeeNotFound => "従業員が見つかりません"
    case UnitPayNotSet => "従業員の単価が設定されていません"
    case CalculationFailed => "給与計算に失敗しました"
  }

  // ------------------------------------------------------------ guards

  /** `!s` for a string field: absent or empty. */
  predicate IsFalsyString(s: Option<string>) {
    s.None? || s.value == ""
  }

  /** `!n` for a nullable number: null or zero. */
  predicate IsFalsyNumber(n: Option<int>) {
    n.None? || n.value == 0
  }

  /** `n || 0` for a nullable number. */
  function OrZero(n: Option<int>): int {
    n.GetOr(0)
  }

  predicate MissingParameters(request: Request) {
    IsFalsyString(request.employeeId) || IsFalsyString(request.startDate) || IsFalsyString(request.endDate)
  }

  /** `findUnique` by id. */
  function FindEmployee(employees: seq<Employee>, id: string): (r: Option<Employee>)
    ensures r.Some? ==> r.value in employees && r.value.id == id
    ensures r.None? ==> forall e :: e in employees ==> e.id != id
  {
    if employees == [] then None
    else if employees[0].id == id then Some(employees[0])
    else FindEmployee(employees[1..], id)
  }

  // ---------------------------------------------------------- resolver

  const KnownLabels: set<string> := {"normal", "half", "6000", "5000", "3000"}

  /** The payCondition the switch is applied to: the site's own, or "normal" when null or empty. */
  function ConditionLabel(condition: Option<string>): (payCondition: string)
    ensures payCondition != ""
  {
    if condition.Some? && condition.value != "" then condition.value else "normal"
  }

  /**
   * The payCondition-to-pay table: "half" pays half the unit pay rounded down, the
   * three numeric labels pay that fixed amount, and "normal" and every other
   * payCondition pay the unit pay.
   */
  function ResolvePay(unitPay: int, payCondition: string): (pay: int)
    ensures unitPay >= 0 ==> pay >= 0
  {
    if payCondition == "normal" then unitPay
    else if payCondition == "half" then unitPay / 2
    else if payCondition == "6000" then 6000
    else if payCondition == "5000" then 5000
    else if payCondition == "3000" then 3000
    else unitPay
  }

  /** "half" is the floor of half the unit pay, for odd and negative amounts too. */
  lemma HalfIsFloor(unitPay: int)
    ensures 2 * ResolvePay(unitPay, "half") <= unitPay < 2 * ResolvePay(unitPay, "half") + 2
  {
  }

  /** A numeric label pays the amount it spells, whatever the unit pay. */
  lemma FixedLabelsPayTheirAmount(unitPay: int, payCondition: string)
    requires payCondition in {"6000", "5000", "3000"}
    ensures Text.AllDigits(payCondition) && ResolvePay(unitPay, payCondition) == Text.DigitsValue(payCondition)
  {
    var s := payCondition;
    var d := Text.DigitValue(s[0]);
    assert [s[0]][..0] == [];
    assert Text.DigitsValue([s[0]]) == d;
    assert [s[0], '0'][..1] == [s[0]];
    assert Text.DigitsValue([s[0], '0']) == 10 * d;
    assert [s[0], '0', '0'][..2] == [s[0], '0'];
    assert Text.DigitsValue([s[0], '0', '0']) == 100 * d;
    assert s[..3] == [s[0], '0', '0'];
    assert Text.DigitsValue(s) == 1000 * d;
  }

  /** A null, empty or unrecognised label pays exactly what "normal" pays. */
  lemma UnrecognisedLabelPaysNormal(unitPay: int, condition: Option<string>)
    requires condition.None? || condition.value !in {"half", "6000", "5000", "3000"}
    ensures ResolvePay(unitPay, ConditionLabel(condition)) == ResolvePay(unitPay, "normal") == unitPay
  {
  }

  // --------------------------------------------------------- aggregator

  predicate OnOrBetween(d: Day, startDate: Day, endDate: Day) {
    DayLe(startDate, d) && DayLe(d, endDate)
  }

  /** The `findMany` filter: dated within the range, both ends included, and assigned to the employee. */
  predicate IsAssignedInRange(sd: SiteDate, employeeId: string, startDate: Day, endDate: Day) {
    OnOrBetween(sd.date, startDate, endDate) && employeeId in sd.assignedEmployeeIds
  }

  /** The site-dates `findMany` returns, in table order. */
  function AssignedSiteDates(table: seq<SiteDate>, employeeId: string, startDate: Day, endDate: Day): (r: seq<SiteDate>)
    ensures |r| <= |table|
    ensures forall sd :: sd in r <==> sd in table && IsAssignedInRange(sd, employeeId, startDate, endDate)
  {
    if table == [] then []
    else
      var rest := AssignedSiteDates(table[1..], employeeId, startDate, endDate);
      if IsAssignedInRange(table[0], employeeId, startDate, endDate) then [table[0]] + rest else rest
  }

  /** One detail row: the map callback of the detail list. */
  function DetailFor(siteDate: SiteDate, unitPay: int): AssignmentDetail {
    var payCondition := ConditionLabel(siteDate.site.unitPayCondition);
    AssignmentDetail(siteDate.date, siteDate.site.name, payCondition, ResolvePay(unitPay, payCondition))
  }

  /** `assignmentDetails`: one row per site-date, in fetch order. */
  function AssignmentDetails(siteDates: seq<SiteDate>, unitPay: int): (details: seq<AssignmentDetail>)
    ensures |details| == |siteDates|
    ensures forall i :: 0 <= i < |siteDates| ==>
              && details[i].date == siteDates[i].date
              && details[i].siteName == siteDates[i].site.name
              && details[i].unitPayCondition == ConditionLabel(siteDates[i].site.unitPayCondition)
              && details[i].effectiveUnitPay == ResolvePay(unitPay, details[i].unitPayCondition)
  {
    seq(|siteDates|, i requires 0 <= i < |siteDates| => DetailFor(siteDates[i], unitPay))
  }

  lemma AssignmentDetailsExtend(siteDates: seq<SiteDate>, k: nat, unitPay: int)
    requires k < |siteDates|
    ensures AssignmentDetails(siteDates[..k + 1], unitPay)
         == AssignmentDetails(siteDates[..k], unitPay) + [DetailFor(siteDates[k], unitPay)]
  {
    var longer := AssignmentDetails(siteDates[..k + 1], unitPay);
    var shorter := AssignmentDetails(siteDates[..k], unitPay) + [DetailFor(siteDates[k], unitPay)];
    assert |longer| == |shorter|;
    forall i | 0 <= i <= k ensures longer[i] == shorter[i] {
      assert siteDates[..k + 1][i] == siteDates[i];
    }
  }

  /** The sum of the detail rows' pays. */
  function TotalPay(details: seq<AssignmentDetail>): int {
    if details == [] then 0 else details[0].effectiveUnitPay + TotalPay(details[1..])
  }

  lemma {:induction false} TotalPayAppend(details: seq<AssignmentDetail>, d: AssignmentDetail)
    ensures TotalPay(details + [d]) == TotalPay(details) + d.effectiveUnitPay
  {
    if details != [] {
      assert (details + [d])[1..] == details[1..] + [d];
      TotalPayAppend(details[1..], d);
    }
  }

  /** With a non-negative unit pay, every detail and the total are non-negative. */
  lemma {:induction false} TotalPayNonNegative(siteDates: seq<SiteDate>, unitPay: int)
    requires unitPay >= 0
    ensures TotalPay(AssignmentDetails(siteDates, unitPay)) >= 0
  {
    if siteDates != [] {
      var details := AssignmentDetails(siteDates, unitPay);
      assert details[1..] == AssignmentDetails(siteDates[1..], unitPay);
      TotalPayNonNegative(siteDates[1..], unitPay);
    }
  }

  /**
   * The salary loop. It carries its own copy of the payCondition switch; its result
   * is the sum of the pays in the detail list built from the same site-dates.
   */
  method AccumulateSalary(siteDates: seq<SiteDate>, unitPay: Option<int>) returns (calculatedSalary: int)
    ensures calculatedSalary == TotalPay(AssignmentDetails(siteDates, OrZero(unitPay)))
  {
    calculatedSalary := 0;
    for k := 0 to |siteDates|
      invariant calculatedSalary == TotalPay(AssignmentDetails(siteDates[..k], OrZero(unitPay)))
    {
      var siteDate := siteDates[k];
      var effectiveUnitPay := OrZero(unitPay);
      var unitPayCondition :=
        if siteDate.site.unitPayCondition.Some? && siteDate.site.unitPayCondition.value != ""
        then siteDate.site.unitPayCondition.value
        else "normal";
      if unitPayCondition == "normal" {
        effectiveUnitPay := OrZero(unitPay);
      } else if unitPayCondition == "half" {
        effectiveUnitPay := OrZero(unitPay) / 2;
      } else if unitPayCondition == "6000" {
        effectiveUnitPay := 6000;
      } else if unitPayCondition == "5000" {
        effectiveUnitPay := 5000;
      } else if unitPayCondition == "3000" {
        effectiveUnitPay := 3000;
      } else {
        effectiveUnitPay := OrZero(unitPay);
      }
      assert effectiveUnitPay == DetailFor(siteDate, OrZero(unitPay)).effectiveUnitPay;
      AssignmentDetailsExtend(siteDates, k, OrZero(unitPay));
      TotalPayAppend(AssignmentDetails(siteDates[..k], OrZero(unitPay)), DetailFor(siteDate, OrZero(unitPay)));
      calculatedSalary := calculatedSalary + effectiveUnitPay;
    }
    assert siteDates[..|siteDates|] == siteDates;
  }

  // ----------------------------------------------------- report builder

  /** The response record, from the employee, the fetched site-dates and the loop's total. */
  function BuildReport(employee: Employee, siteDates: seq<SiteDate>, baseSalary: int): Calculation {
    Calculation(
      employee.id,
      employee.name,
      OrZero(employee.unitPay),
      OrZero(employee.hourlyOvertimePay),
      |siteDates|,
      baseSalary,
      0,
      0,
      baseSalary,
      AssignmentDetails(siteDates, OrZero(employee.unitPay)))
  }

  // ------------------------------------------------------------ handler

  /** Every guard passes and both dates parse. */
  predicate Admits(request: Request, employees: seq<Employee>, parseDate: string -> Option<Day>) {
    && !MissingParameters(request)
    && FindEmployee(employees, request.employeeId.value).Some?
    && !IsFalsyNumber(FindEmployee(employees, request.employeeId.value).value.unitPay)
    && parseDate(request.startDate.value).Some?
    && parseDate(request.endDate.value).Some?
  }

  /**
   * `POST /api/payroll/calculate`. The guards run in order (missing field 400,
   * unknown employee 404, unset or zero unit pay 400, then a date the store
   * cannot compare 500); on success the report's total is the sum of its detail
   * rows and its count is the number of rows.
   */
  method Calculate(request: Request, employees: seq<Employee>, siteDateTable: seq<SiteDate>, parseDate: string -> Option<Day>)
    returns (response: Result<Calculation, PayrollError>)
    ensures MissingParameters(request) <==> response == Failure(MissingParameter)
    ensures !MissingParameters(request) ==>
              (FindEmployee(employees, request.employeeId.value).None? <==> response == Failure(EmployeeNotFound))
    ensures !MissingParameters(request) && FindEmployee(employees, request.employeeId.value).Some? ==>
              (IsFalsyNumber(FindEmployee(employees, request.employeeId.value).value.unitPay)
               <==> response == Failure(UnitPayNotSet))
    ensures response.Success? <==> Admits(request, employees, parseDate)
    ensures response.Success? ==>
              var employee := FindEmployee(employees, request.employeeId.value).value;
              var siteDates := AssignedSiteDates(siteDateTable, request.employeeId.value,
                                                 parseDate(request.startDate.value).value,
                                                 parseDate(request.endDate.value).value);
              && response.value == BuildReport(employee, siteDates, response.value.baseSalary)
              && response.value.baseSalary == TotalPay(response.value.assignmentDetails)
  {
    if IsFalsyString(request.employeeId) || IsFalsyString(request.startDate) || IsFalsyString(request.endDate) {
      return Failure(MissingParameter);
    }
    var employeeId := request.employeeId.value;
    var found := FindEmployee(employees, employeeId);
    if found.None? {
      return Failure(EmployeeNotFound);
    }
    var employee := found.value;
    if IsFalsyNumber(employee.unitPay) {
      return Failure(UnitPayNotSet);
    }
    var startDate := parseDate(request.startDate.value);
    var endDate := parseDate(request.endDate.value);
    if startDate.None? || endDate.None? {
      return Failure(CalculationFailed);
    }
    var siteDates := AssignedSiteDates(siteDateTable, employeeId, startDate.value, endDate.value);
    var baseSalary := AccumulateSalary(siteDates, employee.unitPay);
    response := Success(BuildReport(employee, siteDates, baseSalary));
  }

  /**
   * What the report promises: one row per fetched site-date in fetch order, the
   * count equal to the number of rows, the base salary equal to the rows' sum,
   * no overtime, and a total salary equal to the base salary.
   */
  lemma ReportIsConsistent(employee: Employee, siteDates: seq<SiteDate>)
    ensures var c := BuildReport(employee, siteDates, TotalPay(AssignmentDetails(siteDates, OrZero(employee.unitPay))));
            && c.totalAssignments == |siteDates| == |c.assignmentDetails|
            && c.baseSalary == TotalPay(c.assignmentDetails)
            && c.overtimeHours == 0 && c.overtimePay == 0
            && c.totalSalary == c.baseSalary
            && (employee.hourlyOvertimePay.None? ==> c.hourlyOvertimePay == 0)
            && (forall i :: 0 <= i < |siteDates| ==> c.assignmentDetails[i] == DetailFor(siteDates[i], c.unitPay))
  {
  }

  /** A range with no assigned site-date gives zero assignments, zero pay and no rows. */
  lemma EmptyRangeReport(employee: Employee, table: seq<SiteDate>, startDate: Day, endDate: Day)
    requires forall sd :: sd in table ==> !IsAssignedInRange(sd, employee.id, startDate, endDate)
    ensures var siteDates := AssignedSiteDates(table, employee.id, startDate, endDate);
            var c := BuildReport(employee, siteDates, TotalPay(AssignmentDetails(siteDates, OrZero(employee.unitPay))));
            c.totalAssignments == 0 && c.baseSalary == 0 && c.totalSalary == 0 && c.assignmentDetails == []
  {
    NothingAssignedInRange(table, employee.id, startDate, endDate);
  }

  lemma {:induction false} NothingAssignedInRange(table: seq<SiteDate>, employeeId: string, startDate: Day, endDate: Day)
    requires forall sd :: sd in table ==> !IsAssignedInRange(sd, employeeId, startDate, endDate)
    ensures AssignedSiteDates(table, employeeId, startDate, endDate) == []
  {
    if table != [] {
      assert table[0] in table;
      NothingAssignedInRange(table[1..], employeeId, startDate, endDate);
    }
  }
}
