/**
 * `employeeSchema`: the employee form's field rules, the birth-date age rule
 * and the blood-pressure format with its normalisation.
 *
 * Parsing the birth-date string is the parameter `parseDate` (`None` is an
 * invalid date, whose year is `NaN`); the current year is a parameter.
 */
module EmployeeSchema {
  import opened Wrappers
  import opened Text
  import opened Calendar
  import opened Pattern
  import EmployeeList

  datatype EmployeeInput = EmployeeInput(
    name: string, phone: string, birthdate: string,
    emergencyContactPerson: Option<string>, emergencyContactPhone: Option<string>,
    address: Option<string>, postalCode: Option<string>, bloodType: Option<string>,
    bloodPressure: Option<string>, unitpay: int, hourlyovertimePay: int, notes: Option<string>)

  /** The parsed form: the birth date as a day, the blood pressure normalised. */
  datatype EmployeeOutput = EmployeeOutput(
    name: string, phone: string, birthdate: Day,
    emergencyContactPerson: Option<string>, emergencyContactPhone: Option<string>,
    address: Option<string>, postalCode: Option<string>, bloodType: Option<string>,
    bloodPressure: Option<string>, unitpay: int, hourlyovertimePay: int, notes: Option<string>)

  const MinimumAge := 16

  /** The birth-date refinement: the difference of the years alone must reach 16. */
  predicate BirthdateAccepted(birth: Option<Day>, currentYear: int) {
    birth.Some? && currentYear - birth.value.year >= MinimumAge
  }

  /** The blood-pressure refinement: absent, empty, or `NN(N)/NN(N)`. */
  predicate BloodPressureAccepted(v: Option<string>) {
    v.None? || v.value == "" || Matches(BloodPressure, v.value)
  }

  /**
   * The blood-pressure transform: absent or empty becomes absent; otherwise
   * two `/`-separated parts that both parse become `${parseInt(a)}/${parseInt(b)}`.
   */
  function NormalizeBloodPressure(v: Option<string>): Option<string> {
    if v.None? || v.value == "" then None
    else
      var parts := Split(v.value, '/');
      if |parts| == 2 then
        var systolic, diastolic := ParseInt(parts[0]), ParseInt(parts[1]);
        if systolic.Some? && diastolic.Some? then
          Some(NatToString(systolic.value) + "/" + NatToString(diastolic.value))
        else None
      else None
  }

  /** The fields that fail their rule, in the schema's order. */
  function Issues(input: EmployeeInput, parseDate: string -> Option<Day>, currentYear: int): (fields: seq<string>)
    ensures fields == [] <==>
              && input.name != "" && input.phone != ""
              && BirthdateAccepted(parseDate(input.birthdate), currentYear)
              && BloodPressureAccepted(input.bloodPressure)
              && input.unitpay >= 0 && input.hourlyovertimePay >= 0
  {
    (if input.name == "" then ["name"] else [])
    + (if input.phone == "" then ["phone"] else [])
    + (if !BirthdateAccepted(parseDate(input.birthdate), currentYear) then ["birthdate"] else [])
    + (if !BloodPressureAccepted(input.bloodPressure) then ["blood_pressure"] else [])
    + (if input.unitpay < 0 then ["unitpay"] else [])
    + (if input.hourlyovertimePay < 0 then ["hourlyovertimePay"] else [])
  }

  /** `employeeSchema.safeParse`: the parsed form, or the failing fields. */
  function Validate(input: EmployeeInput, parseDate: string -> Option<Day>, currentYear: int)
    : (r: Result<EmployeeOutput, seq<string>>)
    ensures r.Failure? <==> Issues(input, parseDate, currentYear) != []
    ensures r.Failure? ==> r.error == Issues(input, parseDate, currentYear)
    ensures r.Success? ==>
              && r.value.birthdate == parseDate(input.birthdate).value
              && r.value.bloodPressure == NormalizeBloodPressure(input.bloodPressure)
              && r.value.name == input.name && r.value.phone == input.phone
              && r.value.unitpay == input.unitpay && r.value.hourlyovertimePay == input.hourlyovertimePay
              && r.value.emergencyContactPerson == input.emergencyContactPerson
              && r.value.emergencyContactPhone == input.emergencyContactPhone
              && r.value.address == input.address && r.value.postalCode == input.postalCode
              && r.value.bloodType == input.bloodType && r.value.notes == input.notes
  {
    var issues := Issues(input, parseDate, currentYear);
    if issues != [] then Failure(issues)
    else Success(EmployeeOutput(
      input.name, input.phone, parseDate(input.birthdate).value,
      input.emergencyContactPerson, input.emergencyContactPhone, input.address, input.postalCode,
      input.bloodType, NormalizeBloodPressure(input.bloodPressure),
      input.unitpay, input.hourlyovertimePay, input.notes))
  }

  /** The optional text fields never decide acceptance. */
  lemma OptionalFieldsUnconstrained(input: EmployeeInput, parseDate: string -> Option<Day>, currentYear: int,
                                    a: Option<string>, b: Option<string>, c: Option<string>,
                                    d: Option<string>, e: Option<string>, f: Option<string>)
    ensures Issues(input.(emergencyContactPerson := a, emergencyContactPhone := b, address := c,
                          postalCode := d, bloodType := e, notes := f), parseDate, currentYear)
         == Issues(input, parseDate, currentYear)
  {
  }

  // ------------------------------------------------------ birth date vs. age

  /**
   * The year-only rule against the age the employee table shows: an accepted
   * birth date may still give an age of 15 (birthday not yet reached this year),
   * and an age of 16 or more is always accepted.
   */
  lemma BirthdateRuleVersusAge(birth: Day, today: Day)
    ensures BirthdateAccepted(Some(birth), today.year) ==> EmployeeList.CalculateAge(birth, today) >= MinimumAge - 1
    ensures EmployeeList.CalculateAge(birth, today) >= MinimumAge ==> BirthdateAccepted(Some(birth), today.year)
  {
  }

  /** The year-only rule accepts someone whose sixteenth birthday is still to come this year. */
  lemma YearOnlyRuleAcceptsFifteen()
    ensures var birth, today := Day(2009, 12, 31), Day(2025, 1, 1);
            BirthdateAccepted(Some(birth), today.year) && EmployeeList.CalculateAge(birth, today) == 15
  {
  }

  // ------------------------------------------------------ blood pressure

  /** An absent or empty blood pressure is accepted and comes out absent. */
  lemma EmptyBloodPressure(v: Option<string>)
    requires v.None? || v.value == ""
    ensures BloodPressureAccepted(v) && NormalizeBloodPressure(v) == None
  {
  }

  lemma DigitsHaveNoSlash(t: string)
    requires AllDigits(t)
    ensures '/' !in t
  {
    forall j | 0 <= j < |t| ensures t[j] != '/' {
      assert IsDigit(t[j]);
    }
  }

  lemma SplitAtSlash(s: string, i: int)
    requires 0 <= i < |s| && s[i] == '/' && AllDigits(s[..i]) && AllDigits(s[i + 1..])
    ensures Split(s, '/') == [s[..i], s[i + 1..]]
  {
    DigitsHaveNoSlash(s[..i]);
    DigitsHaveNoSlash(s[i + 1..]);
    assert s == s[..i] + ['/'] + s[i + 1..];
    SplitAtFirst(s[..i], s[i + 1..], '/');
    SplitWithoutSeparator(s[i + 1..], '/');
  }

  /** Two digit runs around a `/` come out as their values. */
  lemma NormalizeDigitRuns(s: string, i: int)
    requires 0 < i < |s| - 1 && s[i] == '/' && AllDigits(s[..i]) && AllDigits(s[i + 1..])
    ensures NormalizeBloodPressure(Some(s))
            == Some(NatToString(DigitsValue(s[..i])) + "/" + NatToString(DigitsValue(s[i + 1..])))
  {
    SplitAtSlash(s, i);
  }

  /** Runs without a leading zero come back unchanged. */
  lemma NormalizeKeepsPlainRuns(s: string, i: int)
    requires 0 < i < |s| - 1 && s[i] == '/' && AllDigits(s[..i]) && AllDigits(s[i + 1..])
    requires s[0] != '0' && s[i + 1] != '0'
    ensures NormalizeBloodPressure(Some(s)) == Some(s)
  {
    NormalizeDigitRuns(s, i);
    var a, b := s[..i], s[i + 1..];
    assert a[0] == s[0] && b[0] == s[i + 1];
    NatToStringOfDigits(a);
    NatToStringOfDigits(b);
    assert s == a + "/" + b;
  }

  /**
   * An accepted non-empty reading is two digit runs around a `/`; it comes out
   * as the runs' values with leading zeros dropped, and unchanged when neither
   * run starts with a zero.
   */
  lemma NormalizedBloodPressure(s: string)
    requires s != "" && Matches(BloodPressure, s)
    ensures exists i :: 2 <= i <= 3 && i < |s| - 2 && s[i] == '/' && AllDigits(s[..i]) && AllDigits(s[i + 1..])
              && NormalizeBloodPressure(Some(s))
                 == Some(NatToString(DigitsValue(s[..i])) + "/" + NatToString(DigitsValue(s[i + 1..])))
              && (s[0] != '0' && s[i + 1] != '0' ==> NormalizeBloodPressure(Some(s)) == Some(s))
  {
    BloodPressureShape(s);
    var i :| 2 <= i <= 3 && i < |s| && s[i] == '/' && AllDigits(s[..i])
             && 2 <= |s| - i - 1 <= 3 && AllDigits(s[i + 1..]);
    NormalizeDigitRuns(s, i);
    if s[0] != '0' && s[i + 1] != '0' {
      NormalizeKeepsPlainRuns(s, i);
    }
  }
}
