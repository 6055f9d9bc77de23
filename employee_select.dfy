/**
 * The employee picker: a search box that suggests employees by name, a list of
 * chosen employees without repeats, and chips to remove them.
 *
 * Case folding (`toLowerCase`) is the parameter `lower`; the employee fetch is
 * the initial `employees` list.
 */
module EmployeeSelect {
  import opened Text

  datatype Employee = Employee(id: string, name: string, phone: string, unitPay: int, hourlyOvertimePay: int)

  datatype SelectedEmployee = SelectedEmployee(id: string, name: string, unitPay: int, hourlyOvertimePay: int)

  /** `value.some(selected => selected.id === id)`. */
  predicate IsSelected(value: seq<SelectedEmployee>, id: string) {
    exists i :: 0 <= i < |value| && value[i].id == id
  }

  predicate DistinctIds(value: seq<SelectedEmployee>) {
    forall i, j :: 0 <= i < j < |value| ==> value[i].id != value[j].id
  }

  /** The picker's copy of an employee: everything but the phone number. */
  function ToSelected(e: Employee): (s: SelectedEmployee)
    ensures s.id == e.id && s.name == e.name && s.unitPay == e.unitPay && s.hourlyOvertimePay == e.hourlyOvertimePay
  {
    SelectedEmployee(e.id, e.name, e.unitPay, e.hourlyOvertimePay)
  }

  /** The new `value` after `handleSelectEmployee(e)`: unchanged if `e` is already chosen, else `e` appended. */
  function SelectEmployee(value: seq<SelectedEmployee>, e: Employee): (r: seq<SelectedEmployee>)
    ensures IsSelected(value, e.id) ==> r == value
    ensures !IsSelected(value, e.id) ==> |r| == |value| + 1 && r[..|value|] == value && r[|value|] == ToSelected(e)
    ensures IsSelected(r, e.id)
    ensures DistinctIds(value) ==> DistinctIds(r)
  {
    if IsSelected(value, e.id) then value
    else
      var r := value + [ToSelected(e)];
      assert r[|value|].id == e.id;
      assert DistinctIds(value) ==> DistinctIds(r) by {
        if DistinctIds(value) {
          forall i, j | 0 <= i < j < |r| ensures r[i].id != r[j].id {
            assert r[i] == value[i];
          }
        }
      }
      r
  }

  /** The new `value` after `handleRemoveEmployee(id)`: every entry with that id dropped. */
  function RemoveEmployee(value: seq<SelectedEmployee>, id: string): (r: seq<SelectedEmployee>)
    ensures |r| <= |value|
    ensures forall s :: s in r <==> s in value && s.id != id
  {
    if value == [] then []
    else
      var rest := RemoveEmployee(value[1..], id);
      if value[0].id != id then [value[0]] + rest else rest
  }

  lemma RemoveEmployeeDropsId(value: seq<SelectedEmployee>, id: string)
    ensures !IsSelected(RemoveEmployee(value, id), id)
  {
    var r := RemoveEmployee(value, id);
    forall i | 0 <= i < |r| ensures r[i].id != id {
      assert r[i] in r;
    }
  }

  /** Removal distributes over concatenation, so the kept entries keep their order. */
  lemma {:induction false} RemoveEmployeeAppend(a: seq<SelectedEmployee>, b: seq<SelectedEmployee>, id: string)
    ensures RemoveEmployee(a + b, id) == RemoveEmployee(a, id) + RemoveEmployee(b, id)
  {
    if a != [] {
      assert (a + b)[1..] == a[1..] + b;
      RemoveEmployeeAppend(a[1..], b, id);
    } else {
      assert a + b == b;
    }
  }

  /** Removing an id nobody has changes nothing. */
  lemma {:induction false} RemoveAbsentEmployee(value: seq<SelectedEmployee>, id: string)
    requires !IsSelected(value, id)
    ensures RemoveEmployee(value, id) == value
  {
    if value != [] {
      assert !IsSelected(value[1..], id) by {
        forall i | 0 <= i < |value[1..]| ensures value[1..][i].id != id {
          assert value[1..][i] == value[i + 1];
        }
      }
      RemoveAbsentEmployee(value[1..], id);
      assert value[0].id != id;
      assert [value[0]] + value[1..] == value;
    }
  }

  /** Choosing a new employee and then removing them restores the list. */
  lemma SelectThenRemove(value: seq<SelectedEmployee>, e: Employee)
    requires !IsSelected(value, e.id)
    ensures RemoveEmployee(SelectEmployee(value, e), e.id) == value
  {
    RemoveEmployeeAppend(value, [ToSelected(e)], e.id);
    RemoveAbsentEmployee(value, e.id);
    assert [ToSelected(e)][1..] == [];
  }

  lemma {:induction false} RemoveEmployeeKeepsDistinct(value: seq<SelectedEmployee>, id: string)
    requires DistinctIds(value)
    ensures DistinctIds(RemoveEmployee(value, id))
  {
    if value != [] {
      var tail := value[1..];
      DistinctTail(value);
      RemoveEmployeeKeepsDistinct(tail, id);
      var rest := RemoveEmployee(tail, id);
      if value[0].id != id {
        forall k | 0 <= k < |rest| ensures rest[k].id != value[0].id {
          assert rest[k] in rest;
          var i :| 0 <= i < |tail| && tail[i] == rest[k];
          assert value[i + 1] == rest[k];
        }
        DistinctCons(value[0], rest);
      }
    }
  }

  lemma DistinctTail(value: seq<SelectedEmployee>)
    requires value != [] && DistinctIds(value)
    ensures DistinctIds(value[1..])
  {
    var tail := value[1..];
    forall i, j | 0 <= i < j < |tail| ensures tail[i].id != tail[j].id {
      assert tail[i] == value[i + 1] && tail[j] == value[j + 1];
    }
  }

  lemma DistinctCons(s: SelectedEmployee, rest: seq<SelectedEmployee>)
    requires DistinctIds(rest) && forall k :: 0 <= k < |rest| ==> rest[k].id != s.id
    ensures DistinctIds([s] + rest)
  {
    var r := [s] + rest;
    forall i, j | 0 <= i < j < |r| ensures r[i].id != r[j].id {
      assert r[j] == rest[j - 1];
      if i > 0 {
        assert r[i] == rest[i - 1];
      }
    }
  }

  // ------------------------------------------------------------- search

  /** Whether the search term matches this employee and the employee is not yet chosen. */
  predicate Suggestible(e: Employee, term: string, value: seq<SelectedEmployee>, lower: string -> string) {
    Contains(lower(e.name), lower(term)) && !IsSelected(value, e.id)
  }

  function FilterSuggestible(employees: seq<Employee>, term: string, value: seq<SelectedEmployee>,
                             lower: string -> string): (r: seq<Employee>)
    ensures forall e :: e in r <==> e in employees && Suggestible(e, term, value, lower)
    ensures |r| <= |employees|
  {
    if employees == [] then []
    else
      var rest := FilterSuggestible(employees[1..], term, value, lower);
      if Suggestible(employees[0], term, value, lower) then [employees[0]] + rest else rest
  }

  /**
   * The search filter effect: nothing for a blank or whitespace-only term, else
   * the employees whose case-folded name contains the case-folded term and who
   * are not chosen yet, in their original order.
   */
  function Suggestions(employees: seq<Employee>, term: string, value: seq<SelectedEmployee>,
                       lower: string -> string): (r: seq<Employee>)
    ensures AllWhitespace(term) ==> r == []
    ensures !AllWhitespace(term) ==> forall e :: e in r <==> e in employees && Suggestible(e, term, value, lower)
    ensures |r| <= |employees|
  {
    TrimEmptyIffBlank(term);
    if Trim(term) == "" then [] else FilterSuggestible(employees, term, value, lower)
  }

  /** The suggestions of a list of employees are those of its parts, in the same order. */
  lemma {:induction false} SuggestionsAppend(a: seq<Employee>, b: seq<Employee>, term: string,
                                             value: seq<SelectedEmployee>, lower: string -> string)
    ensures Suggestions(a + b, term, value, lower) == Suggestions(a, term, value, lower) + Suggestions(b, term, value, lower)
  {
    if a != [] && Trim(term) != "" {
      assert (a + b)[1..] == a[1..] + b;
      SuggestionsAppend(a[1..], b, term, value, lower);
    } else if a == [] {
      assert a + b == b;
    }
  }

  /**
   * One employee is suggested once, or not at all: with SuggestionsAppend this
   * fixes the suggestions as the matching employees, each once, in order.
   */
  lemma SuggestionsSingle(e: Employee, term: string, value: seq<SelectedEmployee>, lower: string -> string)
    requires !AllWhitespace(term)
    ensures Suggestions([e], term, value, lower) == if Suggestible(e, term, value, lower) then [e] else []
  {
  }

  /** Picking any suggestion always adds exactly that employee. */
  lemma PickingSuggestionAppends(employees: seq<Employee>, term: string, value: seq<SelectedEmployee>,
                                 lower: string -> string, e: Employee)
    requires e in Suggestions(employees, term, value, lower)
    ensures SelectEmployee(value, e) == value + [ToSelected(e)]
  {
    TrimEmptyIffBlank(term);
  }

  // -------------------------------------------------------------- state

  /** The picker's state: the fetched employees, the chosen list and the search box. */
  class Picker {
    var employees: seq<Employee>
    var value: seq<SelectedEmployee>
    var searchTerm: string
    var isOpen: bool
    var filteredEmployees: seq<Employee>

    /** No employee is chosen twice. */
    predicate Valid()
      reads this
    {
      DistinctIds(value)
    }

    constructor(employees: seq<Employee>, value: seq<SelectedEmployee>)
      ensures this.employees == employees && this.value == value
      ensures searchTerm == "" && !isOpen && filteredEmployees == []
      ensures DistinctIds(value) ==> Valid()
    {
      this.employees := employees;
      this.value := value;
      searchTerm := "";
      isOpen := false;
      filteredEmployees := [];
    }

    /** The search filter effect, run whenever the term, the employees or the chosen list change. */
    method RefreshSuggestions(lower: string -> string)
      modifies this
      ensures filteredEmployees == Suggestions(employees, searchTerm, value, lower)
      ensures employees == old(employees) && value == old(value)
      ensures searchTerm == old(searchTerm) && isOpen == old(isOpen)
    {
      filteredEmployees := Suggestions(employees, searchTerm, value, lower);
    }

    /** `handleSelectEmployee`: adds the employee unless chosen, clears the term and closes the list. */
    method HandleSelectEmployee(e: Employee)
      modifies this
      ensures value == SelectEmployee(old(value), e)
      ensures old(Valid()) ==> Valid()
      ensures searchTerm == "" && !isOpen
      ensures employees == old(employees) && filteredEmployees == old(filteredEmployees)
    {
      if !IsSelected(value, e.id) {
        value := value + [ToSelected(e)];
      }
      searchTerm := "";
      isOpen := false;
    }

    /** `handleRemoveEmployee`. */
    method HandleRemoveEmployee(employeeId: string)
      modifies this
      ensures value == RemoveEmployee(old(value), employeeId)
      ensures old(Valid()) ==> Valid()
      ensures employees == old(employees) && searchTerm == old(searchTerm)
      ensures isOpen == old(isOpen) && filteredEmployees == old(filteredEmployees)
    {
      if DistinctIds(value) {
        RemoveEmployeeKeepsDistinct(value, employeeId);
      }
      value := RemoveEmployee(value, employeeId);
    }

    /** `handleInputChange`: the typed text becomes the term and the list opens. */
    method HandleInputChange(text: string)
      modifies this
      ensures searchTerm == text && isOpen
      ensures employees == old(employees) && value == old(value) && filteredEmployees == old(filteredEmployees)
    {
      searchTerm := text;
      isOpen := true;
    }

    /** `handleInputFocus`. */
    method HandleInputFocus()
      modifies this
      ensures isOpen
      ensures employees == old(employees) && value == old(value)
      ensures searchTerm == old(searchTerm) && filteredEmployees == old(filteredEmployees)
    {
      isOpen := true;
    }
  }
}
