/** `salesSchema`: the sales form's client, amount, date and notes. */
module SalesSchema {
  import opened Wrappers

  datatype SalesInput = SalesInput(clientId: string, amount: int, date: string, notes: Option<string>)

  const MinimumAmount := 1

  /** The fields that fail their rule, in the schema's order. */
  function Issues(input: SalesInput): (fields: seq<string>)
    ensures fields == [] <==> input.clientId != "" && input.amount >= MinimumAmount && input.date != ""
    ensures ("amount" in fields) <==> input.amount < MinimumAmount
  {
    (if input.clientId == "" then ["clientId"] else [])
    + (if input.amount < MinimumAmount then ["amount"] else [])
    + (if input.date == "" then ["date"] else [])
  }

  /** `salesSchema.safeParse`: the input unchanged, or the failing fields. */
  function Validate(input: SalesInput): (r: Result<SalesInput, seq<string>>)
    ensures r.Success? <==> Issues(input) == []
    ensures r.Success? ==> r.value == input
    ensures r.Failure? ==> r.error == Issues(input)
  {
    var issues := Issues(input);
    if issues == [] then Success(input) else Failure(issues)
  }

  /** The notes never decide acceptance. */
  lemma NotesUnconstrained(input: SalesInput, notes: Option<string>)
    ensures Issues(input.(notes := notes)) == Issues(input)
  {
  }
}
