/**
 * `clientSchema`: the client form's required fields and its optional postal
 * code, which unlike the site form's may not be empty. Whether a string is an
 * e-mail address (zod's `.email()`) is the parameter `isEmail`.
 */
module ClientSchema {
  import opened Wrappers
  import opened Pattern
  import SiteSchema

  datatype ClientInput = ClientInput(
    companyName: string, phone: string, address: Option<string>, postalCode: Option<string>,
    contactPerson: string, contactPhone: string, contactEmail: Option<string>, notes: Option<string>)

  /** `.regex(...).optional()`: absent or `NNN-NNNN`. */
  predicate PostalCodeAccepted(postalCode: Option<string>) {
    postalCode.None? || Matches(PostalCode, postalCode.value)
  }

  /** `.email().optional()`. */
  predicate EmailAccepted(email: Option<string>, isEmail: string -> bool) {
    email.None? || isEmail(email.value)
  }

  /** The fields that fail their rule, in the schema's order. */
  function Issues(input: ClientInput, isEmail: string -> bool): (fields: seq<string>)
    ensures fields == [] <==>
              && input.companyName != "" && input.phone != "" && PostalCodeAccepted(input.postalCode)
              && input.contactPerson != "" && input.contactPhone != ""
              && EmailAccepted(input.contactEmail, isEmail)
  {
    (if input.companyName == "" then ["company_name"] else [])
    + (if input.phone == "" then ["phone"] else [])
    + (if !PostalCodeAccepted(input.postalCode) then ["postal_code"] else [])
    + (if input.contactPerson == "" then ["contact_person"] else [])
    + (if input.contactPhone == "" then ["contact_phone"] else [])
    + (if !EmailAccepted(input.contactEmail, isEmail) then ["contact_email"] else [])
  }

  /** `clientSchema.safeParse`: the input unchanged, or the failing fields. */
  function Validate(input: ClientInput, isEmail: string -> bool): (r: Result<ClientInput, seq<string>>)
    ensures r.Success? <==> Issues(input, isEmail) == []
    ensures r.Success? ==> r.value == input
    ensures r.Failure? ==> r.error == Issues(input, isEmail)
  {
    var issues := Issues(input, isEmail);
    if issues == [] then Success(input) else Failure(issues)
  }

  /**
   * An empty postal code is rejected here but accepted by the site form; any
   * other postal code is treated alike by both.
   */
  lemma PostalCodeVersusSite(postalCode: Option<string>)
    ensures postalCode == Some("") ==> !PostalCodeAccepted(postalCode) && SiteSchema.PostalCodeAccepted(postalCode)
    ensures postalCode != Some("") ==> (PostalCodeAccepted(postalCode) <==> SiteSchema.PostalCodeAccepted(postalCode))
  {
    PostalCodeShape("");
  }

  /** The address and the notes never decide acceptance, and leaving out the e-mail is accepted. */
  lemma OptionalFieldsUnconstrained(input: ClientInput, isEmail: string -> bool,
                                    address: Option<string>, notes: Option<string>)
    ensures Issues(input.(address := address, notes := notes), isEmail) == Issues(input, isEmail)
    ensures "contact_email" !in Issues(input.(contactEmail := None), isEmail)
  {
  }
}
