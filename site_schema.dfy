/**
 * `siteSchema`: the site form's required fields, the postal code that may be
 * left empty, and the map link. Whether a string is a URL (zod's `.url()`) is
 * the parameter `isUrl`.
 */
module SiteSchema {
  import opened Wrappers
  import opened Text
  import opened Pattern

  datatype SiteInput = SiteInput(
    name: string, client: string, contactPerson: string, contactPhone: string,
    postalCode: Option<string>, address: string, googleMapLink: Option<string>,
    employeeNames: Option<string>, notes: Option<string>)

  /** `.regex(...).optional().or(z.literal(""))`: absent, empty, or `NNN-NNNN`. */
  predicate PostalCodeAccepted(postalCode: Option<string>) {
    postalCode.None? || postalCode.value == "" || Matches(PostalCode, postalCode.value)
  }

  /** `.url().optional().or(z.literal(""))`. */
  predicate MapLinkAccepted(link: Option<string>, isUrl: string -> bool) {
    link.None? || link.value == "" || isUrl(link.value)
  }

  /** The fields that fail their rule, in the schema's order. */
  function Issues(input: SiteInput, isUrl: string -> bool): (fields: seq<string>)
    ensures fields == [] <==>
              && input.name != "" && input.client != "" && input.contactPerson != ""
              && input.contactPhone != "" && PostalCodeAccepted(input.postalCode)
              && input.address != "" && MapLinkAccepted(input.googleMapLink, isUrl)
  {
    (if input.name == "" then ["name"] else [])
    + (if input.client == "" then ["client"] else [])
    + (if input.contactPerson == "" then ["contactPerson"] else [])
    + (if input.contactPhone == "" then ["contactPhone"] else [])
    + (if !PostalCodeAccepted(input.postalCode) then ["postalCode"] else [])
    + (if input.address == "" then ["address"] else [])
    + (if !MapLinkAccepted(input.googleMapLink, isUrl) then ["googleMapLink"] else [])
  }

  /** `siteSchema.safeParse`: the input unchanged, or the failing fields. */
  function Validate(input: SiteInput, isUrl: string -> bool): (r: Result<SiteInput, seq<string>>)
    ensures r.Success? <==> Issues(input, isUrl) == []
    ensures r.Success? ==> r.value == input
    ensures r.Failure? ==> r.error == Issues(input, isUrl)
  {
    var issues := Issues(input, isUrl);
    if issues == [] then Success(input) else Failure(issues)
  }

  /** An accepted non-empty postal code is eight characters: three digits, `-`, four digits. */
  lemma AcceptedPostalCodeShape(postalCode: string)
    requires postalCode != "" && PostalCodeAccepted(Some(postalCode))
    ensures |postalCode| == 8 && postalCode[3] == '-'
    ensures forall i :: 0 <= i < 8 && i != 3 ==> IsDigit(postalCode[i])
  {
    PostalCodeShape(postalCode);
    forall i | 0 <= i < 8 && i != 3 ensures IsDigit(postalCode[i]) {
      if i < 3 {
        assert postalCode[i] == postalCode[..3][i];
      } else {
        assert postalCode[i] == postalCode[4..][i - 4];
      }
    }
  }

  /** The staff names and the notes never decide acceptance. */
  lemma OptionalFieldsUnconstrained(input: SiteInput, isUrl: string -> bool, names: Option<string>, notes: Option<string>)
    ensures Issues(input.(employeeNames := names, notes := notes), isUrl) == Issues(input, isUrl)
  {
  }
}
