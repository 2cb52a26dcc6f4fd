/**
 * The patient form's validation schema
 * (frontend/apps/web/components/forms/patient-form-schemas.ts): a raw form
 * record either parses to typed values or is rejected. Keys the schema does
 * not name are stripped, `is_primary` defaults to false, and the
 * custom-field record is carried through without any per-field check.
 */
module FormSchema {
  import opened Wrappers
  import opened Dates
  import opened Models
  import opened JsObject

  /** An address as the form holds it: any key may be missing. */
  datatype AddressInput = AddressInput(
    addressType: Option<string>,
    streetAddress: Option<string>,
    city: Option<string>,
    state: Option<string>,
    postalCode: Option<string>,
    isPrimary: Option<bool>)

  /** The form record before validation; `dateOfBirth` is None when it is no valid Date. */
  datatype FormInput = FormInput(
    firstName: Option<string>,
    middleName: Option<string>,
    lastName: Option<string>,
    dateOfBirth: Option<Date>,
    status: Option<string>,
    addresses: Option<seq<AddressInput>>,
    customFields: Option<FieldRecord>)

  /** The record handed to `onSubmit` once the schema accepts. */
  datatype FormValues = FormValues(
    firstName: string,
    middleName: Option<string>,
    lastName: string,
    dateOfBirth: Date,
    status: Status,
    addresses: seq<PatientAddress>,
    customFields: Option<FieldRecord>)

  /** `z.string().min(n)`. */
  predicate HasMinLength(s: Option<string>, n: nat) {
    s.Some? && |s.value| >= n
  }

  /** `addressSchema` as a predicate. */
  predicate AddressIsValid(a: AddressInput) {
    && a.addressType.Some? && ParseAddressType(a.addressType.value).Some?
    && HasMinLength(a.streetAddress, 1)
    && HasMinLength(a.city, 1)
    && a.state.Some? && ParseState(a.state.value).Some?
    && HasMinLength(a.postalCode, 1)
  }

  /** `patientFormSchema` as a predicate; `custom_fields` has no condition. */
  predicate FormIsValid(f: FormInput) {
    && HasMinLength(f.firstName, 2)
    && HasMinLength(f.lastName, 2)
    && f.dateOfBirth.Some?
    && f.status.Some? && ParseStatus(f.status.value).Some?
    && f.addresses.Some? && |f.addresses.value| >= 1
    && forall i :: 0 <= i < |f.addresses.value| ==> AddressIsValid(f.addresses.value[i])
  }

  /** Parsing one address; an absent `is_primary` becomes false. */
  function ParseAddress(a: AddressInput): (r: Option<PatientAddress>)
    ensures r.Some? <==> AddressIsValid(a)
    ensures r.Some? ==> && AddressTypeCode(r.value.addressType) == a.addressType.value
                        && r.value.streetAddress == a.streetAddress.value
                        && r.value.city == a.city.value
                        && StateCode(r.value.state) == a.state.value
                        && r.value.postalCode == a.postalCode.value
                        && r.value.isPrimary == (a.isPrimary.Some? && a.isPrimary.value)
  {
    if AddressIsValid(a) then
      Some(PatientAddress(ParseAddressType(a.addressType.value).value, a.streetAddress.value, a.city.value,
                          ParseState(a.state.value).value, a.postalCode.value,
                          if a.isPrimary.Some? then a.isPrimary.value else false))
    else None
  }

  function ParseAddresses(xs: seq<AddressInput>): (r: Option<seq<PatientAddress>>)
    ensures r.Some? <==> forall i :: 0 <= i < |xs| ==> AddressIsValid(xs[i])
    ensures r.Some? ==> |r.value| == |xs| && forall i :: 0 <= i < |xs| ==> Some(r.value[i]) == ParseAddress(xs[i])
  {
    if xs == [] then Some([])
    else
      var head := ParseAddress(xs[0]);
      var rest := ParseAddresses(xs[1..]);
      if head.Some? && rest.Some? then Some([head.value] + rest.value)
      else None
  }

  /**
   * `zodResolver(patientFormSchema)`: the typed values when the schema
   * accepts, and nothing otherwise.
   */
  function ParseForm(f: FormInput): (r: Option<FormValues>)
    ensures r.Some? <==> FormIsValid(f)
    ensures r.Some? ==> && Some(r.value.firstName) == f.firstName && Some(r.value.lastName) == f.lastName
                        && r.value.middleName == f.middleName
                        && Some(r.value.dateOfBirth) == f.dateOfBirth
                        && Some(StatusCode(r.value.status)) == f.status
                        && Some(r.value.addresses) == ParseAddresses(f.addresses.value)
                        && r.value.customFields == f.customFields
  {
    if HasMinLength(f.firstName, 2) && HasMinLength(f.lastName, 2) && f.dateOfBirth.Some?
       && f.status.Some? && ParseStatus(f.status.value).Some?
       && f.addresses.Some? && |f.addresses.value| >= 1 && ParseAddresses(f.addresses.value).Some?
    then
      Some(FormValues(f.firstName.value, f.middleName, f.lastName.value, f.dateOfBirth.value,
                      ParseStatus(f.status.value).value, ParseAddresses(f.addresses.value).value,
                      f.customFields))
    else None
  }

  /** Whether a parsed record meets the schema's constraints, so that writing it back gives a valid form. */
  predicate ValuesMeetSchema(v: FormValues) {
    && |v.firstName| >= 2 && |v.lastName| >= 2 && |v.addresses| >= 1
    && forall i :: 0 <= i < |v.addresses| ==>
         |v.addresses[i].streetAddress| >= 1 && |v.addresses[i].city| >= 1 && |v.addresses[i].postalCode| >= 1
  }

  function UnparseAddress(a: PatientAddress): AddressInput {
    AddressInput(Some(AddressTypeCode(a.addressType)), Some(a.streetAddress), Some(a.city),
                 Some(StateCode(a.state)), Some(a.postalCode), Some(a.isPrimary))
  }

  function UnparseAddresses(xs: seq<PatientAddress>): (r: seq<AddressInput>)
    ensures |r| == |xs| && forall i :: 0 <= i < |xs| ==> r[i] == UnparseAddress(xs[i])
  {
    if xs == [] then [] else [UnparseAddress(xs[0])] + UnparseAddresses(xs[1..])
  }

  /** The form record that holds exactly the given values. */
  function Unparse(v: FormValues): FormInput {
    FormInput(Some(v.firstName), v.middleName, Some(v.lastName), Some(v.dateOfBirth),
              Some(StatusCode(v.status)), Some(UnparseAddresses(v.addresses)), v.customFields)
  }

  lemma ParseUnparseAddress(a: PatientAddress)
    requires |a.streetAddress| >= 1 && |a.city| >= 1 && |a.postalCode| >= 1
    ensures ParseAddress(UnparseAddress(a)) == Some(a)
  {
    assert ParseAddressType(AddressTypeCode(a.addressType)) == Some(a.addressType);
    assert ParseState(StateCode(a.state)) == Some(a.state);
  }

  /** Values that meet the schema survive being written into the form and parsed again. */
  lemma ParseUnparse(v: FormValues)
    requires ValuesMeetSchema(v)
    ensures ParseForm(Unparse(v)) == Some(v)
  {
    var xs := UnparseAddresses(v.addresses);
    forall i | 0 <= i < |xs| ensures ParseAddress(xs[i]) == Some(v.addresses[i]) {
      ParseUnparseAddress(v.addresses[i]);
    }
    var parsed := ParseAddresses(xs).value;
    assert parsed == v.addresses;
    assert ParseStatus(StatusCode(v.status)) == Some(v.status);
  }

  /** Parsed values always meet the schema's constraints. */
  lemma ParsedValuesMeetSchema(f: FormInput)
    requires ParseForm(f).Some?
    ensures ValuesMeetSchema(ParseForm(f).value)
  {
    var v := ParseForm(f).value;
    forall i | 0 <= i < |v.addresses|
      ensures |v.addresses[i].streetAddress| >= 1 && |v.addresses[i].city| >= 1 && |v.addresses[i].postalCode| >= 1
    {
      assert Some(v.addresses[i]) == ParseAddress(f.addresses.value[i]);
    }
  }

  /** No custom-field content, present or absent, changes whether the form is valid. */
  lemma CustomFieldsNeverInvalidate(f: FormInput, rec: Option<FieldRecord>)
    ensures ParseForm(f.(customFields := rec)).Some? <==> ParseForm(f).Some?
    ensures ParseForm(f).Some? ==> ParseForm(f.(customFields := rec)) == Some(ParseForm(f).value.(customFields := rec))
  {
  }
}
