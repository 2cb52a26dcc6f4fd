/**
 * The backend's data model (backend/api/models.py): the choice enums, the
 * patient, address, custom-field and custom-field-value records, their string
 * projections, and the typed-value rule `clean` that every saved custom-field
 * value must pass.
 */
module Models {
  import opened Wrappers
  import opened Dates

  type UserId = nat

  datatype Status = Inquiry | Onboarding | Active | Churned
  datatype State = CA | NY | TX | FL | IL | MA | WA
  datatype AddressType = Home | Work
  datatype FieldType = TextType | NumberType

  function StatusCode(s: Status): string {
    match s
    case Inquiry => "INQUIRY"
    case Onboarding => "ONBOARDING"
    case Active => "ACTIVE"
    case Churned => "CHURNED"
  }

  /** Membership test of a string in the status choices. */
  function ParseStatus(code: string): (r: Option<Status>)
    ensures forall s :: r == Some(s) <==> StatusCode(s) == code
  {
    if code == "INQUIRY" then Some(Inquiry)
    else if code == "ONBOARDING" then Some(Onboarding)
    else if code == "ACTIVE" then Some(Active)
    else if code == "CHURNED" then Some(Churned)
    else None
  }

  function StateCode(s: State): (c: string)
    ensures |c| == 2
  {
    match s
    case CA => "CA"
    case NY => "NY"
    case TX => "TX"
    case FL => "FL"
    case IL => "IL"
    case MA => "MA"
    case WA => "WA"
  }

  /** Membership test of a string in the state choices. */
  function ParseState(code: string): (r: Option<State>)
    ensures forall s :: r == Some(s) <==> StateCode(s) == code
  {
    if code == "CA" then Some(CA)
    else if code == "NY" then Some(NY)
    else if code == "TX" then Some(TX)
    else if code == "FL" then Some(FL)
    else if code == "IL" then Some(IL)
    else if code == "MA" then Some(MA)
    else if code == "WA" then Some(WA)
    else None
  }

  function AddressTypeCode(t: AddressType): string {
    match t
    case Home => "HOME"
    case Work => "WORK"
  }

  /** Membership test of a string in the address-type choices. */
  function ParseAddressType(code: string): (r: Option<AddressType>)
    ensures forall t :: r == Some(t) <==> AddressTypeCode(t) == code
  {
    if code == "HOME" then Some(Home)
    else if code == "WORK" then Some(Work)
    else None
  }

  function FieldTypeCode(t: FieldType): string {
    match t
    case TextType => "TEXT"
    case NumberType => "NUMBER"
  }

  datatype CustomField = CustomField(
    id: nat,
    provider: UserId,
    name: string,
    fieldType: FieldType,
    description: Option<string>)

  datatype Patient = Patient(
    id: nat,
    provider: UserId,
    firstName: string,
    middleName: Option<string>,
    lastName: string,
    dateOfBirth: Date,
    status: Status)

  datatype PatientAddress = PatientAddress(
    addressType: AddressType,
    streetAddress: string,
    city: string,
    state: State,
    postalCode: string,
    isPrimary: bool)

  /**
   * A custom-field value as written: the field's id and the two value slots.
   * The decimal `number_value` is carried as its decimal text.
   */
  datatype CustomFieldValue = CustomFieldValue(
    customField: nat,
    textValue: Option<string>,
    numberValue: Option<string>)

  /** Python truthiness of an optional string: None and "" are false. */
  predicate Truthy(s: Option<string>) {
    s.Some? && s.value != ""
  }

  /** `Patient.__str__`: first and last name, whatever the middle name. */
  function PatientStr(p: Patient): (r: string)
    ensures |r| == |p.firstName| + 1 + |p.lastName|
    ensures r[..|p.firstName|] == p.firstName && r[|p.firstName|] == ' '
    ensures r[|p.firstName| + 1..] == p.lastName
  {
    p.firstName + " " + p.lastName
  }

  /** `Patient.full_name`: the middle name is included only when it is truthy. */
  function FullName(p: Patient): (r: string)
    ensures |r| == |p.firstName| + 1 + |p.lastName|
                   + (if Truthy(p.middleName) then |p.middleName.value| + 1 else 0)
    ensures r[..|p.firstName|] == p.firstName && r[|p.firstName|] == ' '
    ensures r[|r| - |p.lastName|..] == p.lastName
    ensures Truthy(p.middleName) ==>
              var f, m := |p.firstName|, |p.middleName.value|;
              r[f + 1..f + 1 + m] == p.middleName.value && r[f + 1 + m] == ' '
    ensures !Truthy(p.middleName) ==> r == PatientStr(p)
  {
    if Truthy(p.middleName) then
      var f, m := p.firstName, p.middleName.value;
      var r := f + " " + m + " " + p.lastName;
      assert r[..|f|] == f;
      assert r[|f| + 1..|f| + 1 + |m|] == m;
      r
    else
      p.firstName + " " + p.lastName
  }

  /** The full name and the string form agree exactly when there is no (truthy) middle name. */
  lemma FullNameIsStrIffNoMiddleName(p: Patient)
    ensures FullName(p) == PatientStr(p) <==> !Truthy(p.middleName)
  {
  }

  /** `PatientAddress.full_address`: "street, city, state postal". */
  function FullAddress(a: PatientAddress): (r: string)
    ensures |r| == |a.streetAddress| + |a.city| + |a.postalCode| + 7
    ensures r[..|a.streetAddress|] == a.streetAddress
    ensures r[|r| - |a.postalCode|..] == a.postalCode
  {
    var r := a.streetAddress + ", " + a.city + ", " + StateCode(a.state) + " " + a.postalCode;
    assert r[..|a.streetAddress|] == a.streetAddress;
    r
  }

  /** "street, city, state postal": each part and separator at its position. */
  lemma FullAddressLayout(a: PatientAddress)
    ensures var s, c := |a.streetAddress|, |a.city|;
            && FullAddress(a)[..s] == a.streetAddress
            && FullAddress(a)[s..s + 2] == ", "
            && FullAddress(a)[s + 2..s + 2 + c] == a.city
            && FullAddress(a)[s + 2 + c..s + 4 + c] == ", "
            && FullAddress(a)[s + 4 + c..s + 6 + c] == StateCode(a.state)
            && FullAddress(a)[s + 6 + c] == ' '
            && FullAddress(a)[s + 7 + c..] == a.postalCode
  {
    var st, c := a.streetAddress, a.city;
    var r := FullAddress(a);
    assert r == st + ", " + c + ", " + StateCode(a.state) + " " + a.postalCode;
    assert r[..|st|] == st;
    assert r[|st|..|st| + 2] == ", ";
    assert r[|st| + 2..|st| + 2 + |c|] == c;
    assert r[|st| + 2 + |c|..|st| + 4 + |c|] == ", ";
    assert r[|st| + 4 + |c|..|st| + 6 + |c|] == StateCode(a.state);
    assert r[|st| + 7 + |c|..] == a.postalCode;
  }

  /** `PatientAddress.__str__` is the same text as `full_address`. */
  function AddressStr(a: PatientAddress): (r: string)
    ensures r == FullAddress(a)
  {
    a.streetAddress + ", " + a.city + ", " + StateCode(a.state) + " " + a.postalCode
  }

  /**
   * What `clean` demands of a value of a field of type `t`: a TEXT value has
   * a non-empty text and no number; a NUMBER value has a number and no
   * (truthy) text, so an empty text is allowed beside a number.
   */
  predicate IsWellTyped(t: FieldType, v: CustomFieldValue) {
    && (t == TextType ==> Truthy(v.textValue) && v.numberValue.None?)
    && (t == NumberType ==> v.numberValue.Some? && !Truthy(v.textValue))
  }

  datatype CleanError = TextRequired | NumberMustBeNull | NumberRequired | TextMustBeNull

  function CleanMessage(e: CleanError): string {
    match e
    case TextRequired => "Text value is required for text custom fields."
    case NumberMustBeNull => "Number value should be null for text custom fields."
    case NumberRequired => "Number value is required for number custom fields."
    case TextMustBeNull => "Text value should be null for number custom fields."
  }

  /**
   * `PatientCustomFieldValue.clean`, as intended: the first failing check is
   * reported as a validation error.
   */
  function Clean(t: FieldType, v: CustomFieldValue): (r: Result<(), CleanError>)
    ensures r.Ok? <==> IsWellTyped(t, v)
    ensures t == TextType && !Truthy(v.textValue) ==> r == Err(TextRequired)
    ensures t == TextType && Truthy(v.textValue) && v.numberValue.Some? ==> r == Err(NumberMustBeNull)
    ensures t == NumberType && v.numberValue.None? ==> r == Err(NumberRequired)
    ensures t == NumberType && v.numberValue.Some? && Truthy(v.textValue) ==> r == Err(TextMustBeNull)
  {
    match t
    case TextType =>
      if !Truthy(v.textValue) then Err(TextRequired)
      else if v.numberValue.Some? then Err(NumberMustBeNull)
      else Ok(())
    case NumberType =>
      if v.numberValue.None? then Err(NumberRequired)
      else if Truthy(v.textValue) then Err(TextMustBeNull)
      else Ok(())
  }

  /** A value passing `clean` fills exactly one slot, and which one follows the field's type. */
  lemma CleanFillsOneSlot(t: FieldType, v: CustomFieldValue)
    requires Clean(t, v).Ok?
    ensures v.numberValue.Some? <==> !Truthy(v.textValue)
    ensures t == NumberType <==> v.numberValue.Some?
  {
  }

  /** The exception a branch of `clean` raises as the module is written. */
  datatype Raised = Raised(exception: string, message: string)

  /**
   * `clean` as written: models.py never imports `ValidationError`, so every
   * rejecting branch raises NameError before any validation error is built.
   */
  function CleanAsWritten(t: FieldType, v: CustomFieldValue): (r: Option<Raised>)
    ensures r.None? <==> IsWellTyped(t, v)
    ensures r.Some? ==> r.value.exception == "NameError"
  {
    var nameError := Some(Raised("NameError", "name 'ValidationError' is not defined"));
    match t
    case TextType =>
      if !Truthy(v.textValue) then nameError
      else if v.numberValue.Some? then nameError
      else None
    case NumberType =>
      if v.numberValue.None? then nameError
      else if Truthy(v.textValue) then nameError
      else None
  }

  /**
   * A TEXT value with an empty text: the intended rule reports
   * "Text value is required", the code as written raises NameError instead.
   */
  lemma CleanAsWrittenRaisesNameError()
    ensures CleanAsWritten(TextType, CustomFieldValue(1, Some(""), None)).value.exception == "NameError"
    ensures Clean(TextType, CustomFieldValue(1, Some(""), None)) == Err(TextRequired)
  {
  }

  /** `PatientCustomFieldValue.value`: the number slot for NUMBER fields, the text slot otherwise. */
  function Value(t: FieldType, v: CustomFieldValue): (r: Option<string>)
    ensures r == v.numberValue || r == v.textValue
    ensures IsWellTyped(t, v) ==> r == if v.numberValue.Some? then v.numberValue else v.textValue
    ensures IsWellTyped(t, v) ==> r.Some? && (t == TextType ==> r.value != "")
  {
    if t == NumberType then v.numberValue else v.textValue
  }
}
