/**
 * The REST serializers (backend/api/serializers.py): the two password
 * validators, the direction-dependent shapes of custom-field values, the list
 * projection of a patient, and the nested `create` / `update` of
 * PatientCreateSerializer over the in-memory tables.
 */
module Serializers {
  import opened Wrappers
  import opened Dates
  import opened Models
  import opened Store
  import Text

  // ---------------------------------------------------------------------------
  // UserChangePasswordSerializer.validate

  datatype PasswordChange = PasswordChange(password: string, passwordNew: string, passwordRetype: string)

  datatype ChangePasswordError =
    | CurrentMismatch
    | NewRejected(messages: seq<string>)
    | RetypeMismatch
    | SameAsCurrent

  /** The key of the error dictionary each failure is reported under. */
  function ChangePasswordErrorKey(e: ChangePasswordError): string {
    match e
    case CurrentMismatch => "password"
    case NewRejected(_) => "password_new"
    case RetypeMismatch => "password_retype"
    case SameAsCurrent => "password_new"
  }

  function ChangePasswordErrorMessages(e: ChangePasswordError): seq<string> {
    match e
    case CurrentMismatch => ["Current password is not matching"]
    case NewRejected(messages) => messages
    case RetypeMismatch => ["Password does not meet all requirements"]
    case SameAsCurrent => ["Both new and current passwords are same"]
  }

  /**
   * The checks in their fixed order; only the first failure is reported.
   * `currentMatches` is `request.user.check_password(password)` and
   * `newPasswordProblems` the messages `validate_password(password_new)`
   * raises (none when it accepts).
   */
  function ValidateChangePassword(attrs: PasswordChange, currentMatches: bool, newPasswordProblems: seq<string>)
    : (r: Result<PasswordChange, ChangePasswordError>)
    ensures r.Ok? <==> currentMatches && newPasswordProblems == []
                       && attrs.passwordNew == attrs.passwordRetype && attrs.passwordNew != attrs.password
    ensures r.Ok? ==> r.value == attrs
    ensures !currentMatches ==> r == Err(CurrentMismatch)
    ensures currentMatches && newPasswordProblems != [] ==> r == Err(NewRejected(newPasswordProblems))
    ensures currentMatches && newPasswordProblems == [] && attrs.passwordNew != attrs.passwordRetype
            ==> r == Err(RetypeMismatch)
    ensures (currentMatches && newPasswordProblems == [] && attrs.passwordNew == attrs.passwordRetype
             && attrs.passwordNew == attrs.password) ==> r == Err(SameAsCurrent)
  {
    if !currentMatches then Err(CurrentMismatch)
    else if newPasswordProblems != [] then Err(NewRejected(newPasswordProblems))
    else if attrs.passwordNew != attrs.passwordRetype then Err(RetypeMismatch)
    else if attrs.passwordNew == attrs.password then Err(SameAsCurrent)
    else Ok(attrs)
  }

  /**
   * A retype mismatch is reported under `password_retype` with the
   * "does not meet all requirements" message, never with a mismatch message.
   */
  lemma RetypeMismatchUsesInvalidMessage(attrs: PasswordChange, currentMatches: bool, problems: seq<string>)
    requires ValidateChangePassword(attrs, currentMatches, problems) == Err(RetypeMismatch)
    ensures currentMatches && problems == [] && attrs.passwordNew != attrs.passwordRetype
    ensures ChangePasswordErrorKey(RetypeMismatch) == "password_retype"
    ensures ChangePasswordErrorMessages(RetypeMismatch) == ["Password does not meet all requirements"]
    ensures ChangePasswordErrorMessages(RetypeMismatch) != ChangePasswordErrorMessages(CurrentMismatch)
  {
  }

  // ---------------------------------------------------------------------------
  // UserCreateSerializer.validate

  type Attrs = map<string, string>

  datatype UserCreateError =
    | Fail(code: string)                      // `self.fail(code)`
    | ValidatorMessages(messages: seq<string>) // Django's ValidationError escaping `validate`

  function UserCreateMessage(code: string): string {
    if code == "password_mismatch" then "Password are not matching."
    else if code == "password_invalid" then "Password does not meet all requirements."
    else ""
  }

  /**
   * `validate` as written: the `except` names DRF's ValidationError, but
   * `validate_password` raises Django's, so a rejected password escapes with
   * the validator's own messages instead of `password_invalid`.
   */
  function ValidateUserCreateAsWritten(attrs: Attrs, passwordProblems: seq<string>)
    : (r: Result<Attrs, UserCreateError>)
    requires "password" in attrs && "password_retype" in attrs
    ensures passwordProblems != [] ==> r == Err(ValidatorMessages(passwordProblems))
    ensures passwordProblems == [] ==> r == ValidateUserCreate(attrs, [])
  {
    var retype := attrs["password_retype"];
    var rest := attrs - {"password_retype"};
    if passwordProblems != [] then Err(ValidatorMessages(passwordProblems))
    else if rest["password"] == retype then Ok(rest)
    else Err(Fail("password_mismatch"))
  }

  /**
   * `validate` as intended: `password_retype` is popped; a rejected password
   * fails with `password_invalid`; otherwise the attributes come back iff the
   * two passwords agree, else it fails with `password_mismatch`.
   */
  function ValidateUserCreate(attrs: Attrs, passwordProblems: seq<string>): (r: Result<Attrs, UserCreateError>)
    requires "password" in attrs && "password_retype" in attrs
    ensures r.Ok? <==> passwordProblems == [] && attrs["password"] == attrs["password_retype"]
    ensures r.Ok? ==> r.value == attrs - {"password_retype"} && "password_retype" !in r.value
                      && r.value["password"] == attrs["password"]
    ensures passwordProblems != [] ==> r == Err(Fail("password_invalid"))
    ensures passwordProblems == [] && attrs["password"] != attrs["password_retype"]
            ==> r == Err(Fail("password_mismatch"))
  {
    var retype := attrs["password_retype"];
    var rest := attrs - {"password_retype"};
    if passwordProblems != [] then Err(Fail("password_invalid"))
    else if rest["password"] == retype then Ok(rest)
    else Err(Fail("password_mismatch"))
  }

  /** A too-short password: the intended validator reports `password_invalid`, the written one does not. */
  lemma WeakPasswordEscapesAsWritten()
    ensures var attrs := map["username" := "ann", "password" := "abc", "password_retype" := "abc"];
            var problems := ["This password is too short."];
            && ValidateUserCreateAsWritten(attrs, problems) == Err(ValidatorMessages(problems))
            && ValidateUserCreate(attrs, problems) == Err(Fail("password_invalid"))
  {
  }

  // ---------------------------------------------------------------------------
  // Read shapes: PatientAddressListSerializer, PatientCustomFieldValueListSerializer, PatientListSerializer

  datatype ListedAddress = ListedAddress(addressType: AddressType, fullAddress: string, isPrimary: bool)

  /** In the list view a value names its field by `name`; write payloads carry the field's id. */
  datatype ListedValue = ListedValue(customField: string, value: Option<string>)

  datatype PatientListItem = PatientListItem(
    id: nat,
    fullName: string,
    firstName: string,
    middleName: Option<string>,
    lastName: string,
    dateOfBirth: string,
    status: Option<Status>,
    addresses: seq<ListedAddress>,
    customFieldValues: seq<ListedValue>)

  function ListAddress(a: PatientAddress): (r: ListedAddress)
    ensures r.fullAddress == FullAddress(a) && r.isPrimary == a.isPrimary && r.addressType == a.addressType
  {
    ListedAddress(a.addressType, FullAddress(a), a.isPrimary)
  }

  /** The list shape of a stored value: the field's name beside `value`. */
  function ListValue(v: CustomFieldValue, f: CustomField): (r: ListedValue)
    requires f.id == v.customField
    ensures r.customField == f.name
    ensures IsWellTyped(f.fieldType, v) ==> r.value.Some?
    ensures r.value == Value(f.fieldType, v)
  {
    ListedValue(f.name, Value(f.fieldType, v))
  }

  /**
   * Within one provider's fields, whose names are unique, the name a listed
   * value carries identifies the field it was stored under.
   */
  lemma ListedNameIdentifiesField(fields: map<nat, CustomField>, v: CustomFieldValue, g: nat)
    requires v.customField in fields && g in fields
    requires forall a, b :: a in fields && b in fields && a != b && fields[a].provider == fields[b].provider
                            ==> fields[a].name != fields[b].name
    requires fields[g].provider == fields[v.customField].provider
    requires fields[v.customField].id == v.customField
    requires ListValue(v, fields[v.customField]).customField == fields[g].name
    ensures g == v.customField
  {
  }

  function ListAddresses(addrs: seq<PatientAddress>): (r: seq<ListedAddress>)
    ensures |r| == |addrs| && forall i :: 0 <= i < |addrs| ==> r[i] == ListAddress(addrs[i])
  {
    if addrs == [] then [] else [ListAddress(addrs[0])] + ListAddresses(addrs[1..])
  }

  function ListValues(vs: seq<CustomFieldValue>, fields: map<nat, CustomField>): (r: seq<ListedValue>)
    requires forall v :: v in vs ==> v.customField in fields && fields[v.customField].id == v.customField
    ensures |r| == |vs|
    ensures forall i :: 0 <= i < |vs| ==> r[i] == ListValue(vs[i], fields[vs[i].customField])
  {
    if vs == [] then [] else [ListValue(vs[0], fields[vs[0].customField])] + ListValues(vs[1..], fields)
  }

  /** PatientListSerializer: the derived `full_name`, the ISO date, and the list shapes of the children. */
  function ListPatient(p: Patient, addrs: seq<PatientAddress>, vs: seq<CustomFieldValue>, fields: map<nat, CustomField>)
    : (r: PatientListItem)
    requires forall v :: v in vs ==> v.customField in fields && fields[v.customField].id == v.customField
    ensures r.id == p.id && r.fullName == FullName(p) && r.status == Some(p.status)
    ensures r.firstName == p.firstName && r.middleName == p.middleName && r.lastName == p.lastName
    ensures r.dateOfBirth == FormatDate(p.dateOfBirth)
    ensures r.addresses == ListAddresses(addrs) && r.customFieldValues == ListValues(vs, fields)
  {
    PatientListItem(p.id, FullName(p), p.firstName, p.middleName, p.lastName, FormatDate(p.dateOfBirth),
                    Some(p.status), ListAddresses(addrs), ListValues(vs, fields))
  }

  // ---------------------------------------------------------------------------
  // Field parsing of PatientCreateSerializer's input. The string columns are
  // DRF `CharField`s, which strip surrounding whitespace (`trim_whitespace`
  // is on by default) and then reject an empty value unless the column is
  // `blank=True`.

  /** A nullable, blank-allowed text column (`middle_name`, `text_value`). */
  function TrimOpt(o: Option<string>): Option<string> {
    if o.Some? then Some(Text.Trim(o.value)) else None
  }

  /** An address's text columns after parsing; `state` is a choice and is read as is. */
  function StripAddress(a: PatientAddress): PatientAddress {
    a.(streetAddress := Text.Trim(a.streetAddress), city := Text.Trim(a.city),
       postalCode := Text.Trim(a.postalCode))
  }

  function StripAddresses(addrs: seq<PatientAddress>): seq<PatientAddress> {
    seq(|addrs|, i requires 0 <= i < |addrs| => StripAddress(addrs[i]))
  }

  /** The required address columns are neither empty nor all whitespace. */
  predicate AddressLinesFilled(addrs: seq<PatientAddress>) {
    forall i :: 0 <= i < |addrs| ==>
      Text.Trim(addrs[i].streetAddress) != [] && Text.Trim(addrs[i].city) != []
      && Text.Trim(addrs[i].postalCode) != []
  }

  /** A custom value after parsing: `text_value` stripped, `number_value` left to the decimal field. */
  function ReadValue(v: CustomFieldValue): CustomFieldValue {
    v.(textValue := TrimOpt(v.textValue))
  }

  function ReadValues(vs: seq<CustomFieldValue>): seq<CustomFieldValue> {
    seq(|vs|, i requires 0 <= i < |vs| => ReadValue(vs[i]))
  }

  /**
   * Parsing keeps a value's field and which slots are null, and it keeps
   * `clean()` passing except for a TEXT value whose text is all whitespace.
   */
  lemma ReadValueKeepsClean(t: FieldType, v: CustomFieldValue)
    requires Clean(t, v).Ok?
    ensures ReadValue(v).customField == v.customField
    ensures ReadValue(v).numberValue == v.numberValue
    ensures ReadValue(v).textValue.Some? <==> v.textValue.Some?
    ensures Clean(t, ReadValue(v)).Ok? <==> (t == TextType ==> Text.Trim(v.textValue.value) != [])
  {
  }

  /** Parsing changes no field id, so a value that stays clean stays admissible. */
  lemma ReadValuesKeepAdmissible(vs: seq<CustomFieldValue>, fields: map<nat, CustomField>, k: nat)
    requires k < |vs| && Admissible(vs, fields, k)
    requires Clean(fields[vs[k].customField].fieldType, ReadValue(vs[k])).Ok?
    ensures Admissible(ReadValues(vs), fields, k)
  {
    var rs := ReadValues(vs);
    assert forall j :: 0 <= j < k ==> rs[..k][j].customField == vs[..k][j].customField;
  }

  // ---------------------------------------------------------------------------
  // PatientCreateSerializer.create / .update

  /** `validated_data` of a create: addresses are required, custom values optional. */
  datatype PatientWrite = PatientWrite(
    firstName: string,
    middleName: Option<string>,
    lastName: string,
    dateOfBirth: Date,
    status: Status,
    addresses: seq<PatientAddress>,
    customFieldValues: Option<seq<CustomFieldValue>>)

  /** One `setattr(instance, attr, value)` of an update. */
  datatype Assignment =
    | SetFirstName(firstName: string)
    | SetMiddleName(middleName: Option<string>)
    | SetLastName(lastName: string)
    | SetDateOfBirth(dateOfBirth: Date)
    | SetStatus(status: Status)

  datatype ScalarField = FirstNameField | MiddleNameField | LastNameField | DateOfBirthField | StatusField

  /** `validated_data` of an update: the scalar items present, and the two nested lists if present. */
  datatype PatientPatch = PatientPatch(
    scalars: seq<Assignment>,
    addresses: Option<seq<PatientAddress>>,
    customFieldValues: Option<seq<CustomFieldValue>>)

  datatype WriteError = ValueRejected(index: nat, reason: SaveError)

  function FieldOf(a: Assignment): ScalarField {
    match a
    case SetFirstName(_) => FirstNameField
    case SetMiddleName(_) => MiddleNameField
    case SetLastName(_) => LastNameField
    case SetDateOfBirth(_) => DateOfBirthField
    case SetStatus(_) => StatusField
  }

  /** The current value of field `f` of `p`, written as the assignment that would set it. */
  function Get(p: Patient, f: ScalarField): (a: Assignment)
    ensures FieldOf(a) == f
  {
    match f
    case FirstNameField => SetFirstName(p.firstName)
    case MiddleNameField => SetMiddleName(p.middleName)
    case LastNameField => SetLastName(p.lastName)
    case DateOfBirthField => SetDateOfBirth(p.dateOfBirth)
    case StatusField => SetStatus(p.status)
  }

  function Assign(p: Patient, a: Assignment): (r: Patient)
    ensures r.id == p.id && r.provider == p.provider
    ensures Get(r, FieldOf(a)) == a
    ensures forall f :: f != FieldOf(a) ==> Get(r, f) == Get(p, f)
  {
    match a
    case SetFirstName(v) => p.(firstName := v)
    case SetMiddleName(v) => p.(middleName := v)
    case SetLastName(v) => p.(lastName := v)
    case SetDateOfBirth(v) => p.(dateOfBirth := v)
    case SetStatus(v) => p.(status := v)
  }

  /** The instance after the `setattr` loop has run over `as` in order. */
  function AssignAll(p: Patient, steps: seq<Assignment>): Patient {
    if steps == [] then p else Assign(AssignAll(p, steps[..|steps| - 1]), steps[|steps| - 1])
  }

  /** The last assignment to `f` in `as`, or `otherwise` when `as` has none. */
  function LastFor(steps: seq<Assignment>, f: ScalarField, otherwise: Assignment): Assignment {
    if steps == [] then otherwise
    else if FieldOf(steps[|steps| - 1]) == f then steps[|steps| - 1]
    else LastFor(steps[..|steps| - 1], f, otherwise)
  }

  /**
   * After the loop each scalar field holds the value last assigned to it, and
   * keeps its old value when the update did not name it; id and provider never change.
   */
  lemma {:induction false} AssignAllFields(p: Patient, steps: seq<Assignment>, f: ScalarField)
    ensures Get(AssignAll(p, steps), f) == LastFor(steps, f, Get(p, f))
    ensures AssignAll(p, steps).id == p.id && AssignAll(p, steps).provider == p.provider
  {
    if steps != [] {
      AssignAllFields(p, steps[..|steps| - 1], f);
    }
  }

  /** A field that no assignment names is left as it was. */
  lemma {:induction false} LastForAbsent(steps: seq<Assignment>, f: ScalarField, otherwise: Assignment)
    requires forall i :: 0 <= i < |steps| ==> FieldOf(steps[i]) != f
    ensures LastFor(steps, f, otherwise) == otherwise
  {
    if steps != [] {
      LastForAbsent(steps[..|steps| - 1], f, otherwise);
    }
  }

  /** What `save` and the unique constraint let through at index `i`, given the rows before it. */
  predicate Admissible(vs: seq<CustomFieldValue>, fields: map<nat, CustomField>, i: nat)
    requires i < |vs|
  {
    && vs[i].customField in fields
    && Clean(fields[vs[i].customField].fieldType, vs[i]).Ok?
    && !HasField(vs[..i], vs[i].customField)
  }

  /** The index of the first value the create loop fails on, or `|vs|` when none fails. */
  function FirstRejected(vs: seq<CustomFieldValue>, fields: map<nat, CustomField>): (k: nat)
    ensures k <= |vs|
    ensures forall i :: 0 <= i < k ==> Admissible(vs, fields, i)
    ensures k < |vs| ==> !Admissible(vs, fields, k)
  {
    FirstRejectedFrom(vs, fields, 0)
  }

  function FirstRejectedFrom(vs: seq<CustomFieldValue>, fields: map<nat, CustomField>, from: nat): (k: nat)
    requires from <= |vs|
    requires forall i :: 0 <= i < from ==> Admissible(vs, fields, i)
    ensures from <= k <= |vs|
    ensures forall i :: 0 <= i < k ==> Admissible(vs, fields, i)
    ensures k < |vs| ==> !Admissible(vs, fields, k)
    decreases |vs| - from
  {
    if from == |vs| || !Admissible(vs, fields, from) then from
    else FirstRejectedFrom(vs, fields, from + 1)
  }

  /** The first rejection is the only index with every value before it admissible and itself not. */
  lemma FirstRejectedIsUnique(vs: seq<CustomFieldValue>, fields: map<nat, CustomField>, j: nat)
    requires j <= |vs|
    requires forall i :: 0 <= i < j ==> Admissible(vs, fields, i)
    requires j < |vs| ==> !Admissible(vs, fields, j)
    ensures FirstRejected(vs, fields) == j
  {
  }

  function ValuesOrNone(o: Option<seq<CustomFieldValue>>): seq<CustomFieldValue> {
    if o.Some? then o.value else []
  }

  function AddressesOrNone(o: Option<seq<PatientAddress>>): seq<PatientAddress> {
    if o.Some? then o.value else []
  }

  /**
   * The loop `for address_data in ...: PatientAddress.objects.create(...)`:
   * appends `addrs` to the patient's addresses.
   */
  method CreateAddresses(db: Database, pid: nat, addrs: seq<PatientAddress>)
    requires db.Valid() && pid in db.patients
    modifies db
    ensures db.Valid()
    ensures db.AddressesOf(pid) == old(db.AddressesOf(pid)) + addrs
    ensures forall q :: q != pid ==> db.AddressesOf(q) == old(db.AddressesOf(q))
    ensures db.patients == old(db.patients) && db.customFields == old(db.customFields)
    ensures db.fieldValues == old(db.fieldValues)
  {
    var i := 0;
    while i < |addrs|
      invariant 0 <= i <= |addrs|
      invariant db.Valid()
      invariant db.AddressesOf(pid) == old(db.AddressesOf(pid)) + addrs[..i]
      invariant forall q :: q != pid ==> db.AddressesOf(q) == old(db.AddressesOf(q))
      invariant db.patients == old(db.patients) && db.customFields == old(db.customFields)
      invariant db.fieldValues == old(db.fieldValues)
    {
      ghost var before := db.addresses;
      db.InsertAddress(pid, addrs[i]);
      forall q ensures db.AddressesOf(q) == RowsOf(before, q) + (if q == pid then [addrs[i]] else []) {
        RowsOfAppend(before, Row(pid, addrs[i]), q);
      }
      assert addrs[..i + 1] == addrs[..i] + [addrs[i]];
      i := i + 1;
    }
    assert addrs[..i] == addrs;
  }

  /**
   * The loop `for field_value_data in ...: PatientCustomFieldValue.objects.create(...)`
   * on a patient that has no values yet. Nothing is atomic: the values before
   * the first rejected one stay saved, and the rejection is returned.
   */
  method CreateFieldValues(db: Database, pid: nat, vs: seq<CustomFieldValue>) returns (r: Result<(), WriteError>)
    requires db.Valid() && pid in db.patients && db.FieldValuesOf(pid) == []
    requires forall v :: v in vs ==> v.customField in db.customFields
    modifies db
    ensures db.Valid()
    ensures var k := FirstRejected(vs, old(db.customFields));
            && db.FieldValuesOf(pid) == vs[..k]
            && (r.Ok? <==> k == |vs|)
            && (r.Err? ==> r.error.index == k)
    ensures forall q :: q != pid ==> db.FieldValuesOf(q) == old(db.FieldValuesOf(q))
    ensures db.patients == old(db.patients) && db.customFields == old(db.customFields)
    ensures db.addresses == old(db.addresses)
  {
    var j := 0;
    while j < |vs|
      invariant 0 <= j <= |vs|
      invariant db.Valid()
      invariant forall i :: 0 <= i < j ==> Admissible(vs, db.customFields, i)
      invariant db.FieldValuesOf(pid) == vs[..j]
      invariant forall q :: q != pid ==> db.FieldValuesOf(q) == old(db.FieldValuesOf(q))
      invariant db.patients == old(db.patients) && db.customFields == old(db.customFields)
      invariant db.addresses == old(db.addresses)
    {
      ghost var before := db.fieldValues;
      var saved := db.InsertFieldValue(pid, vs[j]);
      if saved.Err? {
        assert !Admissible(vs, db.customFields, j);
        FirstRejectedIsUnique(vs, db.customFields, j);
        return Err(ValueRejected(j, saved.error));
      }
      forall q ensures db.FieldValuesOf(q) == RowsOf(before, q) + (if q == pid then [vs[j]] else []) {
        RowsOfAppend(before, Row(pid, vs[j]), q);
      }
      assert vs[..j + 1] == vs[..j] + [vs[j]];
      j := j + 1;
    }
    assert vs[..j] == vs;
    FirstRejectedIsUnique(vs, db.customFields, j);
    r := Ok(());
  }

  /**
   * `PatientCreateSerializer.create`, with `provider` stamped by the view:
   * a new patient holding exactly the submitted addresses, and the submitted
   * custom values up to the first one `save` or the unique constraint rejects
   * (all of them when none is rejected).
   */
  method Create(db: Database, provider: UserId, data: PatientWrite) returns (id: nat, r: Result<(), WriteError>)
    requires db.Valid()
    requires forall v :: v in ValuesOrNone(data.customFieldValues) ==> v.customField in db.customFields
    modifies db
    ensures db.Valid()
    ensures id !in old(db.patients)
    ensures db.patients == old(db.patients)[id := Patient(id, provider, data.firstName, data.middleName,
                                                          data.lastName, data.dateOfBirth, data.status)]
    ensures db.AddressesOf(id) == data.addresses
    ensures var vs := ValuesOrNone(data.customFieldValues);
            var k := FirstRejected(vs, old(db.customFields));
            && db.FieldValuesOf(id) == vs[..k]
            && (r.Ok? <==> k == |vs|)
            && (r.Err? ==> r.error.index == k)
    ensures forall q :: q != id ==> db.AddressesOf(q) == old(db.AddressesOf(q))
    ensures forall q :: q != id ==> db.FieldValuesOf(q) == old(db.FieldValuesOf(q))
    ensures db.customFields == old(db.customFields)
  {
    var p := db.InsertPatient(provider, data.firstName, data.middleName, data.lastName,
                              data.dateOfBirth, data.status);
    id := p.id;
    CreateAddresses(db, id, data.addresses);
    r := CreateFieldValues(db, id, ValuesOrNone(data.customFieldValues));
  }

  /**
   * `PatientCreateSerializer.update`: the scalar items present are assigned in
   * order and saved; then all addresses are deleted and the submitted ones
   * created (none when the key is absent); then the same for custom values.
   */
  method Update(db: Database, id: nat, patch: PatientPatch) returns (r: Result<(), WriteError>)
    requires db.Valid() && id in db.patients
    requires forall v :: v in ValuesOrNone(patch.customFieldValues) ==> v.customField in db.customFields
    modifies db
    ensures db.Valid()
    ensures db.patients == old(db.patients)[id := AssignAll(old(db.patients)[id], patch.scalars)]
    ensures db.AddressesOf(id) == AddressesOrNone(patch.addresses)
    ensures var vs := ValuesOrNone(patch.customFieldValues);
            var k := FirstRejected(vs, old(db.customFields));
            && db.FieldValuesOf(id) == vs[..k]
            && (r.Ok? <==> k == |vs|)
            && (r.Err? ==> r.error.index == k)
    ensures forall q :: q != id ==> db.AddressesOf(q) == old(db.AddressesOf(q))
    ensures forall q :: q != id ==> db.FieldValuesOf(q) == old(db.FieldValuesOf(q))
    ensures db.customFields == old(db.customFields)
  {
    var instance := db.patients[id];
    var i := 0;
    while i < |patch.scalars|
      invariant 0 <= i <= |patch.scalars|
      invariant instance == AssignAll(old(db.patients)[id], patch.scalars[..i])
    {
      assert patch.scalars[..i + 1][..i] == patch.scalars[..i];
      instance := Assign(instance, patch.scalars[i]);
      i := i + 1;
    }
    assert patch.scalars[..i] == patch.scalars;
    AssignAllFields(old(db.patients)[id], patch.scalars, FirstNameField);
    db.SavePatient(instance);

    db.DeleteAddressesOf(id);
    CreateAddresses(db, id, AddressesOrNone(patch.addresses));

    db.DeleteFieldValuesOf(id);
    r := CreateFieldValues(db, id, ValuesOrNone(patch.customFieldValues));
  }
}
