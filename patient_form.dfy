/**
 * The patient form hook (frontend/apps/web/lib/usePatientForm.tsx): the
 * static defaults, the edit-mode seed taken from a listed patient, the
 * name-keyed custom-field map built by a loop over the field definitions,
 * the submit-time encoding of that map into write records, and the submit
 * flow with its request, toast, reset and cache-invalidation outcomes.
 */
module PatientForm {
  import opened Wrappers
  import opened Dates
  import opened Models
  import opened JsObject
  import opened FormSchema
  import Store
  import Serializers
  import Text

  datatype Mode = CreateMode | EditMode

  // ---------------------------------------------------------------------------
  // The initial custom-field map

  /** The default a field starts with: `null` for NUMBER fields, `''` for the rest. */
  function DefaultFieldValue(f: CustomField): (v: FieldInput)
    ensures v == Null <==> f.fieldType == NumberType
    ensures v == Str("") <==> f.fieldType != NumberType
  {
    if f.fieldType == NumberType then Null else Str("")
  }

  /** `custom_field_values.find(value => value.custom_field == name)`. */
  function FindListed(vs: seq<Serializers.ListedValue>, name: string): (r: Option<Serializers.ListedValue>)
    ensures r.None? <==> forall i :: 0 <= i < |vs| ==> vs[i].customField != name
    ensures r.Some? ==> exists i :: 0 <= i < |vs| && vs[i] == r.value && vs[i].customField == name
                                    && forall j :: 0 <= j < i ==> vs[j].customField != name
  {
    if vs == [] then None
    else if vs[0].customField == name then Some(vs[0])
    else
      var r := FindListed(vs[1..], name);
      if r.Some? then
        var i :| 0 <= i < |vs[1..]| && vs[1..][i] == r.value && vs[1..][i].customField == name
                 && forall j :: 0 <= j < i ==> vs[1..][j].customField != name;
        assert vs[i + 1] == r.value && forall j :: 0 <= j < i + 1 ==> vs[j].customField != name;
        r
      else r
  }

  /** A listed value as the form holds it. */
  function ListedAsInput(v: Option<string>): FieldInput {
    if v.Some? then Str(v.value) else Null
  }

  /** The listed values whose names may seed the map: only in edit mode with a patient. */
  function ExistingValues(mode: Mode, patient: Option<Serializers.PatientListItem>)
    : Option<seq<Serializers.ListedValue>>
  {
    if mode == EditMode && patient.Some? then Some(patient.value.customFieldValues) else None
  }

  /** What field `f` starts with: the first existing value of that name, else the default. */
  function SeedValue(f: CustomField, existing: Option<seq<Serializers.ListedValue>>): FieldInput {
    if existing.Some? && FindListed(existing.value, f.name).Some? then
      ListedAsInput(FindListed(existing.value, f.name).value.value)
    else DefaultFieldValue(f)
  }

  /** One turn of the `forEach`: assign the default, then the existing value if one is found. */
  function SeedStep(rec: FieldRecord, f: CustomField, existing: Option<seq<Serializers.ListedValue>>): FieldRecord {
    var withDefault := Set(rec, f.name, DefaultFieldValue(f));
    if existing.Some? && FindListed(existing.value, f.name).Some? then
      Set(withDefault, f.name, ListedAsInput(FindListed(existing.value, f.name).value.value))
    else withDefault
  }

  /** The map after the `forEach` has visited `defs` in order. */
  function InitialFieldMap(defs: seq<CustomField>, existing: Option<seq<Serializers.ListedValue>>): FieldRecord {
    if defs == [] then [] else SeedStep(InitialFieldMap(defs[..|defs| - 1], existing), defs[|defs| - 1], existing)
  }

  /** The last definition named `name`: the one whose assignment the map keeps. */
  function LastNamed(defs: seq<CustomField>, name: string): (r: Option<CustomField>)
    ensures r.None? <==> forall i :: 0 <= i < |defs| ==> defs[i].name != name
    ensures r.Some? ==> r.value in defs && r.value.name == name
  {
    if defs == [] then None
    else if defs[|defs| - 1].name == name then Some(defs[|defs| - 1])
    else LastNamed(defs[..|defs| - 1], name)
  }

  /**
   * The map has a key exactly for each field name, and that key holds the
   * seed of the last definition with the name.
   */
  lemma {:induction false} InitialFieldMapLookup(defs: seq<CustomField>, existing: Option<seq<Serializers.ListedValue>>,
                                                 name: string)
    ensures Lookup(InitialFieldMap(defs, existing), name)
            == if LastNamed(defs, name).Some? then Some(SeedValue(LastNamed(defs, name).value, existing)) else None
  {
    if defs != [] {
      var init, f := defs[..|defs| - 1], defs[|defs| - 1];
      var rec := InitialFieldMap(init, existing);
      InitialFieldMapLookup(init, existing, name);
      SetLookup(rec, f.name, DefaultFieldValue(f), name);
      if existing.Some? && FindListed(existing.value, f.name).Some? {
        SetLookup(Set(rec, f.name, DefaultFieldValue(f)), f.name,
                  ListedAsInput(FindListed(existing.value, f.name).value.value), name);
      }
    }
  }

  /** The map never holds a name twice. */
  lemma {:induction false} InitialFieldMapKeysDistinct(defs: seq<CustomField>, existing: Option<seq<Serializers.ListedValue>>)
    ensures DistinctKeys(InitialFieldMap(defs, existing))
  {
    if defs != [] {
      var init, f := defs[..|defs| - 1], defs[|defs| - 1];
      var rec := InitialFieldMap(init, existing);
      InitialFieldMapKeysDistinct(init, existing);
      SetKeepsKeysDistinct(rec, f.name, DefaultFieldValue(f));
      if existing.Some? && FindListed(existing.value, f.name).Some? {
        SetKeepsKeysDistinct(Set(rec, f.name, DefaultFieldValue(f)), f.name,
                             ListedAsInput(FindListed(existing.value, f.name).value.value));
      }
    }
  }

  /**
   * With field names unique, each field's key holds its own default, or the
   * value of the first existing entry carrying its name.
   */
  lemma InitialFieldMapOfUniqueNames(defs: seq<CustomField>, existing: Option<seq<Serializers.ListedValue>>, i: nat)
    requires i < |defs|
    requires forall j :: 0 <= j < |defs| && defs[j].name == defs[i].name ==> j == i
    ensures existing.None? || FindListed(existing.value, defs[i].name).None?
            ==> Lookup(InitialFieldMap(defs, existing), defs[i].name) == Some(DefaultFieldValue(defs[i]))
    ensures existing.Some? && FindListed(existing.value, defs[i].name).Some?
            ==> Lookup(InitialFieldMap(defs, existing), defs[i].name)
                == Some(ListedAsInput(FindListed(existing.value, defs[i].name).value.value))
  {
    InitialFieldMapLookup(defs, existing, defs[i].name);
    LastNamedOfUniqueName(defs, i);
  }

  lemma {:induction false} LastNamedOfUniqueName(defs: seq<CustomField>, i: nat)
    requires i < |defs|
    requires forall j :: 0 <= j < |defs| && defs[j].name == defs[i].name ==> j == i
    ensures LastNamed(defs, defs[i].name) == Some(defs[i])
  {
    if i < |defs| - 1 {
      LastNamedOfUniqueName(defs[..|defs| - 1], i);
    }
  }

  /** The `forEach` loop that fills `initialCustomFields`. */
  method BuildInitialFieldMap(defs: seq<CustomField>, mode: Mode, patient: Option<Serializers.PatientListItem>)
    returns (rec: FieldRecord)
    ensures rec == InitialFieldMap(defs, ExistingValues(mode, patient))
  {
    rec := [];
    ghost var existing := ExistingValues(mode, patient);
    for i := 0 to |defs|
      invariant rec == InitialFieldMap(defs[..i], existing)
    {
      assert defs[..i + 1][..i] == defs[..i];
      ghost var next := SeedStep(rec, defs[i], existing);
      assert InitialFieldMap(defs[..i + 1], existing) == next;
      var field := defs[i];
      rec := Set(rec, field.name, if field.fieldType == NumberType then Null else Str(""));
      if mode == EditMode && patient.Some? {
        var existingValue := FindListed(patient.value.customFieldValues, field.name);
        if existingValue.Some? {
          rec := Set(rec, field.name, ListedAsInput(existingValue.value.value));
        }
      }
      assert rec == next;
    }
    assert defs[..|defs|] == defs;
  }

  // ---------------------------------------------------------------------------
  // Submit-time encoding of the map

  /** `customFields.find(field => field.name === name)`. */
  function FindField(defs: seq<CustomField>, name: string): (r: Option<CustomField>)
    ensures r.None? <==> forall i :: 0 <= i < |defs| ==> defs[i].name != name
    ensures r.Some? ==> exists i :: 0 <= i < |defs| && defs[i] == r.value && defs[i].name == name
                                    && forall j :: 0 <= j < i ==> defs[j].name != name
  {
    if defs == [] then None
    else if defs[0].name == name then Some(defs[0])
    else
      var r := FindField(defs[1..], name);
      if r.Some? then
        var i :| 0 <= i < |defs[1..]| && defs[1..][i] == r.value && defs[1..][i].name == name
                 && forall j :: 0 <= j < i ==> defs[1..][j].name != name;
        assert defs[i + 1] == r.value && forall j :: 0 <= j < i + 1 ==> defs[j].name != name;
        r
      else r
  }

  /**
   * The record one entry becomes: none for a blank value or an unknown name;
   * otherwise the field's id with exactly the slot its type selects filled
   * with the value's text, so that the backend rule accepts it.
   */
  function EncodeEntry(defs: seq<CustomField>, entry: (string, FieldInput)): (r: Option<CustomFieldValue>)
    ensures r.Some? <==> !IsBlank(entry.1) && FindField(defs, entry.0).Some?
    ensures r.Some? ==> var f := FindField(defs, entry.0).value;
                        && r.value.customField == f.id
                        && (f.fieldType == NumberType ==>
                              r.value.numberValue == Some(ToText(entry.1)) && r.value.textValue == None)
                        && (f.fieldType != NumberType ==>
                              r.value.textValue == Some(ToText(entry.1)) && r.value.numberValue == None)
                        && IsWellTyped(f.fieldType, r.value)
                        && Clean(f.fieldType, r.value).Ok?
  {
    var (name, value) := entry;
    if IsBlank(value) then None
    else
      var found := FindField(defs, name);
      if found.None? then None
      else
        var f := found.value;
        FilledTextIsNonEmpty(value);
        if f.fieldType == NumberType then Some(CustomFieldValue(f.id, None, Some(ToText(value))))
        else Some(CustomFieldValue(f.id, Some(ToText(value)), None))
  }

  /** The `custom_field_values` list after the loop over `Object.entries(custom_fields)`. */
  function Encode(rec: FieldRecord, defs: seq<CustomField>): seq<CustomFieldValue> {
    if rec == [] then []
    else
      var last := EncodeEntry(defs, rec[|rec| - 1]);
      Encode(rec[..|rec| - 1], defs) + (if last.Some? then [last.value] else [])
  }

  /** `if (values.custom_fields)`: an absent record contributes no entries. */
  function EntriesOf(custom: Option<FieldRecord>): FieldRecord {
    if custom.Some? then custom.value else []
  }

  /** Every emitted record is the encoding of some entry. */
  lemma {:induction false} EncodeSound(rec: FieldRecord, defs: seq<CustomField>, k: nat)
    requires k < |Encode(rec, defs)|
    ensures exists i :: 0 <= i < |rec| && EncodeEntry(defs, rec[i]) == Some(Encode(rec, defs)[k])
  {
    var init := rec[..|rec| - 1];
    if k < |Encode(init, defs)| {
      EncodeSound(init, defs, k);
      var i :| 0 <= i < |init| && EncodeEntry(defs, init[i]) == Some(Encode(init, defs)[k]);
      assert rec[i] == init[i];
    } else {
      assert EncodeEntry(defs, rec[|rec| - 1]) == Some(Encode(rec, defs)[k]);
    }
  }

  /** Every entry that is filled and names a known field is emitted. */
  lemma {:induction false} EncodeComplete(rec: FieldRecord, defs: seq<CustomField>, i: nat)
    requires i < |rec| && EncodeEntry(defs, rec[i]).Some?
    ensures EncodeEntry(defs, rec[i]).value in Encode(rec, defs)
  {
    var init := rec[..|rec| - 1];
    if i < |rec| - 1 {
      assert rec[i] == init[i];
      EncodeComplete(init, defs, i);
    }
  }

  /** The emitted ids of fields named differently differ when definition ids are distinct. */
  predicate DistinctIds(defs: seq<CustomField>) {
    forall i, j :: 0 <= i < j < |defs| ==> defs[i].id != defs[j].id
  }

  /** Each emitted id belongs to a field named after an entry that came no later. */
  lemma {:induction false} EncodedIdsFromPrefix(rec: FieldRecord, defs: seq<CustomField>, k: nat)
    requires k < |Encode(rec, defs)|
    ensures exists i :: 0 <= i < |rec| && FindField(defs, rec[i].0).Some?
                        && Encode(rec, defs)[k].customField == FindField(defs, rec[i].0).value.id
  {
    EncodeSound(rec, defs, k);
  }

  /**
   * No two emitted records share a `custom_field` id: the record's keys are
   * distinct, and each key resolves to its own definition.
   */
  lemma {:induction false} EncodedIdsDistinct(rec: FieldRecord, defs: seq<CustomField>)
    requires DistinctKeys(rec) && DistinctIds(defs)
    ensures Store.DistinctFields(Encode(rec, defs))
  {
    if rec != [] {
      var init, last := rec[..|rec| - 1], rec[|rec| - 1];
      assert DistinctKeys(init);
      EncodedIdsDistinct(init, defs);
      var prefix := Encode(init, defs);
      var e := EncodeEntry(defs, last);
      if e.Some? {
        var f := FindField(defs, last.0).value;
        forall k | 0 <= k < |prefix| ensures prefix[k].customField != e.value.customField {
          EncodedIdsFromPrefix(init, defs, k);
          var i :| 0 <= i < |init| && FindField(defs, init[i].0).Some?
                   && prefix[k].customField == FindField(defs, init[i].0).value.id;
          var g := FindField(defs, init[i].0).value;
          assert init[i].0 != last.0;
          var a :| 0 <= a < |defs| && defs[a] == g && defs[a].name == init[i].0;
          var b :| 0 <= b < |defs| && defs[b] == f && defs[b].name == last.0;
          assert a != b;
        }
        assert Encode(rec, defs) == prefix + [e.value];
      }
    }
  }

  // ---------------------------------------------------------------------------
  // The submit test as intended: `value.toString().trim() !== ''`

  /** The entries the intended test keeps: all but the whitespace-only ones, in order. */
  function DropWhitespaceOnly(rec: FieldRecord): (r: FieldRecord)
    ensures forall e :: e in r <==> e in rec && !WhitespaceOnly(e.1)
    ensures DistinctKeys(rec) ==> DistinctKeys(r)
  {
    if rec == [] then []
    else
      var init, last := rec[..|rec| - 1], rec[|rec| - 1];
      assert rec == init + [last];
      var r := DropWhitespaceOnly(init);
      if WhitespaceOnly(last.1) then r
      else
        assert DistinctKeys(rec) ==> forall i :: 0 <= i < |r| ==> r[i].0 != last.0 by {
          if DistinctKeys(rec) {
            forall i | 0 <= i < |r| ensures r[i].0 != last.0 {
              var j :| 0 <= j < |init| && init[j] == r[i];
              assert rec[j] == init[j];
            }
          }
        }
        r + [last]
  }

  /**
   * The encoding with the intended test: an entry whose text is empty or all
   * whitespace is skipped; everything else is encoded as before.
   */
  function EncodeTrimmed(rec: FieldRecord, defs: seq<CustomField>): seq<CustomFieldValue> {
    Encode(DropWhitespaceOnly(rec), defs)
  }

  /**
   * Every record the intended encoding emits encodes an entry of the record
   * whose text does not trim to nothing, and its filled slot is that text.
   */
  lemma EncodeTrimmedSound(rec: FieldRecord, defs: seq<CustomField>, k: nat)
    requires k < |EncodeTrimmed(rec, defs)|
    ensures var v := EncodeTrimmed(rec, defs)[k];
            exists i :: 0 <= i < |rec| && !WhitespaceOnly(rec[i].1) && EncodeEntry(defs, rec[i]) == Some(v)
    ensures var v := EncodeTrimmed(rec, defs)[k];
            && (v.textValue.Some? ==> Text.Trim(v.textValue.value) != [])
            && (v.numberValue.Some? ==> Text.Trim(v.numberValue.value) != [])
  {
    var kept := DropWhitespaceOnly(rec);
    var v := Encode(kept, defs)[k];
    EncodeSound(kept, defs, k);
    var i :| 0 <= i < |kept| && EncodeEntry(defs, kept[i]) == Some(v);
    var e := kept[i];
    assert e in kept;
    var j :| 0 <= j < |rec| && rec[j] == e;
    assert !IsBlank(e.1) && !WhitespaceOnly(e.1);
    assert Text.Trim(ToText(e.1)) != [];
    assert v.textValue.Some? ==> v.textValue.value == ToText(e.1);
    assert v.numberValue.Some? ==> v.numberValue.value == ToText(e.1);
  }

  /** The intended encoding emits distinct ids, as the one as written does. */
  lemma EncodeTrimmedIdsDistinct(rec: FieldRecord, defs: seq<CustomField>)
    requires DistinctKeys(rec) && DistinctIds(defs)
    ensures Store.DistinctFields(EncodeTrimmed(rec, defs))
  {
    EncodedIdsDistinct(DropWhitespaceOnly(rec), defs);
  }

  /** The `forEach` over `Object.entries(values.custom_fields)` that pushes the records. */
  method EncodeCustomFields(custom: Option<FieldRecord>, defs: seq<CustomField>) returns (out: seq<CustomFieldValue>)
    ensures out == Encode(EntriesOf(custom), defs)
  {
    out := [];
    if custom.Some? {
      var entries := custom.value;
      for i := 0 to |entries|
        invariant out == Encode(entries[..i], defs)
      {
        var (fieldName, value) := entries[i];
        if value != Undefined && value != Null && value != Str("") {
          var customField := FindField(defs, fieldName);
          if customField.Some? {
            var fieldValue := CustomFieldValue(customField.value.id, None, None);
            if customField.value.fieldType == NumberType {
              fieldValue := fieldValue.(numberValue := Some(ToText(value)));
            } else {
              fieldValue := fieldValue.(textValue := Some(ToText(value)));
            }
            out := out + [fieldValue];
          }
        }
        assert entries[..i + 1][..i] == entries[..i];
      }
      assert entries[..|entries|] == entries;
    }
  }

  // ---------------------------------------------------------------------------
  // Initial form values

  /** FORM_DEFAULT_VALUES, with `new Date()` passed in as `today`. */
  function FormDefaultValues(today: Date): FormInput {
    FormInput(Some(""), Some(""), Some(""), Some(today), Some(StatusCode(Inquiry)),
              Some([AddressInput(Some(AddressTypeCode(Home)), Some(""), Some(""), Some(StateCode(CA)), Some(""), Some(true))]),
              None)
  }

  /**
   * The static defaults start as INQUIRY with one primary HOME/CA address and
   * empty names, so they do not validate as they stand; once the names and
   * the address lines are filled in they do, keeping those choices.
   */
  lemma FormDefaultsAfterFillingIn(today: Date, first: string, last: string, street: string, city: string, postal: string,
                                   custom: Option<FieldRecord>)
    requires |first| >= 2 && |last| >= 2 && |street| >= 1 && |city| >= 1 && |postal| >= 1
    ensures ParseForm(FormDefaultValues(today).(customFields := custom)).None?
    ensures var d := FormDefaultValues(today);
            var filled := d.(firstName := Some(first), lastName := Some(last), customFields := custom,
                             addresses := Some([d.addresses.value[0].(streetAddress := Some(street), city := Some(city),
                                                                   postalCode := Some(postal))]));
            ParseForm(filled) == Some(FormValues(first, Some(""), last, today, Inquiry,
                                                 [PatientAddress(Home, street, city, CA, postal, true)], custom))
  {
    var d := FormDefaultValues(today);
    var filled := d.(firstName := Some(first), lastName := Some(last), customFields := custom,
                     addresses := Some([d.addresses.value[0].(streetAddress := Some(street), city := Some(city),
                                                           postalCode := Some(postal))]));
    var a := filled.addresses.value[0];
    assert ParseAddressType(AddressTypeCode(Home)) == Some(Home) && ParseState(StateCode(CA)) == Some(CA);
    assert ParseAddress(a) == Some(PatientAddress(Home, street, city, CA, postal, true));
    assert filled.addresses.value == [a];
    var r := ParseAddresses([a]);
    assert AddressIsValid([a][0]);
    assert Some(r.value[0]) == ParseAddress([a][0]);
    assert r.value == [PatientAddress(Home, street, city, CA, postal, true)];
    assert ParseStatus(StatusCode(Inquiry)) == Some(Inquiry);
  }

  /** A listed address as the form holds it after `...patient`: only the keys the list shape has. */
  function ListedAddressAsInput(a: Serializers.ListedAddress): (r: AddressInput)
    ensures r.streetAddress.None? && r.city.None? && r.state.None? && r.postalCode.None?
  {
    AddressInput(Some(AddressTypeCode(a.addressType)), None, None, None, None, Some(a.isPrimary))
  }

  function ListedAddressesAsInput(xs: seq<Serializers.ListedAddress>): (r: seq<AddressInput>)
    ensures |r| == |xs| && forall i :: 0 <= i < |xs| ==> r[i] == ListedAddressAsInput(xs[i])
  {
    if xs == [] then [] else [ListedAddressAsInput(xs[0])] + ListedAddressesAsInput(xs[1..])
  }

  /**
   * `getInitialValuesFromPatient`: the listed patient spread into the form,
   * with `date_of_birth` parsed and a falsy middle name replaced by `""`.
   */
  function InitialValuesFromPatient(p: Serializers.PatientListItem): (r: FormInput)
    ensures r.firstName == Some(p.firstName) && r.lastName == Some(p.lastName)
    ensures Truthy(p.middleName) ==> r.middleName == p.middleName
    ensures !Truthy(p.middleName) ==> r.middleName == Some("")
    ensures r.dateOfBirth == ParseDate(p.dateOfBirth)
    ensures p.status.Some? ==> r.status == Some(StatusCode(p.status.value))
    ensures r.addresses == Some(ListedAddressesAsInput(p.addresses))
  {
    FormInput(Some(p.firstName), Some(if Truthy(p.middleName) then p.middleName.value else ""), Some(p.lastName),
              ParseDate(p.dateOfBirth), if p.status.Some? then Some(StatusCode(p.status.value)) else None,
              Some(ListedAddressesAsInput(p.addresses)), None)
  }

  /**
   * The edit-mode seed never validates unchanged: a listed address lacks the
   * street, city, state and postal code, and without addresses the minimum
   * of one fails.
   */
  lemma EditSeedNeverValidates(p: Serializers.PatientListItem, custom: Option<FieldRecord>)
    ensures ParseForm(InitialValuesFromPatient(p).(customFields := custom)).None?
  {
    var xs := ListedAddressesAsInput(p.addresses);
    if |xs| >= 1 {
      assert !AddressIsValid(xs[0]);
    }
  }

  function InitialValues(mode: Mode, patient: Option<Serializers.PatientListItem>, today: Date): FormInput {
    if mode == EditMode && patient.Some? then InitialValuesFromPatient(patient.value) else FormDefaultValues(today)
  }

  // ---------------------------------------------------------------------------
  // Submit

  /** The `PatientCreate` body: the values, the formatted date and the encoded list. */
  datatype PatientPayload = PatientPayload(
    firstName: string,
    middleName: Option<string>,
    lastName: string,
    dateOfBirth: string,
    status: Status,
    addresses: seq<PatientAddress>,
    customFieldValues: seq<CustomFieldValue>)

  function Payload(v: FormValues, encoded: seq<CustomFieldValue>): (r: PatientPayload)
    ensures r.dateOfBirth == FormatDate(v.dateOfBirth)
    ensures v.dateOfBirth.year < 10000 && IsCalendarDate(v.dateOfBirth) ==> ParseDate(r.dateOfBirth) == Some(v.dateOfBirth)
    ensures r.customFieldValues == encoded && r.addresses == v.addresses && r.status == v.status
    ensures r.firstName == v.firstName && r.middleName == v.middleName && r.lastName == v.lastName
  {
    if v.dateOfBirth.year < 10000 && IsCalendarDate(v.dateOfBirth) then
      FormatThenParse(v.dateOfBirth);
      PatientPayload(v.firstName, v.middleName, v.lastName, FormatDate(v.dateOfBirth), v.status, v.addresses, encoded)
    else
      PatientPayload(v.firstName, v.middleName, v.lastName, FormatDate(v.dateOfBirth), v.status, v.addresses, encoded)
  }

  datatype Request = CreateRequest(payload: PatientPayload) | UpdateRequest(id: nat, payload: PatientPayload)

  /** `updatePatient(patient.id, ...)` in edit mode with a patient, `createPatient(...)` otherwise. */
  function RequestFor(mode: Mode, patient: Option<Serializers.PatientListItem>, payload: PatientPayload): (r: Request)
    ensures r.payload == payload
    ensures r.UpdateRequest? <==> mode == EditMode && patient.Some?
    ensures r.UpdateRequest? ==> r.id == patient.value.id
  {
    if mode == EditMode && patient.Some? then UpdateRequest(patient.value.id, payload) else CreateRequest(payload)
  }

  datatype Toast = Toast(title: string, description: string, destructive: bool)

  /** How the awaited request ended; a thrown `Error` carries its message. */
  datatype Outcome = Succeeded | Failed(message: Option<string>)

  function SuccessToast(mode: Mode, patient: Option<Serializers.PatientListItem>): Toast {
    if mode == EditMode && patient.Some? then Toast("Patient Updated", "The patient has been successfully updated.", false)
    else Toast("New Patient Created", "The patient has been successfully registered in the system.", false)
  }

  /** The destructive toast of the `catch` block. */
  function FailureToast(message: Option<string>): (t: Toast)
    ensures t.destructive && t.title == "Error creating patient"
    ensures t.description == if message.Some? then message.value else "An unknown error occurred"
  {
    Toast("Error creating patient", if message.Some? then message.value else "An unknown error occurred", true)
  }

  const PatientsQueryKey: seq<string> := ["patients"]

  /** The form state the hook keeps between renders. */
  class PatientFormController {
    const mode: Mode
    const patient: Option<Serializers.PatientListItem>
    const defs: seq<CustomField>
    const defaults: FormInput
    var values: FormInput
    var isSubmitting: bool
    var toasts: seq<Toast>
    var invalidations: seq<seq<string>>
    var requests: seq<Request>

    /** `useForm({defaultValues: {...initialValues, custom_fields: initialCustomFields}})`. */
    constructor(mode: Mode, patient: Option<Serializers.PatientListItem>, defs: seq<CustomField>, today: Date)
      ensures this.mode == mode && this.patient == patient && this.defs == defs
      ensures defaults == InitialValues(mode, patient, today).(customFields := Some(InitialFieldMap(defs, ExistingValues(mode, patient))))
      ensures values == defaults && !isSubmitting && toasts == [] && invalidations == [] && requests == []
    {
      var initialCustomFields := BuildInitialFieldMap(defs, mode, patient);
      this.mode := mode;
      this.patient := patient;
      this.defs := defs;
      var initialValues := FormDefaultValues(today);
      if mode == EditMode && patient.Some? {
        initialValues := InitialValuesFromPatient(patient.value);
      }
      defaults := initialValues.(customFields := Some(initialCustomFields));
      values := initialValues.(customFields := Some(initialCustomFields));
      isSubmitting := false;
      toasts := [];
      invalidations := [];
      requests := [];
    }

    /** The user edits the form. */
    method Fill(v: FormInput)
      modifies this`values
      ensures values == v
    {
      values := v;
    }

    /**
     * `form.handleSubmit(onSubmit)` up to the awaited call: nothing happens
     * unless the schema accepts; then `isSubmitting` is set and the request
     * for the mode is sent with the encoded payload.
     */
    method Submit() returns (sent: bool)
      modifies this`isSubmitting, this`requests
      ensures sent <==> ParseForm(values).Some?
      ensures !sent ==> isSubmitting == old(isSubmitting) && requests == old(requests)
      ensures sent ==> isSubmitting
      ensures sent ==> requests == old(requests) + [RequestFor(mode, patient,
                         Payload(ParseForm(values).value, Encode(EntriesOf(ParseForm(values).value.customFields), defs)))]
    {
      var parsed := ParseForm(values);
      if parsed.None? {
        return false;
      }
      var v := parsed.value;
      isSubmitting := true;
      var customFieldValues := EncodeCustomFields(v.customFields, defs);
      var patientData := Payload(v, customFieldValues);
      requests := requests + [RequestFor(mode, patient, patientData)];
      sent := true;
    }

    /**
     * The rest of `onSubmit` once the call settles: on success a toast, the
     * reset to the defaults and one `['patients']` invalidation; on failure a
     * destructive toast and nothing reset; `isSubmitting` is false either way.
     */
    method Settle(outcome: Outcome)
      modifies this`values, this`isSubmitting, this`toasts, this`invalidations
      ensures !isSubmitting
      ensures outcome.Succeeded? ==> && toasts == old(toasts) + [SuccessToast(mode, patient)]
                                     && values == defaults
                                     && invalidations == old(invalidations) + [PatientsQueryKey]
      ensures outcome.Failed? ==> && toasts == old(toasts) + [FailureToast(outcome.message)]
                                  && values == old(values)
                                  && invalidations == old(invalidations)
    {
      if outcome.Succeeded? {
        toasts := toasts + [SuccessToast(mode, patient)];
        values := defaults;
        invalidations := invalidations + [PatientsQueryKey];
      } else {
        toasts := toasts + [FailureToast(outcome.message)];
      }
      isSubmitting := false;
    }
  }
}
