/**
 * The rows the ORM persists, as an in-memory table of sequences: patients and
 * custom fields keyed by their auto-increment ids, addresses and custom-field
 * values as rows tagged with their patient. Saving a custom-field value runs
 * `clean` first (backend/api/models.py:183-185) and then meets the
 * (patient, custom_field) unique constraint (models.py:166); creating a custom
 * field meets the (provider, name) unique constraint (models.py:64).
 */
module Store {
  import opened Wrappers
  import opened Dates
  import opened Models

  /** A child row pointing at its patient (the `patient` foreign key). */
  datatype Row<T> = Row(patient: nat, data: T)

  /** The data of the rows that belong to patient `pid`, in insertion order. */
  function RowsOf<T>(rows: seq<Row<T>>, pid: nat): (r: seq<T>)
    ensures |r| <= |rows|
  {
    if rows == [] then []
    else
      var last := rows[|rows| - 1];
      RowsOf(rows[..|rows| - 1], pid) + (if last.patient == pid then [last.data] else [])
  }

  /** The rows left after `patient.<children>.all().delete()`. */
  function Without<T>(rows: seq<Row<T>>, pid: nat): (r: seq<Row<T>>)
    ensures forall i :: 0 <= i < |r| ==> r[i] in rows && r[i].patient != pid
  {
    if rows == [] then []
    else
      var last := rows[|rows| - 1];
      Without(rows[..|rows| - 1], pid) + (if last.patient == pid then [] else [last])
  }

  lemma RowsOfAppend<T>(rows: seq<Row<T>>, row: Row<T>, q: nat)
    ensures RowsOf(rows + [row], q) == RowsOf(rows, q) + (if row.patient == q then [row.data] else [])
  {
    assert (rows + [row])[..|rows|] == rows;
  }

  lemma {:induction false} RowsOfWithout<T>(rows: seq<Row<T>>, pid: nat, q: nat)
    ensures RowsOf(Without(rows, pid), q) == if q == pid then [] else RowsOf(rows, q)
  {
    if rows != [] {
      var init, last := rows[..|rows| - 1], rows[|rows| - 1];
      RowsOfWithout(init, pid, q);
      assert RowsOf(rows, q) == RowsOf(init, q) + (if last.patient == q then [last.data] else []);
      if last.patient != pid {
        assert Without(rows, pid) == Without(init, pid) + [last];
        RowsOfAppend(Without(init, pid), last, q);
      } else {
        assert Without(rows, pid) == Without(init, pid);
      }
    }
  }

  lemma {:induction false} RowsOfMember<T>(rows: seq<Row<T>>, pid: nat, x: T)
    requires x in RowsOf(rows, pid)
    ensures Row(pid, x) in rows
  {
    var init, last := rows[..|rows| - 1], rows[|rows| - 1];
    if x in RowsOf(init, pid) {
      RowsOfMember(init, pid, x);
      assert init[..] <= rows;
      assert Row(pid, x) in init;
    } else {
      assert last == Row(pid, x);
    }
  }

  predicate HasField(vs: seq<CustomFieldValue>, fid: nat) {
    exists i :: 0 <= i < |vs| && vs[i].customField == fid
  }

  /** No two values name the same custom field. */
  predicate DistinctFields(vs: seq<CustomFieldValue>) {
    forall i, j :: 0 <= i < j < |vs| ==> vs[i].customField != vs[j].customField
  }

  datatype SaveError = Invalid(reason: CleanError) | DuplicateField

  /** A value for a field its patient has no value for yet keeps every patient's fields distinct. */
  lemma AppendKeepsFieldsDistinct(rows: seq<Row<CustomFieldValue>>, pid: nat, v: CustomFieldValue)
    requires forall q :: DistinctFields(RowsOf(rows, q))
    requires !HasField(RowsOf(rows, pid), v.customField)
    ensures forall q :: DistinctFields(RowsOf(rows + [Row(pid, v)], q))
  {
    forall q ensures DistinctFields(RowsOf(rows + [Row(pid, v)], q)) {
      RowsOfAppend(rows, Row(pid, v), q);
    }
  }

  class Database {
    var patients: map<nat, Patient>
    var customFields: map<nat, CustomField>
    var addresses: seq<Row<PatientAddress>>
    var fieldValues: seq<Row<CustomFieldValue>>
    var nextPatientId: nat
    var nextFieldId: nat

    /** Ids agree with their keys, child rows point at existing rows, and the model's rules hold. */
    ghost predicate Valid()
      reads this
    {
      && (forall id :: id in patients ==> id < nextPatientId && patients[id].id == id)
      && (forall id :: id in customFields ==> id < nextFieldId && customFields[id].id == id)
      && (forall a, b :: a in customFields && b in customFields && a != b
                         && customFields[a].provider == customFields[b].provider
                         ==> customFields[a].name != customFields[b].name)
      && (forall r :: r in addresses ==> r.patient in patients)
      && (forall r :: r in fieldValues ==> r.patient in patients && r.data.customField in customFields
                                           && IsWellTyped(customFields[r.data.customField].fieldType, r.data))
      && (forall pid :: DistinctFields(RowsOf(fieldValues, pid)))
    }

    constructor ()
      ensures Valid()
      ensures patients == map[] && customFields == map[] && addresses == [] && fieldValues == []
    {
      patients, customFields := map[], map[];
      addresses, fieldValues := [], [];
      nextPatientId, nextFieldId := 1, 1;
      new;
      forall pid ensures DistinctFields(RowsOf(fieldValues, pid)) { }
    }

    /** `AddressesOf(pid)` is `patient.addresses.all()`. */
    function AddressesOf(pid: nat): seq<PatientAddress>
      reads this`addresses
    {
      RowsOf(addresses, pid)
    }

    /** `FieldValuesOf(pid)` is `patient.custom_field_values.all()`. */
    function FieldValuesOf(pid: nat): seq<CustomFieldValue>
      reads this`fieldValues
    {
      RowsOf(fieldValues, pid)
    }

    /** `Patient.objects.create(...)`: a fresh id, the other tables untouched. */
    method InsertPatient(provider: UserId, firstName: string, middleName: Option<string>,
                         lastName: string, dateOfBirth: Date, status: Status) returns (p: Patient)
      requires Valid()
      modifies this
      ensures Valid()
      ensures p == Patient(old(nextPatientId), provider, firstName, middleName, lastName, dateOfBirth, status)
      ensures p.id !in old(patients) && patients == old(patients)[p.id := p]
      ensures customFields == old(customFields) && addresses == old(addresses)
      ensures fieldValues == old(fieldValues) && nextFieldId == old(nextFieldId)
      ensures AddressesOf(p.id) == [] && FieldValuesOf(p.id) == []
    {
      p := Patient(nextPatientId, provider, firstName, middleName, lastName, dateOfBirth, status);
      NoRowsForUnusedId(p.id);
      patients := patients[p.id := p];
      nextPatientId := nextPatientId + 1;
    }

    /** A patient id never handed out has no child rows. */
    lemma NoRowsForUnusedId(id: nat)
      requires Valid() && id !in patients
      ensures AddressesOf(id) == [] && FieldValuesOf(id) == []
    {
      if AddressesOf(id) != [] {
        RowsOfMember(addresses, id, AddressesOf(id)[0]);
      }
      if FieldValuesOf(id) != [] {
        RowsOfMember(fieldValues, id, FieldValuesOf(id)[0]);
      }
    }

    /** `instance.save()` on an existing patient: its row is replaced, nothing else changes. */
    method SavePatient(p: Patient)
      requires Valid() && p.id in patients
      modifies this
      ensures Valid()
      ensures patients == old(patients)[p.id := p]
      ensures customFields == old(customFields) && addresses == old(addresses) && fieldValues == old(fieldValues)
    {
      patients := patients[p.id := p];
    }

    /** `PatientAddress.objects.create(patient=..., ...)`. */
    method InsertAddress(pid: nat, a: PatientAddress)
      requires Valid() && pid in patients
      modifies this
      ensures Valid()
      ensures addresses == old(addresses) + [Row(pid, a)]
      ensures patients == old(patients) && customFields == old(customFields) && fieldValues == old(fieldValues)
    {
      addresses := addresses + [Row(pid, a)];
    }

    /**
     * `PatientCustomFieldValue.objects.create(patient=..., ...)`: `save` runs
     * `clean` against the field's type, then the insert meets the
     * (patient, custom_field) unique constraint. A rejected value is not stored.
     */
    method InsertFieldValue(pid: nat, v: CustomFieldValue) returns (r: Result<(), SaveError>)
      requires Valid() && pid in patients && v.customField in customFields
      modifies this
      ensures Valid()
      ensures r == (var t := old(customFields)[v.customField].fieldType;
                    if Clean(t, v).Err? then Err(Invalid(Clean(t, v).error))
                    else if HasField(old(FieldValuesOf(pid)), v.customField) then Err(DuplicateField)
                    else Ok(()))
      ensures r.Ok? ==> fieldValues == old(fieldValues) + [Row(pid, v)]
      ensures r.Err? ==> fieldValues == old(fieldValues)
      ensures patients == old(patients) && customFields == old(customFields) && addresses == old(addresses)
    {
      var t := customFields[v.customField].fieldType;
      var check := Clean(t, v);
      if check.Err? {
        return Err(Invalid(check.error));
      }
      var mine := RowsOf(fieldValues, pid);
      if exists i | 0 <= i < |mine| :: mine[i].customField == v.customField {
        return Err(DuplicateField);
      }
      AppendKeepsFieldsDistinct(fieldValues, pid, v);
      fieldValues := fieldValues + [Row(pid, v)];
      r := Ok(());
    }

    /** `instance.addresses.all().delete()`. */
    method DeleteAddressesOf(pid: nat)
      requires Valid()
      modifies this
      ensures Valid()
      ensures addresses == Without(old(addresses), pid)
      ensures AddressesOf(pid) == []
      ensures forall q :: q != pid ==> AddressesOf(q) == old(AddressesOf(q))
      ensures patients == old(patients) && customFields == old(customFields) && fieldValues == old(fieldValues)
    {
      addresses := Without(addresses, pid);
      forall q ensures AddressesOf(q) == if q == pid then [] else old(AddressesOf(q)) {
        RowsOfWithout(old(addresses), pid, q);
      }
    }

    /** `instance.custom_field_values.all().delete()`. */
    method DeleteFieldValuesOf(pid: nat)
      requires Valid()
      modifies this
      ensures Valid()
      ensures fieldValues == Without(old(fieldValues), pid)
      ensures FieldValuesOf(pid) == []
      ensures forall q :: q != pid ==> FieldValuesOf(q) == old(FieldValuesOf(q))
      ensures patients == old(patients) && customFields == old(customFields) && addresses == old(addresses)
    {
      ghost var before := fieldValues;
      fieldValues := Without(fieldValues, pid);
      forall q ensures FieldValuesOf(q) == if q == pid then [] else RowsOf(before, q) {
        RowsOfWithout(before, pid, q);
      }
      assert forall q :: DistinctFields(RowsOf(fieldValues, q)) by {
        forall q ensures DistinctFields(RowsOf(fieldValues, q)) {
          RowsOfWithout(before, pid, q);
        }
      }
    }

    /**
     * `CustomField.objects.create(...)`: rejected with an integrity error when
     * the provider already has a field of that name.
     */
    method InsertCustomField(provider: UserId, name: string, fieldType: FieldType, description: Option<string>)
      returns (r: Option<CustomField>)
      requires Valid()
      modifies this
      ensures Valid()
      ensures r.None? <==> exists id :: id in old(customFields) && old(customFields)[id].provider == provider
                                           && old(customFields)[id].name == name
      ensures r.Some? ==> r.value == CustomField(old(nextFieldId), provider, name, fieldType, description)
                          && r.value.id !in old(customFields)
                          && customFields == old(customFields)[r.value.id := r.value]
      ensures r.None? ==> customFields == old(customFields)
      ensures patients == old(patients) && addresses == old(addresses) && fieldValues == old(fieldValues)
    {
      if exists id | id in customFields :: customFields[id].provider == provider && customFields[id].name == name {
        return None;
      }
      var f := CustomField(nextFieldId, provider, name, fieldType, description);
      customFields := customFields[f.id := f];
      nextFieldId := nextFieldId + 1;
      r := Some(f);
    }
  }
}
