/**
 * Properties that cross the frontend/backend boundary: what the forms emit
 * is what the backend's rules accept, and what the list serializer sends is
 * what the table cells derive from.
 */
module EndToEnd {
  import opened Wrappers
  import opened Dates
  import opened Models
  import opened Store
  import opened JsObject
  import opened FormSchema
  import opened PatientForm
  import Serializers
  import Columns
  import Text

  /** The form's field definitions are the backend's own fields, with their types. */
  predicate DefsMatchFields(defs: seq<CustomField>, fields: map<nat, CustomField>) {
    forall i :: 0 <= i < |defs| ==> defs[i].id in fields && fields[defs[i].id].fieldType == defs[i].fieldType
  }

  /**
   * Every record the submit encoding emits passes `clean()` for its field's
   * type as sent, names a field the backend has, and shares its id with no
   * other record, so `create` and `update` would save the whole list as sent.
   * DRF's whitespace stripping is not part of this: see
   * `WhitespaceValueRejectedAsWritten`.
   */
  lemma EncodedValuesAreAllSaved(rec: FieldRecord, defs: seq<CustomField>, fields: map<nat, CustomField>)
    requires DistinctKeys(rec) && DistinctIds(defs) && DefsMatchFields(defs, fields)
    ensures forall v :: v in Encode(rec, defs) ==> v.customField in fields
    ensures Serializers.FirstRejected(Encode(rec, defs), fields) == |Encode(rec, defs)|
  {
    var vs := Encode(rec, defs);
    EncodedIdsDistinct(rec, defs);
    forall k | 0 <= k < |vs|
      ensures vs[k].customField in fields
      ensures Serializers.Admissible(vs, fields, k)
    {
      EncodeSound(rec, defs, k);
      var i :| 0 <= i < |rec| && EncodeEntry(defs, rec[i]) == Some(vs[k]);
      var f := FindField(defs, rec[i].0).value;
      var a :| 0 <= a < |defs| && defs[a] == f && defs[a].name == rec[i].0;
      assert Clean(fields[vs[k].customField].fieldType, vs[k]).Ok?;
    }
  }

  /**
   * The submit test as written lets a TEXT value of three spaces through, and
   * the record it sends passes `clean()`; but DRF strips `text_value` to ""
   * before `save`, `clean()` rejects that, and the create loop stops at it.
   * The intended test skips the entry.
   */
  lemma WhitespaceValueRejectedAsWritten()
    ensures var f := CustomField(7, 1, "note", TextType, None);
            var rec: FieldRecord := [("note", Str("   "))];
            var sent := Encode(rec, [f]);
            && sent == [CustomFieldValue(7, Some("   "), None)]
            && Clean(TextType, sent[0]).Ok?
            && Serializers.FirstRejected(Serializers.ReadValues(sent), map[7 := f]) == 0
            && EncodeTrimmed(rec, [f]) == []
  {
    var f := CustomField(7, 1, "note", TextType, None);
    var rec: FieldRecord := [("note", Str("   "))];
    var sent := Encode(rec, [f]);
    assert FindField([f], "note") == Some(f);
    assert !IsBlank(rec[0].1) && ToText(rec[0].1) == "   ";
    assert EncodeEntry([f], rec[0]) == Some(CustomFieldValue(7, Some("   "), None));
    assert rec[..|rec| - 1] == [];
    assert Encode(rec[..|rec| - 1], [f]) == [];
    assert Text.Trim("   ") == [];
    var read := Serializers.ReadValues(sent);
    assert read[0] == CustomFieldValue(7, Some([]), None);
    assert !Serializers.Admissible(read, map[7 := f], 0);
    Serializers.FirstRejectedIsUnique(read, map[7 := f], 0);
    assert WhitespaceOnly(rec[0].1);
    assert DropWhitespaceOnly(rec) == [] by {
      assert rec[..0] == [];
    }
  }

  /**
   * With the intended test, every record emitted still names a field the
   * backend has and shares its id with no other, and it still passes
   * `clean()` after DRF has stripped its text: `create` and `update` save the
   * whole list as the backend reads it.
   */
  lemma TrimmedEncodingIsAllSaved(rec: FieldRecord, defs: seq<CustomField>, fields: map<nat, CustomField>)
    requires DistinctKeys(rec) && DistinctIds(defs) && DefsMatchFields(defs, fields)
    ensures forall v :: v in EncodeTrimmed(rec, defs) ==> v.customField in fields
    ensures var vs := Serializers.ReadValues(EncodeTrimmed(rec, defs));
            Serializers.FirstRejected(vs, fields) == |vs|
  {
    var kept := DropWhitespaceOnly(rec);
    var sent := EncodeTrimmed(rec, defs);
    var vs := Serializers.ReadValues(sent);
    EncodedValuesAreAllSaved(kept, defs, fields);
    forall k | 0 <= k < |vs| ensures Serializers.Admissible(vs, fields, k) {
      assert Serializers.Admissible(sent, fields, k);
      EncodeTrimmedSound(rec, defs, k);
      Serializers.ReadValueKeepsClean(fields[sent[k].customField].fieldType, sent[k]);
      Serializers.ReadValuesKeepAdmissible(sent, fields, k);
    }
    Serializers.FirstRejectedIsUnique(vs, fields, |vs|);
  }

  /**
   * The backend's view of a payload. DRF's DateField reads `yyyy-MM-dd` back
   * into a date. Every string column is stripped of surrounding whitespace,
   * and a required one that is left empty (a name, a street, a city or a
   * postal code) fails validation, so nothing is created.
   */
  function Received(p: PatientPayload): (r: Option<Serializers.PatientWrite>)
    ensures r.Some? <==> ParseDate(p.dateOfBirth).Some? && Text.Trim(p.firstName) != []
                         && Text.Trim(p.lastName) != [] && Serializers.AddressLinesFilled(p.addresses)
    ensures r.Some? ==> r.value.firstName != [] && r.value.lastName != []
    ensures r.Some? ==> r.value == Serializers.PatientWrite(
                          Text.Trim(p.firstName), Serializers.TrimOpt(p.middleName), Text.Trim(p.lastName),
                          ParseDate(p.dateOfBirth).value, p.status, Serializers.StripAddresses(p.addresses),
                          Some(Serializers.ReadValues(p.customFieldValues)))
  {
    var d := ParseDate(p.dateOfBirth);
    var first, last := Text.Trim(p.firstName), Text.Trim(p.lastName);
    if d.None? || first == [] || last == [] || !Serializers.AddressLinesFilled(p.addresses) then None
    else Some(Serializers.PatientWrite(first, Serializers.TrimOpt(p.middleName), last, d.value, p.status,
                                       Serializers.StripAddresses(p.addresses),
                                       Some(Serializers.ReadValues(p.customFieldValues))))
  }

  /**
   * A form the schema accepted, for a calendar date with a four-digit year,
   * encoded with the intended test and created for `provider`. When a
   * required text is all whitespace the backend refuses the payload and
   * nothing changes. Otherwise the new patient holds the form's stripped
   * scalars, exactly its stripped addresses and exactly the encoded custom
   * values as the backend reads them.
   */
  method SubmitAndCreate(db: Database, provider: UserId, v: FormValues, defs: seq<CustomField>)
    returns (id: Option<nat>)
    requires db.Valid()
    requires IsCalendarDate(v.dateOfBirth) && v.dateOfBirth.year < 10000
    requires DistinctKeys(EntriesOf(v.customFields)) && DistinctIds(defs) && DefsMatchFields(defs, db.customFields)
    modifies db
    ensures db.Valid()
    ensures id.None? <==> Text.Trim(v.firstName) == [] || Text.Trim(v.lastName) == []
                          || !Serializers.AddressLinesFilled(v.addresses)
    ensures id.None? ==> db.patients == old(db.patients) && db.addresses == old(db.addresses)
                         && db.fieldValues == old(db.fieldValues) && db.customFields == old(db.customFields)
    ensures id.Some? ==> id.value in db.patients
                         && db.patients[id.value] == Patient(id.value, provider, Text.Trim(v.firstName),
                                                             Serializers.TrimOpt(v.middleName), Text.Trim(v.lastName),
                                                             v.dateOfBirth, v.status)
    ensures id.Some? ==> db.AddressesOf(id.value) == Serializers.StripAddresses(v.addresses)
    ensures id.Some? ==> db.FieldValuesOf(id.value)
                         == Serializers.ReadValues(EncodeTrimmed(EntriesOf(v.customFields), defs))
  {
    var encoded := EncodeTrimmed(EntriesOf(v.customFields), defs);
    var payload := Payload(v, encoded);
    var received := Received(payload);
    if received.None? {
      return None;
    }
    var data := received.value;
    TrimmedEncodingIsAllSaved(EntriesOf(v.customFields), defs, db.customFields);
    var pid, r := Serializers.Create(db, provider, data);
    var vs := Serializers.ReadValues(encoded);
    assert vs[..|vs|] == vs;
    id := Some(pid);
  }

  /**
   * A listed patient's table cells: the Name column shows `full_name`, the
   * badge is never the missing-status one, and the primary-address cell is
   * the `full_address` of the first primary stored address.
   */
  lemma ListedPatientCells(p: Patient, addrs: seq<PatientAddress>, vs: seq<CustomFieldValue>,
                           fields: map<nat, CustomField>)
    requires forall v :: v in vs ==> v.customField in fields && fields[v.customField].id == v.customField
    ensures var row := Serializers.ListPatient(p, addrs, vs, fields);
            && Columns.SortKey(Columns.NameColumn, row) == Some(FullName(p))
            && Columns.StatusVariant(row.status) != Columns.Secondary
            && (Columns.PrimaryAddressCell(row.addresses).None? <==> forall i :: 0 <= i < |addrs| ==> !addrs[i].isPrimary)
            && (Columns.PrimaryAddressCell(row.addresses).Some? ==>
                  exists i :: 0 <= i < |addrs| && addrs[i].isPrimary
                              && Columns.PrimaryAddressCell(row.addresses) == Some(FullAddress(addrs[i]))
                              && forall j :: 0 <= j < i ==> !addrs[j].isPrimary)
  {
    var row := Serializers.ListPatient(p, addrs, vs, fields);
    assert row.addresses == Serializers.ListAddresses(addrs);
    PrimaryCellOfStoredAddresses(addrs);
  }

  /** The primary-address cell over listed addresses is the first primary stored address. */
  lemma PrimaryCellOfStoredAddresses(addrs: seq<PatientAddress>)
    ensures var cell := Columns.PrimaryAddressCell(Serializers.ListAddresses(addrs));
            && (cell.None? <==> forall i :: 0 <= i < |addrs| ==> !addrs[i].isPrimary)
            && (cell.Some? ==>
                  exists i :: 0 <= i < |addrs| && addrs[i].isPrimary && cell == Some(FullAddress(addrs[i]))
                              && forall j :: 0 <= j < i ==> !addrs[j].isPrimary)
  {
    var listed := Serializers.ListAddresses(addrs);
    var cell := Columns.PrimaryAddressCell(listed);
    if cell.Some? {
      var i :| 0 <= i < |listed| && listed[i].isPrimary && listed[i].fullAddress == cell.value
               && forall j :: 0 <= j < i ==> !listed[j].isPrimary;
      assert addrs[i].isPrimary && cell == Some(FullAddress(addrs[i]));
      assert forall j :: 0 <= j < i ==> !addrs[j].isPrimary by {
        forall j | 0 <= j < i ensures !addrs[j].isPrimary {
          assert listed[j] == Serializers.ListAddress(addrs[j]);
        }
      }
    } else {
      forall i | 0 <= i < |addrs| ensures !addrs[i].isPrimary {
        assert listed[i] == Serializers.ListAddress(addrs[i]);
      }
    }
  }

  /** The date a listed patient carries parses, in edit mode, back to the stored date. */
  lemma EditSeedKeepsDateOfBirth(p: Patient, addrs: seq<PatientAddress>, vs: seq<CustomFieldValue>,
                                 fields: map<nat, CustomField>)
    requires forall v :: v in vs ==> v.customField in fields && fields[v.customField].id == v.customField
    requires IsCalendarDate(p.dateOfBirth) && p.dateOfBirth.year < 10000
    ensures InitialValuesFromPatient(Serializers.ListPatient(p, addrs, vs, fields)).dateOfBirth == Some(p.dateOfBirth)
  {
    FormatThenParse(p.dateOfBirth);
  }
}
