/**
 * The register-patient dialog (frontend/apps/web/components/forms/register-patient-form.tsx):
 * its schema factory, its create-only defaults and custom-field map, the
 * "Add Address" row, and the submit flow with the dialog's `open` flag.
 */
module RegisterForm {
  import opened Wrappers
  import opened Dates
  import opened Models
  import opened JsObject
  import opened FormSchema
  import opened PatientForm

  /**
   * `createFormSchema(customFields)`: the same object schema as the patient
   * form, built without looking at the field list.
   */
  function CreateFormSchema(defs: seq<CustomField>, input: FormInput): (r: Option<FormValues>)
    ensures r.Some? <==> FormIsValid(input)
    ensures r == ParseForm(input)
  {
    ParseForm(input)
  }

  /** Two field lists give the same verdict and the same values on every input. */
  lemma CreateFormSchemaIgnoresFields(d1: seq<CustomField>, d2: seq<CustomField>, input: FormInput)
    ensures CreateFormSchema(d1, input) == CreateFormSchema(d2, input)
  {
  }

  /** The `forEach` that fills `initialCustomFields`: defaults only, no patient to read from. */
  method BuildRegisterFieldMap(defs: seq<CustomField>) returns (rec: FieldRecord)
    ensures rec == InitialFieldMap(defs, None)
  {
    rec := [];
    for i := 0 to |defs|
      invariant rec == InitialFieldMap(defs[..i], None)
    {
      if defs[i].fieldType == NumberType {
        rec := Set(rec, defs[i].name, Null);
      } else {
        rec := Set(rec, defs[i].name, Str(""));
      }
      assert defs[..i + 1][..i] == defs[..i];
    }
    assert defs[..|defs|] == defs;
  }

  /** With unique names, every field starts at its type's default: `null` for NUMBER, `''` otherwise. */
  lemma RegisterFieldMapDefaults(defs: seq<CustomField>, i: nat)
    requires i < |defs|
    requires forall j :: 0 <= j < |defs| && defs[j].name == defs[i].name ==> j == i
    ensures Lookup(InitialFieldMap(defs, None), defs[i].name)
            == Some(if defs[i].fieldType == NumberType then Null else Str(""))
  {
    InitialFieldMapOfUniqueNames(defs, None, i);
  }

  function BlankAddress(isPrimary: bool): AddressInput {
    AddressInput(Some(AddressTypeCode(Home)), Some(""), Some(""), Some(StateCode(CA)), Some(""), Some(isPrimary))
  }

  /** `defaultValues`: no date of birth, INQUIRY, one primary HOME/CA address. */
  function RegisterDefaults(custom: FieldRecord): FormInput {
    FormInput(Some(""), Some(""), Some(""), None, Some(StatusCode(Inquiry)), Some([BlankAddress(true)]), Some(custom))
  }

  /**
   * The defaults hold INQUIRY and one primary HOME/CA address; filling in the
   * names and the address lines is not enough, since they carry no date of
   * birth, and with one the form validates keeping those choices.
   */
  lemma RegisterDefaultsNeedDateOfBirth(custom: FieldRecord, first: string, last: string,
                                        street: string, city: string, postal: string, dob: Date)
    requires |first| >= 2 && |last| >= 2 && |street| >= 1 && |city| >= 1 && |postal| >= 1
    ensures var filled := RegisterDefaults(custom).(firstName := Some(first), lastName := Some(last),
              addresses := Some([BlankAddress(true).(streetAddress := Some(street), city := Some(city),
                                                     postalCode := Some(postal))]));
            && ParseForm(filled).None?
            && ParseForm(filled.(dateOfBirth := Some(dob)))
               == Some(FormValues(first, Some(""), last, dob, Inquiry,
                                  [PatientAddress(Home, street, city, CA, postal, true)], Some(custom)))
  {
    var a := BlankAddress(true).(streetAddress := Some(street), city := Some(city), postalCode := Some(postal));
    assert ParseAddressType(AddressTypeCode(Home)) == Some(Home) && ParseState(StateCode(CA)) == Some(CA);
    assert ParseStatus(StatusCode(Inquiry)) == Some(Inquiry);
    var r := ParseAddresses([a]);
    assert AddressIsValid([a][0]);
    assert Some(r.value[0]) == ParseAddress([a][0]);
    assert r.value == [PatientAddress(Home, street, city, CA, postal, true)];
  }

  function PrimaryCount(xs: seq<AddressInput>): nat {
    if xs == [] then 0 else PrimaryCount(xs[..|xs| - 1]) + (if xs[|xs| - 1].isPrimary == Some(true) then 1 else 0)
  }

  /** "Add Address" appends a blank HOME/CA row that is not primary, so the number of primaries is kept. */
  lemma AddAddressKeepsPrimaries(xs: seq<AddressInput>)
    ensures PrimaryCount(xs + [BlankAddress(false)]) == PrimaryCount(xs)
    ensures !AddressIsValid(BlankAddress(false))
  {
    assert (xs + [BlankAddress(false)])[..|xs|] == xs;
  }

  function AddressesOrNone(o: Option<seq<AddressInput>>): seq<AddressInput> {
    if o.Some? then o.value else []
  }

  const CreatedToast := Toast("Patient created", "The patient has been successfully created.", false)

  /** The dialog's state: its form, the `open` and `isSubmitting` flags and the outcome events. */
  class RegisterFormController {
    const defs: seq<CustomField>
    const defaults: FormInput
    var values: FormInput
    var open: bool
    var isSubmitting: bool
    var toasts: seq<Toast>
    var invalidations: seq<seq<string>>
    var requests: seq<PatientPayload>

    constructor(defs: seq<CustomField>)
      ensures this.defs == defs && defaults == RegisterDefaults(InitialFieldMap(defs, None))
      ensures values == defaults && !open && !isSubmitting && toasts == [] && invalidations == [] && requests == []
    {
      var initialCustomFields := BuildRegisterFieldMap(defs);
      this.defs := defs;
      defaults := RegisterDefaults(initialCustomFields);
      values := RegisterDefaults(initialCustomFields);
      open := false;
      isSubmitting := false;
      toasts := [];
      invalidations := [];
      requests := [];
    }

    /** The dialog's `onOpenChange`. */
    method SetOpen(b: bool)
      modifies this`open
      ensures open == b
    {
      open := b;
    }

    /** The user edits the form. */
    method Fill(v: FormInput)
      modifies this`values
      ensures values == v
    {
      values := v;
    }

    /** The "Add Address" button: `append` of a blank, non-primary HOME/CA row. */
    method AddAddress()
      modifies this`values
      ensures values == old(values).(addresses := Some(AddressesOrNone(old(values).addresses) + [BlankAddress(false)]))
    {
      values := values.(addresses := Some(AddressesOrNone(values.addresses) + [BlankAddress(false)]));
    }

    /** `form.handleSubmit(onSubmit)` up to `await createPatient(...)`. */
    method Submit() returns (sent: bool)
      modifies this`isSubmitting, this`requests
      ensures sent <==> ParseForm(values).Some?
      ensures !sent ==> isSubmitting == old(isSubmitting) && requests == old(requests)
      ensures sent ==> isSubmitting
      ensures sent ==> requests == old(requests) + [Payload(ParseForm(values).value,
                                                            Encode(EntriesOf(ParseForm(values).value.customFields), defs))]
    {
      var parsed := CreateFormSchema(defs, values);
      if parsed.None? {
        return false;
      }
      var v := parsed.value;
      isSubmitting := true;
      var customFieldValues := EncodeCustomFields(v.customFields, defs);
      requests := requests + [Payload(v, customFieldValues)];
      sent := true;
    }

    /**
     * After the call: on success a toast, the reset, the dialog closed and one
     * `['patients']` invalidation; on failure a destructive toast and the
     * form and dialog left as they were; `isSubmitting` false either way.
     */
    method Settle(outcome: Outcome)
      modifies this`values, this`open, this`isSubmitting, this`toasts, this`invalidations
      ensures !isSubmitting
      ensures outcome.Succeeded? ==> && toasts == old(toasts) + [CreatedToast]
                                     && values == defaults && !open
                                     && invalidations == old(invalidations) + [PatientsQueryKey]
      ensures outcome.Failed? ==> && toasts == old(toasts) + [FailureToast(outcome.message)]
                                  && values == old(values) && open == old(open)
                                  && invalidations == old(invalidations)
    {
      if outcome.Succeeded? {
        toasts := toasts + [CreatedToast];
        values := defaults;
        open := false;
        invalidations := invalidations + [PatientsQueryKey];
      } else {
        toasts := toasts + [FailureToast(outcome.message)];
      }
      isSubmitting := false;
    }
  }
}
