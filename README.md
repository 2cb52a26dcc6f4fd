# Patient records: the data-shaping core, modelled in Dafny

This project models the data-shaping layer of a small patient-management application. The application has a Django REST backend and a React frontend.

On the frontend, the model covers:

- the form schema that validates a patient record;
- the name-keyed custom-field map the forms start from;
- the encoding of that map into the `custom_field_values` write records;
- the submit flow, with its `isSubmitting` and `open` flags, form reset, toasts and cache invalidation;
- the cell logic of the patient table.

On the backend, the model covers:

- the model rules: `full_name`, `full_address`, the typed-value rule `clean` and `value`;
- the password validators;
- the nested `create` and `update` of the patient serializer over in-memory tables;
- the viewsets' dispatch, permissions and per-provider scoping.

The cross-file property this model is built around has two halves:

- every record the frontend emits passes the backend's `clean()` rule;
- no two emitted records share a `custom_field` id.

Together they mean that no record, as the form sends it, is rejected by `save` or by the `(patient, custom_field)` unique constraint. Module `EndToEnd` proves this.

The backend does not read the records exactly as sent. DRF's `CharField` strips surrounding whitespace from every text column. So a TEXT value of only spaces passes the form's test, is stripped to `""`, and is then rejected by `clean()` after the patient and its addresses are already saved. "## Findings" records this. The corrected encoding skips such values, and `EndToEnd.TrimmedEncodingIsAllSaved` proves that the backend then saves every record. The form controllers still model the encoding as written.

Modules and files:

| file | module | models |
|---|---|---|
| wrappers.dfy | Wrappers | `Option`, `Result` |
| text.dfy | Text | decimal digits, zero padding and whitespace trimming (helpers) |
| dates.dfy | Dates | dates as triples, `format(d, 'yyyy-MM-dd')`, reading an ISO date back |
| models.dfy | Models | backend/api/models.py |
| store.dfy | Store | the four tables as a `Database` class, with `save`/`clean` and the unique constraints |
| serializers.dfy | Serializers | backend/api/serializers.py |
| api.dfy | Api | backend/api/api.py |
| js_object.dfy | JsObject | the `custom_fields` JavaScript object (insertion-ordered keys) |
| form_schema.dfy | FormSchema | frontend/apps/web/components/forms/patient-form-schemas.ts |
| patient_form.dfy | PatientForm | frontend/apps/web/lib/usePatientForm.tsx |
| register_form.dfy | RegisterForm | frontend/apps/web/components/forms/register-patient-form.tsx |
| columns.dfy | Columns | frontend/apps/web/components/patient-columns.tsx |
| end_to_end.dfy | EndToEnd | properties across the frontend/backend boundary |

How the model is built:

- **Pure code** becomes functions with named results and lemmas: the schema, the model properties, the validators, the dispatch and the cells.
- **Code that changes state** becomes imperative Dafny:
  - the `forEach` loops that build the custom-field map;
  - the loop that pushes the encoded records;
  - the `setattr` loop of `update`;
  - the row-creating loops of `create` and `update`;
  - the form state of both forms, as classes whose methods have `modifies` clauses.
- **Each loop** is proved equal to a specification function, and the properties are proved about that function.

Where the code departs from the behaviour the application evidently intends, the model follows the code:

- **Edit mode does not round-trip.**
  - Loading a patient into edit mode and submitting the unchanged form should resubmit the original record.
  - In the code, `getInitialValuesFromPatient` spreads the *listed* patient. Its addresses have only `address_type`, `full_address` and `is_primary`.
  - The seeded form therefore has no street, city, state or postal code, and the schema rejects it.
  - `PatientForm.EditSeedNeverValidates` proves that the unchanged edit form never validates, for every listed patient.
  - A correct seed would need the detail shape of the addresses, which the list endpoint does not return. There is therefore no corrected member.
- **Values are matched to definitions by name.**
  - Edit mode matches custom values to definitions by name.
  - Names are unique per provider (backend/api/models.py:64).
  - `Serializers.ListedNameIdentifiesField` proves that within one provider's fields the listed name identifies the field.
- **Create and update are not atomic.** The patient serializer's `create` and `update` have no `transaction.atomic`. When a custom value is rejected, the rows written before it stay saved. `Serializers.Create` and `Serializers.Update` state this through `Serializers.FirstRejected`.

## Model

| member | source | states |
|---|---|---|
| Text.Trim | backend/api/serializers.py:171-188 | the stripped text is the slice after the leading and before the trailing whitespace, with no whitespace at either end, and empty exactly when the text is all whitespace |
| Text.LeadingSpaces | backend/api/serializers.py:171-188 | the leading whitespace ends at the first character that is not whitespace |
| Text.TrailingStart | backend/api/serializers.py:171-188 | the trailing whitespace starts after the last character that is not whitespace |
| Text.TrimIdempotent | backend/api/serializers.py:171-188 | stripping twice is stripping once |
| Dates.FormatDate | frontend/apps/web/lib/usePatientForm.tsx:111 | a four-digit year with month and day below 100 gives a 10-character `yyyy-MM-dd` text with dashes at positions 4 and 7 |
| Dates.ParseDate | frontend/apps/web/lib/usePatientForm.tsx:42 | a date comes back exactly for the `YYYY-MM-DD` shape with a calendar month and day |
| Dates.FormatThenParse | frontend/apps/web/lib/usePatientForm.tsx:42 | reading back a formatted calendar date gives the same date |
| Dates.ParseThenFormat | frontend/apps/web/lib/usePatientForm.tsx:111 | formatting a parsed date gives back the very string |
| Models.ParseStatus | backend/api/models.py:18-22 | a code parses to a status exactly when it is that status's code |
| Models.ParseState | backend/api/models.py:24-31 | a code parses to a state exactly when it is that state's code |
| Models.ParseAddressType | backend/api/models.py:34-36 | a code parses to an address type exactly when it is that type's code |
| Models.PatientStr | backend/api/models.py:94-95 | `__str__` is the first name, one space at position `|first|`, then the last name, whatever the middle name |
| Models.FullName | backend/api/models.py:97-101 | `full_name` starts with the first name and one space and ends with the last name; a truthy middle name sits right after that space, followed by one space; otherwise it equals `__str__` |
| Models.FullNameIsStrIffNoMiddleName | backend/api/models.py:94-101 | `full_name` equals `__str__` exactly when the middle name is falsy |
| Models.FullAddress | backend/api/models.py:132-134 | `full_address` starts with the street, ends with the postal code, and is 7 characters longer than its three free-text parts |
| Models.FullAddressLayout | backend/api/models.py:132-134 | `full_address` is, position by position, the street, `", "`, the city, `", "`, the two-letter state code, one space and the postal code |
| Models.AddressStr | backend/api/models.py:136-137 | the address's `__str__` is the same text as `full_address` |
| Models.Clean | backend/api/models.py:171-181 | accepts exactly the well-typed values (TEXT: truthy text and no number; NUMBER: a number and no truthy text), and reports the first failing check in source order |
| Models.CleanFillsOneSlot | backend/api/models.py:171-181 | an accepted value fills exactly one slot, the number slot exactly for NUMBER fields |
| Models.CleanAsWritten | backend/api/models.py:171-181 | as written, every rejecting branch raises NameError, and the accepting branches are unchanged |
| Models.CleanAsWrittenRaisesNameError | backend/api/models.py:173-174 | a TEXT value with empty text raises NameError as written, where the intended rule reports "Text value is required" |
| Models.Value | backend/api/models.py:187-191 | `value` is one of the two slots; for a well-typed value it is the filled slot, and it is non-empty for TEXT |
| Store.Database.InsertPatient | backend/api/serializers.py:194 | a fresh id with no child rows; the other tables are unchanged |
| Store.Database.SavePatient | backend/api/serializers.py:211 | the instance replaces its row; the other tables are unchanged |
| Store.Database.InsertAddress | backend/api/serializers.py:196-197 | one address row is appended for the patient; the other tables are unchanged |
| Store.Database.InsertFieldValue | backend/api/models.py:166-185 | `save` runs `clean` against the field's type first, then the `(patient, custom_field)` unique constraint; the row is appended exactly when both pass |
| Store.Database.DeleteAddressesOf | backend/api/serializers.py:214 | the patient has no addresses left; every other patient's addresses are unchanged |
| Store.Database.DeleteFieldValuesOf | backend/api/serializers.py:219 | the patient has no custom values left; every other patient's values are unchanged |
| Store.Database.InsertCustomField | backend/api/models.py:64 | creation fails exactly when the provider already has a field of that name; names stay unique per provider |
| Serializers.ValidateChangePassword | backend/api/serializers.py:46-68 | accepts exactly when all four checks pass; otherwise it reports only the first failure, in order: current password, validator, retype, same as current |
| Serializers.RetypeMismatchUsesInvalidMessage | backend/api/serializers.py:59-62 | a retype mismatch is reported under `password_retype` with the "does not meet all requirements" message |
| Serializers.ValidateUserCreate | backend/api/serializers.py:96-107 | `password_retype` is removed; the attributes come back exactly when the password is accepted and equals the retype; otherwise `password_invalid` or `password_mismatch` |
| Serializers.ValidateUserCreateAsWritten | backend/api/serializers.py:96-107 | as written, a rejected password escapes with the validator's own messages; otherwise it agrees with the intended validator |
| Serializers.WeakPasswordEscapesAsWritten | backend/api/serializers.py:99-102 | for a too-short password, the written code and the intended code give different results |
| Serializers.ListAddress | backend/api/serializers.py:135-138 | the list shape of an address carries its type, `full_address` and primary flag |
| Serializers.ListValue | backend/api/serializers.py:150-158 | the list shape of a value names its field by `name` and carries `value` |
| Serializers.ListedNameIdentifiesField | backend/api/serializers.py:154 | because names are unique per provider, the listed name identifies the field among that provider's fields |
| Serializers.ListAddresses | backend/api/serializers.py:164 | each address is listed in order |
| Serializers.ListValues | backend/api/serializers.py:165 | each value is listed in order with its field's name |
| Serializers.ListPatient | backend/api/serializers.py:160-169 | the listed patient carries the derived `full_name`, the ISO date, a present status and the list shapes of its children |
| Serializers.Assign | backend/api/serializers.py:209-210 | one `setattr` sets its field; the other fields, the id and the provider keep their values |
| Serializers.AssignAllFields | backend/api/serializers.py:209-211 | after the `setattr` loop each field holds the value last assigned to it, or its old value; the id and provider never change |
| Serializers.LastForAbsent | backend/api/serializers.py:209-210 | a field that no item of `validated_data` names keeps its old value |
| Serializers.FirstRejected | backend/api/serializers.py:199-200 | the values before this index are all accepted by `save` and the unique constraint; the value at it is not |
| Serializers.FirstRejectedIsUnique | backend/api/serializers.py:199-200 | the first rejection is the only index with every value before it accepted and itself rejected |
| Serializers.CreateAddresses | backend/api/serializers.py:196-197 | the submitted addresses are appended to the patient's in order; nothing else changes |
| Serializers.CreateFieldValues | backend/api/serializers.py:199-200 | the values up to the first rejected one are saved, and the result is an error exactly when one is rejected; other patients are unchanged |
| Serializers.ReadValueKeepsClean | backend/api/serializers.py:145-148 | DRF's stripping keeps a value's field, its number and which slots are null, and keeps `clean` passing except for a TEXT value that is all whitespace |
| Serializers.ReadValuesKeepAdmissible | backend/api/serializers.py:145-148 | stripping changes no field id, so a value that stays clean stays admissible at its index |
| Serializers.Create | backend/api/serializers.py:190-202 | a new patient with exactly the submitted addresses, and the submitted values up to the first rejected one; an absent list means none |
| Serializers.Update | backend/api/serializers.py:204-223 | the scalars are assigned in order; the addresses become exactly the submitted list and the values the submitted list up to the first rejection; an absent key means none |
| Api.PatientSerializerFor | backend/api/api.py:108-111 | the list serializer exactly for `list` and `retrieve`, the create serializer for every other action |
| Api.UserSerializerFor | backend/api/api.py:41-49 | `create` gets the create serializer and `change_password` the change-password serializer; every other action gets the current-user serializer |
| Api.UserPermission | backend/api/api.py:30-39 | AllowAny exactly for `create`, IsAuthenticated otherwise |
| Api.AnonymousUserRequestsOnlyCreate | backend/api/api.py:30-39 | an anonymous request is let through exactly for `create` |
| Api.ProviderScoped | backend/api/api.py:105-106 | `filter(provider=request.user)`: exactly the rows whose provider is the requester; the patient and custom-field querysets (api.py:127-128) are this one filter over their tables |
| Api.UserQueryset | backend/api/api.py:32-33 | at most the requester, and exactly the requester when the requester exists |
| Api.QuerysetsOfDifferentUsersAreDisjoint | backend/api/api.py:105-106 | no patient or field is visible to two different users |
| Api.ScopedPatient | backend/api/api.py:105-106 | a detail lookup finds a patient exactly when it is in the requester's queryset |
| Api.PerformCreatePatient | backend/api/api.py:113-114 | the new patient holds the payload's scalars with the requester as provider and joins only the requester's queryset; its addresses are exactly the payload's, its values the payload's up to the first rejected one (an error exactly then); other patients and the fields are unchanged |
| Api.PerformCreateCustomField | backend/api/api.py:130-131 | the new field's provider is the requester; creation fails exactly on a duplicate name for that provider; a new field is the next id with the given name, type and description, added to the table and visible to its provider only; on failure the table is unchanged; patients, addresses and values are never touched |
| Api.PerformUpdatePatient | backend/api/api.py:102-106 | not found, with nothing changed, exactly when the patient is outside the requester's queryset; otherwise the scalars are assigned in order, the addresses become the submitted list and the values the submitted list up to the first rejected one (an error with its index exactly then); the fields are never changed |
| JsObject.Lookup | frontend/apps/web/lib/usePatientForm.tsx:54-66 | a key is found exactly when some entry has it; with distinct keys it is found with that entry's value |
| JsObject.Set | frontend/apps/web/lib/usePatientForm.tsx:56 | assigning an existing key keeps every key in place; a new key is appended at the end |
| JsObject.SetLookup | frontend/apps/web/lib/usePatientForm.tsx:63 | after assignment the key reads back the new value, and every other key reads back its old one |
| JsObject.SetKeepsKeysDistinct | frontend/apps/web/lib/usePatientForm.tsx:54-66 | assignment never duplicates a key |
| JsObject.ToText | frontend/apps/web/lib/usePatientForm.tsx:98-100 | a string stringifies to itself; an integer to a non-empty decimal |
| JsObject.FilledTextIsNonEmpty | frontend/apps/web/lib/usePatientForm.tsx:88-100 | a value that passes the blank test stringifies to a non-empty text |
| JsObject.NumberIsNeverWhitespaceOnly | frontend/apps/web/lib/usePatientForm.tsx:88-100 | a number's text never trims to nothing, so the intended test only ever drops strings |
| FormSchema.ParseAddress | frontend/apps/web/components/forms/patient-form-schemas.ts:4-21 | an address parses exactly when both enums are members and street, city and postal code are non-empty; an absent `is_primary` becomes false |
| FormSchema.ParseAddresses | frontend/apps/web/components/forms/patient-form-schemas.ts:37 | a list parses exactly when every element does, element by element |
| FormSchema.ParseForm | frontend/apps/web/components/forms/patient-form-schemas.ts:23-41 | accepted exactly when names have at least 2 characters, a date is present, the status is a member, and there is at least one address with every address valid; the values are carried over |
| FormSchema.ParseUnparseAddress | frontend/apps/web/components/forms/patient-form-schemas.ts:4-21 | an address with non-empty lines survives being written back and parsed again |
| FormSchema.ParseUnparse | frontend/apps/web/components/forms/patient-form-schemas.ts:23-41 | values meeting the schema survive being written into the form and parsed again |
| FormSchema.ParsedValuesMeetSchema | frontend/apps/web/components/forms/patient-form-schemas.ts:23-41 | every parsed record meets the length and count constraints |
| FormSchema.CustomFieldsNeverInvalidate | frontend/apps/web/components/forms/patient-form-schemas.ts:40 | custom-field content, present or absent, never changes the verdict and is carried through unchanged |
| PatientForm.DefaultFieldValue | frontend/apps/web/lib/usePatientForm.tsx:56 | `null` exactly for NUMBER fields, `''` exactly for the others |
| PatientForm.FindListed | frontend/apps/web/lib/usePatientForm.tsx:58-60 | the first existing value carrying the name, or none when no value carries it |
| PatientForm.InitialFieldMapLookup | frontend/apps/web/lib/usePatientForm.tsx:54-66 | the map has a key exactly for each field name, holding the existing value for that name if any, else the default of the last definition with the name |
| PatientForm.InitialFieldMapKeysDistinct | frontend/apps/web/lib/usePatientForm.tsx:54-66 | the map holds each name once |
| PatientForm.InitialFieldMapOfUniqueNames | frontend/apps/web/lib/usePatientForm.tsx:54-66 | with unique names, each field holds the first existing value of its name, or else its own default |
| PatientForm.BuildInitialFieldMap | frontend/apps/web/lib/usePatientForm.tsx:54-66 | the `forEach` loop builds exactly the specified map |
| PatientForm.FindField | frontend/apps/web/lib/usePatientForm.tsx:89 | the first definition with the name, or none when no definition has it |
| PatientForm.EncodeEntry | frontend/apps/web/lib/usePatientForm.tsx:88-103 | blank values and unknown names give no record; otherwise the record carries the field's id, fills exactly the slot its type selects, and passes `clean` |
| PatientForm.EncodeSound | frontend/apps/web/lib/usePatientForm.tsx:84-107 | every emitted record is the encoding of some entry |
| PatientForm.EncodeComplete | frontend/apps/web/lib/usePatientForm.tsx:84-107 | every entry that is filled and names a known field is emitted |
| PatientForm.EncodedIdsDistinct | frontend/apps/web/lib/usePatientForm.tsx:84-107 | given distinct definition ids, no two emitted records share a `custom_field` id |
| PatientForm.DropWhitespaceOnly | frontend/apps/web/lib/usePatientForm.tsx:88 | the intended test keeps exactly the entries that are not whitespace-only, and keeps keys distinct |
| PatientForm.EncodeTrimmedSound | frontend/apps/web/lib/usePatientForm.tsx:84-107 | every record of the corrected encoding encodes an entry that is not whitespace-only, and its filled slot does not trim to nothing |
| PatientForm.EncodeTrimmedIdsDistinct | frontend/apps/web/lib/usePatientForm.tsx:84-107 | the corrected encoding, like the one as written, emits no two records with the same `custom_field` id |
| PatientForm.EncodeCustomFields | frontend/apps/web/lib/usePatientForm.tsx:84-107 | the push loop emits exactly the specified encoding; an absent record emits nothing |
| PatientForm.FormDefaultsAfterFillingIn | frontend/apps/web/lib/usePatientForm.tsx:23-37 | the defaults (empty names, INQUIRY, one primary HOME/CA address) do not validate as they are; once names and address lines are filled they do, keeping those choices |
| PatientForm.ListedAddressAsInput | frontend/apps/web/lib/usePatientForm.tsx:41 | a spread listed address has no street, city, state or postal code |
| PatientForm.ListedAddressesAsInput | frontend/apps/web/lib/usePatientForm.tsx:41 | every listed address is spread in order |
| PatientForm.InitialValuesFromPatient | frontend/apps/web/lib/usePatientForm.tsx:39-45 | names are copied, a falsy middle name becomes `""`, the date is parsed from its ISO string, and the status and addresses are copied |
| PatientForm.EditSeedNeverValidates | frontend/apps/web/lib/usePatientForm.tsx:39-45 | the edit-mode seed never passes the schema, whatever its custom fields |
| PatientForm.Payload | frontend/apps/web/lib/usePatientForm.tsx:109-113 | the payload carries the values, the `yyyy-MM-dd` date (which reads back to the form's date) and the encoded list |
| PatientForm.RequestFor | frontend/apps/web/lib/usePatientForm.tsx:115-127 | an update of `patient.id` exactly in edit mode with a patient; a create otherwise |
| PatientForm.FailureToast | frontend/apps/web/lib/usePatientForm.tsx:131-139 | a destructive toast with the error's message, or "An unknown error occurred" |
| PatientForm.PatientFormController.constructor | frontend/apps/web/lib/usePatientForm.tsx:67-78 | the defaults are the mode's initial values with the built custom-field map, and nothing is submitting |
| PatientForm.PatientFormController.Fill | frontend/apps/web/lib/usePatientForm.tsx:72-78 | the form holds what the user entered |
| PatientForm.PatientFormController.Submit | frontend/apps/web/lib/usePatientForm.tsx:80-116 | nothing is sent unless the schema accepts; then `isSubmitting` is set and the mode's request with the encoded payload is sent |
| PatientForm.PatientFormController.Settle | frontend/apps/web/lib/usePatientForm.tsx:115-142 | success resets the form, invalidates `['patients']` once and shows a toast; failure only shows a destructive toast; `isSubmitting` is false afterwards |
| RegisterForm.CreateFormSchema | frontend/apps/web/components/forms/register-patient-form.tsx:69-89 | the dialog's schema accepts exactly what the patient form schema accepts |
| RegisterForm.CreateFormSchemaIgnoresFields | frontend/apps/web/components/forms/register-patient-form.tsx:69-89 | any two field lists give the same schema |
| RegisterForm.BuildRegisterFieldMap | frontend/apps/web/components/forms/register-patient-form.tsx:105-112 | the loop builds the default-only map |
| RegisterForm.RegisterFieldMapDefaults | frontend/apps/web/components/forms/register-patient-form.tsx:105-112 | with unique names, each field starts at `null` for NUMBER and `''` otherwise |
| RegisterForm.RegisterDefaultsNeedDateOfBirth | frontend/apps/web/components/forms/register-patient-form.tsx:114-131 | the defaults (INQUIRY, one primary HOME/CA address) have no date of birth: filled-in names and address lines are not enough, a date completes them |
| RegisterForm.AddAddressKeepsPrimaries | frontend/apps/web/components/forms/register-patient-form.tsx:332-339 | an added row is a blank, non-primary HOME/CA address; the number of primaries is kept |
| RegisterForm.RegisterFormController.constructor | frontend/apps/web/components/forms/register-patient-form.tsx:101-131 | the defaults carry the built map; the dialog is closed and nothing is submitting |
| RegisterForm.RegisterFormController.SetOpen | frontend/apps/web/components/forms/register-patient-form.tsx:102 | the dialog's flag follows `onOpenChange` |
| RegisterForm.RegisterFormController.Fill | frontend/apps/web/components/forms/register-patient-form.tsx:114-131 | the form holds what the user entered |
| RegisterForm.RegisterFormController.AddAddress | frontend/apps/web/components/forms/register-patient-form.tsx:332-339 | one blank, non-primary HOME/CA row is appended |
| RegisterForm.RegisterFormController.Submit | frontend/apps/web/components/forms/register-patient-form.tsx:138-172 | nothing is sent unless the schema accepts; then `isSubmitting` is set and the create payload with the encoded list is sent |
| RegisterForm.RegisterFormController.Settle | frontend/apps/web/components/forms/register-patient-form.tsx:172-197 | success resets the form, closes the dialog and invalidates `['patients']` once; failure shows one destructive toast and leaves the form and `open` unchanged; `isSubmitting` is false afterwards |
| Columns.StatusVariant | frontend/apps/web/components/patient-columns.tsx:80-88 | ACTIVE gives success, INQUIRY warning, CHURNED error and ONBOARDING info; "secondary" exactly for a missing status |
| Columns.StatusVariantInjective | frontend/apps/web/components/patient-columns.tsx:82-88 | distinct statuses get distinct badges |
| Columns.FilterByStatus | frontend/apps/web/components/patient-columns.tsx:77-79 | a row is kept exactly when the selected list contains its status; the result is a subsequence of the table in table order, with every copy of a kept row and none of a dropped one |
| Columns.SelectingAllStatusesKeepsRowsWithStatus | frontend/apps/web/components/patient-columns.tsx:77-79 | selecting every status keeps exactly the rows that have one |
| Columns.PrimaryAddressCell | frontend/apps/web/components/patient-columns.tsx:93-97 | the `full_address` of the first primary address, or nothing when none is primary |
| Columns.PrimaryAddressCellIgnoresLaterRows | frontend/apps/web/components/patient-columns.tsx:93-97 | addresses after the first primary one never change the cell |
| Columns.ToggleSorting | frontend/apps/web/components/patient-columns.tsx:16 | a click sorts on that column alone: descending exactly when it was ascending, ascending otherwise |
| Columns.ToggleTwice | frontend/apps/web/components/patient-columns.tsx:16 | after a click the column is sorted, and repeated clicks alternate between ascending and descending |
| Columns.SortKey | frontend/apps/web/components/patient-columns.tsx:10-69 | the Name column sorts and filters on `full_name`; the other name columns on their own field |
| EndToEnd.EncodedValuesAreAllSaved | frontend/apps/web/lib/usePatientForm.tsx:84-107 | with definitions that are the backend's fields, every emitted record names a known field, passes `clean` as sent and is unique; DRF's stripping is not part of this (see Findings) |
| EndToEnd.WhitespaceValueRejectedAsWritten | frontend/apps/web/lib/usePatientForm.tsx:88 | a TEXT value of three spaces is sent, passes `clean` as sent, is rejected by the create loop once stripped, and is skipped by the corrected encoding |
| EndToEnd.TrimmedEncodingIsAllSaved | frontend/apps/web/lib/usePatientForm.tsx:84-107 | with the corrected test, every record names a known field, is unique, and passes `clean` after stripping, so the create loop saves all of them |
| EndToEnd.Received | backend/api/serializers.py:171-188 | the backend accepts a payload exactly when its date parses and no name or required address line is empty after stripping; the accepted data holds the stripped names, middle name, address lines and text values |
| EndToEnd.SubmitAndCreate | frontend/apps/web/components/forms/register-patient-form.tsx:138-172 | a form encoded with the corrected test is refused, changing nothing, exactly when a name or required address line is blank after stripping; otherwise the patient holds the stripped scalars, exactly the stripped addresses and exactly the encoded values as read |
| EndToEnd.ListedPatientCells | frontend/apps/web/components/patient-columns.tsx:23-97 | a listed patient's Name cell is its `full_name`, its badge is never "secondary", and the primary cell is the first primary stored address |
| EndToEnd.PrimaryCellOfStoredAddresses | frontend/apps/web/components/patient-columns.tsx:93-97 | over the listed addresses, the cell is the `full_address` of the first primary stored address, and empty exactly when none is primary |
| EndToEnd.EditSeedKeepsDateOfBirth | frontend/apps/web/lib/usePatientForm.tsx:42 | the listed date of birth parses back, in edit mode, to the stored date |

## Left out

- **HTTP, React Query and toasts.** The network is reduced to abstract events: a request is recorded and settles as success or failure. Cache invalidation and toasts are recorded as lists of events. The generated service clients, the bearer header and console logging are not modelled.
- **Rendering components.** Layout, `useFieldArray` and the dialog components are not modelled. The only rendering rules kept are the "Add Address" row and `onOpenChange`.
- **Django and database internals.**
  - `check_password` and `validate_password` are parameters: a flag, and the list of validator messages.
  - Hashing, `create_user` and the `me` and `delete-account` actions are not modelled.
  - The change-password `save` is not modelled either.
  - The ORM is an in-memory table of sequences.
- **DRF field validation.**
  - Text.IsSpace: only space, tab, newline and carriage return are whitespace. Python's `str.strip` and JavaScript's `trim` also strip the other Unicode spaces.
  - Stripping is modelled where the form's payload meets the backend (`EndToEnd.Received`). `Serializers.Create`, `Serializers.Update` and the `Api` actions take data that has already been validated and stripped.
  - Serializers.ReadValue: `number_value` is not stripped or parsed, because the decimal format is not modelled.
  - Required keys, `max_length`, choice membership and the decimal format (15 digits, 2 places) are assumed to have passed before `create`/`update`.
  - The existence of the referenced `custom_field` is also assumed; `Serializers.Create`'s precondition states it.
  - That related field is not scoped to the provider, so a value may name another provider's field. The model allows this, as the code does.
- **Timestamps.** `created_at`, `modified_at` and the locale formatting of `created_at` are not modelled.
- **Time zones.** A parsed ISO date is midnight UTC, and `format` uses local time. The model treats dates as triples, as if both sides used one zone.
- Dates.IsCalendarDate: does not check month lengths or leap years.
- Dates.ParseDate: accepts only the `YYYY-MM-DD` form, not the other strings `new Date(...)` accepts.
- FormSchema.HasMinLength: counts Unicode scalar values, where zod's `.min` counts UTF-16 code units. A name of one character outside the Basic Multilingual Plane has length 2 in the form and passes `min(2)`, but the model rejects it.
- Dates.FormatDate: pads the year number itself. For year 0 (1 BC) date-fns `yyyy` writes "0001", and the model writes "0000". Negative years are not modelled.
- JsObject.ToText: numbers are integers. Fractional and exponent forms of `Number.prototype.toString` are not modelled.
- **Key order.** `Object.entries` lists integer-like keys first in numeric order. The record is modelled in plain insertion order.
- **Number shapes.** The backend's decimal `number_value` and the listed `value` are carried as decimal text. In the JSON they may be numbers. Decimal rounding is not modelled.
- Store.Database.InsertCustomField: the duplicate-name failure is a database integrity error in the code (the serializer does not carry `provider`). The model returns no field. Updating and deleting custom fields, and cascading deletes, are not modelled.
- **Concurrency.** No locking and no interleaving of requests. A second `Submit` before `Settle` simply records a second request.
- **Other endpoints.** The list, retrieve and destroy actions are reduced to the querysets and `Api.ScopedPatient`.

## Findings

| source | as written | input that shows it | evidently intended | confidence | as-written member | corrected member |
|---|---|---|---|---|---|---|
| backend/api/models.py:171-181 | `clean` raises `ValidationError`, but models.py never imports it, so every rejecting branch raises NameError | a TEXT field value with `text_value = ""` and `number_value = None` | raise a validation error with the branch's message | not executed | Models.CleanAsWritten (shown by Models.CleanAsWrittenRaisesNameError) | Models.Clean |
| frontend/apps/web/lib/usePatientForm.tsx:88 | the submit test `value !== ''` (also at frontend/apps/web/components/forms/register-patient-form.tsx:146) lets a value of only whitespace through; DRF strips `text_value` to `""`, `clean` rejects it, and the patient and its addresses stay saved without it | a TEXT field "note" with the value "   " | skip the value when `value.toString().trim() === ''` | not executed | PatientForm.Encode (shown by EndToEnd.WhitespaceValueRejectedAsWritten) | PatientForm.EncodeTrimmed (with EndToEnd.TrimmedEncodingIsAllSaved) |
| backend/api/serializers.py:99-102 | `UserCreateSerializer.validate` catches DRF's `ValidationError`, but `validate_password` raises Django's, so a weak password escapes with the validator's messages instead of `password_invalid` | username "ann", password and retype "abc", rejected as too short | fail with `password_invalid` | not executed | Serializers.ValidateUserCreateAsWritten (shown by Serializers.WeakPasswordEscapesAsWritten) | Serializers.ValidateUserCreate |
