/**
 * The three viewsets (backend/api/api.py): which serializer and permission an
 * action gets, how every queryset is scoped to the requesting user, and the
 * `perform_create` hooks that stamp that user as provider.
 */
module Api {
  import opened Wrappers
  import opened Models
  import opened Store
  import Serializers

  // ---------------------------------------------------------------------------
  // Dispatch on `self.action`

  datatype PatientSerializerKind = PatientListSerializer | PatientCreateSerializer

  /** PatientViewSet.get_serializer_class. */
  function PatientSerializerFor(action: string): (k: PatientSerializerKind)
    ensures k == PatientListSerializer <==> action == "list" || action == "retrieve"
  {
    if action in ["list", "retrieve"] then PatientListSerializer else PatientCreateSerializer
  }

  datatype UserSerializerKind = UserCreateSerializer | UserCurrentSerializer | UserChangePasswordSerializer

  /** UserViewSet.get_serializer_class; the class attribute default is UserCurrentSerializer. */
  function UserSerializerFor(action: string): (k: UserSerializerKind)
    ensures k == UserCreateSerializer <==> action == "create"
    ensures k == UserChangePasswordSerializer <==> action == "change_password"
    ensures k == UserCurrentSerializer <==> action != "create" && action != "change_password"
  {
    if action == "create" then UserCreateSerializer
    else if action == "me" then UserCurrentSerializer
    else if action == "change_password" then UserChangePasswordSerializer
    else UserCurrentSerializer
  }

  datatype Permission = AllowAny | IsAuthenticated

  /** UserViewSet.get_permissions over the class default `[IsAuthenticated]`. */
  function UserPermission(action: string): (p: Permission)
    ensures p == AllowAny <==> action == "create"
  {
    if action == "create" then AllowAny else IsAuthenticated
  }

  /** Whether a permission lets a request through. */
  predicate Permits(p: Permission, authenticated: bool) {
    p == AllowAny || authenticated
  }

  /** An anonymous request reaches the user viewset only to register. */
  lemma AnonymousUserRequestsOnlyCreate(action: string)
    ensures Permits(UserPermission(action), false) <==> action == "create"
    ensures Permits(UserPermission(action), true)
  {
  }

  // ---------------------------------------------------------------------------
  // get_queryset

  /** `queryset.filter(provider=request.user)` over a table whose rows carry a provider. */
  function ProviderScoped<V>(rows: map<nat, V>, provider: V -> UserId, user: UserId): (r: set<nat>)
    ensures forall id :: id in r <==> id in rows && provider(rows[id]) == user
  {
    set id | id in rows && provider(rows[id]) == user
  }

  function PatientProvider(p: Patient): UserId { p.provider }

  function FieldProvider(f: CustomField): UserId { f.provider }

  /** PatientViewSet.get_queryset: the ids of the requester's patients. */
  function PatientQueryset(patients: map<nat, Patient>, user: UserId): set<nat> {
    ProviderScoped(patients, PatientProvider, user)
  }

  /** CustomFieldViewSet.get_queryset: the ids of the requester's custom fields. */
  function CustomFieldQueryset(fields: map<nat, CustomField>, user: UserId): set<nat> {
    ProviderScoped(fields, FieldProvider, user)
  }

  /** UserViewSet.get_queryset: `filter(pk=request.user.pk)`. */
  function UserQueryset(users: set<UserId>, requester: UserId): (r: set<UserId>)
    ensures r <= {requester}
    ensures requester in users <==> r == {requester}
  {
    set u | u in users && u == requester
  }

  /** No record is visible to two different users. */
  lemma QuerysetsOfDifferentUsersAreDisjoint(db: Database, a: UserId, b: UserId)
    requires a != b
    ensures PatientQueryset(db.patients, a) !! PatientQueryset(db.patients, b)
    ensures CustomFieldQueryset(db.customFields, a) !! CustomFieldQueryset(db.customFields, b)
  {
  }

  /** `get_object` for a detail route: a record outside the queryset is "not found". */
  function ScopedPatient(patients: map<nat, Patient>, user: UserId, id: nat): (r: Option<Patient>)
    ensures r.Some? <==> id in PatientQueryset(patients, user)
    ensures r.Some? ==> r.value == patients[id] && r.value.provider == user
  {
    if id in patients && patients[id].provider == user then Some(patients[id]) else None
  }

  // ---------------------------------------------------------------------------
  // perform_create, and an update through a detail route

  datatype ApiError = NotFound | WriteFailed(error: Serializers.WriteError)

  /**
   * PatientViewSet.perform_create: `serializer.save(provider=request.user)`.
   * The new patient belongs to the requester, whatever the payload said.
   */
  method PerformCreatePatient(db: Database, user: UserId, data: Serializers.PatientWrite)
    returns (id: nat, r: Result<(), Serializers.WriteError>)
    requires db.Valid()
    requires forall v :: v in Serializers.ValuesOrNone(data.customFieldValues) ==> v.customField in db.customFields
    modifies db
    ensures db.Valid()
    ensures id !in old(db.patients) && id in db.patients && db.patients[id].provider == user
    ensures PatientQueryset(db.patients, user) == PatientQueryset(old(db.patients), user) + {id}
    ensures forall u :: u != user ==> PatientQueryset(db.patients, u) == PatientQueryset(old(db.patients), u)
    ensures db.patients[id] == Patient(id, user, data.firstName, data.middleName, data.lastName,
                                       data.dateOfBirth, data.status)
    ensures db.AddressesOf(id) == data.addresses
    ensures var vs := Serializers.ValuesOrNone(data.customFieldValues);
            var k := Serializers.FirstRejected(vs, old(db.customFields));
            && db.FieldValuesOf(id) == vs[..k]
            && (r.Ok? <==> k == |vs|)
            && (r.Err? ==> r.error.index == k)
    ensures forall q :: q != id ==> db.AddressesOf(q) == old(db.AddressesOf(q))
                                    && db.FieldValuesOf(q) == old(db.FieldValuesOf(q))
    ensures db.customFields == old(db.customFields)
  {
    id, r := Serializers.Create(db, user, data);
  }

  /** CustomFieldViewSet.perform_create: the field is the requester's, and names stay unique per provider. */
  method PerformCreateCustomField(db: Database, user: UserId, name: string, fieldType: FieldType,
                                  description: Option<string>)
    returns (r: Option<CustomField>)
    requires db.Valid()
    modifies db
    ensures db.Valid()
    ensures r.Some? ==> r.value.provider == user && r.value.name == name
                        && CustomFieldQueryset(db.customFields, user)
                           == CustomFieldQueryset(old(db.customFields), user) + {r.value.id}
    ensures r.None? <==> exists f :: f in old(db.customFields) && old(db.customFields)[f].provider == user
                                     && old(db.customFields)[f].name == name
    ensures forall u :: u != user ==> CustomFieldQueryset(db.customFields, u) == CustomFieldQueryset(old(db.customFields), u)
    ensures r.Some? ==> r.value == CustomField(old(db.nextFieldId), user, name, fieldType, description)
                        && r.value.id !in old(db.customFields)
                        && db.customFields == old(db.customFields)[r.value.id := r.value]
    ensures r.None? ==> db.customFields == old(db.customFields)
    ensures db.patients == old(db.patients) && db.addresses == old(db.addresses)
            && db.fieldValues == old(db.fieldValues)
  {
    r := db.InsertCustomField(user, name, fieldType, description);
  }

  /**
   * An update (PUT or PATCH) of patient `id`: not found unless the patient is
   * in the requester's queryset, in which case the serializer's update runs.
   */
  method PerformUpdatePatient(db: Database, user: UserId, id: nat, patch: Serializers.PatientPatch)
    returns (r: Result<(), ApiError>)
    requires db.Valid()
    requires forall v :: v in Serializers.ValuesOrNone(patch.customFieldValues) ==> v.customField in db.customFields
    modifies db
    ensures db.Valid()
    ensures r == Err(NotFound) <==> id !in PatientQueryset(old(db.patients), user)
    ensures r == Err(NotFound) ==> db.patients == old(db.patients) && db.addresses == old(db.addresses)
                                   && db.fieldValues == old(db.fieldValues)
    ensures r != Err(NotFound) ==>
              && db.patients == old(db.patients)[id := Serializers.AssignAll(old(db.patients)[id], patch.scalars)]
              && db.patients[id].provider == user
              && db.AddressesOf(id) == Serializers.AddressesOrNone(patch.addresses)
    ensures r != Err(NotFound) ==>
              var vs := Serializers.ValuesOrNone(patch.customFieldValues);
              var k := Serializers.FirstRejected(vs, old(db.customFields));
              && db.FieldValuesOf(id) == vs[..k]
              && (r.Ok? <==> k == |vs|)
              && (r.Err? ==> r.error.WriteFailed? && r.error.error.index == k)
    ensures db.customFields == old(db.customFields)
    ensures forall q :: q != id ==> db.AddressesOf(q) == old(db.AddressesOf(q))
                                    && db.FieldValuesOf(q) == old(db.FieldValuesOf(q))
  {
    var found := ScopedPatient(db.patients, user, id);
    if found.None? {
      return Err(NotFound);
    }
    var saved := Serializers.Update(db, id, patch);
    Serializers.AssignAllFields(old(db.patients)[id], patch.scalars, Serializers.FirstNameField);
    r := if saved.Ok? then Ok(()) else Err(WriteFailed(saved.error));
  }
}
