/**
 * The `custom_fields` record of the patient forms: a JavaScript object from
 * field names to form values. Property order is insertion order (what
 * `Object.entries` returns), so the record is an association list whose keys
 * are distinct; assigning an existing key replaces its value in place.
 */
module JsObject {
  import opened Wrappers
  import Text

  /** A value the form may hold for a custom field: `string | number | null | undefined`. */
  datatype FieldInput = Undefined | Null | Str(s: string) | Num(n: int)

  type FieldRecord = seq<(string, FieldInput)>

  predicate DistinctKeys(rec: FieldRecord) {
    forall i, j :: 0 <= i < j < |rec| ==> rec[i].0 != rec[j].0
  }

  function Lookup(rec: FieldRecord, key: string): (r: Option<FieldInput>)
    ensures r.Some? <==> exists i :: 0 <= i < |rec| && rec[i].0 == key
    ensures DistinctKeys(rec) ==> forall i :: 0 <= i < |rec| && rec[i].0 == key ==> r == Some(rec[i].1)
  {
    if rec == [] then None
    else if rec[0].0 == key then Some(rec[0].1)
    else Lookup(rec[1..], key)
  }

  /** `obj[key] = value`: an existing key keeps its place, a new key goes last. */
  function Set(rec: FieldRecord, key: string, value: FieldInput): (r: FieldRecord)
    ensures Lookup(rec, key).Some? ==> |r| == |rec| && forall i :: 0 <= i < |rec| ==> r[i].0 == rec[i].0
    ensures Lookup(rec, key).None? ==> r == rec + [(key, value)]
  {
    if rec == [] then [(key, value)]
    else if rec[0].0 == key then [(key, value)] + rec[1..]
    else [rec[0]] + Set(rec[1..], key, value)
  }

  /** After the assignment the key reads back the new value and every other key its old one. */
  lemma {:induction false} SetLookup(rec: FieldRecord, key: string, value: FieldInput, k: string)
    ensures Lookup(Set(rec, key, value), k) == if k == key then Some(value) else Lookup(rec, k)
  {
    if rec != [] && rec[0].0 != key {
      SetLookup(rec[1..], key, value, k);
    }
  }

  /** Assignment never duplicates a key. */
  lemma {:induction false} SetKeepsKeysDistinct(rec: FieldRecord, key: string, value: FieldInput)
    requires DistinctKeys(rec)
    ensures DistinctKeys(Set(rec, key, value))
  {
    var r := Set(rec, key, value);
    if Lookup(rec, key).None? {
      assert forall i :: 0 <= i < |rec| ==> r[i] == rec[i] && rec[i].0 != key;
    }
  }

  /** `value.toString()` for the values the encoding stringifies. */
  function ToText(v: FieldInput): (s: string)
    requires v.Str? || v.Num?
    ensures v.Str? ==> s == v.s
    ensures v.Num? ==> |s| >= 1
  {
    if v.Str? then v.s else Text.IntToDecimal(v.n)
  }

  /** The entries the submit handlers skip: `undefined`, `null` and `''`. */
  predicate IsBlank(v: FieldInput) {
    v == Undefined || v == Null || v == Str("")
  }

  /** A value that is not blank stringifies to a non-empty string. */
  lemma FilledTextIsNonEmpty(v: FieldInput)
    requires !IsBlank(v)
    ensures v.Str? || v.Num?
    ensures |ToText(v)| >= 1
  {
  }

  /**
   * A defined value whose text is empty or all whitespace:
   * `value.toString().trim() === ''`.
   */
  predicate WhitespaceOnly(v: FieldInput) {
    (v.Str? || v.Num?) && Text.Trim(ToText(v)) == []
  }

  /** A number's text starts with a digit or a sign, so it never trims to nothing. */
  lemma NumberIsNeverWhitespaceOnly(n: int)
    ensures !WhitespaceOnly(Num(n))
  {
    var s := ToText(Num(n));
    assert !Text.IsSpace(s[0]);
  }
}
