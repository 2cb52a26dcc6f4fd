/**
 * The patient table's column logic (frontend/apps/web/components/patient-columns.tsx):
 * the status badge variant, the status facet filter, the primary-address
 * cell, the header click that toggles sorting, and the sort key of the
 * columns that have one.
 */
module Columns {
  import opened Wrappers
  import opened Models
  import opened Serializers

  datatype BadgeVariant = Success | Warning | Error | Info | Secondary

  /** `status ? variantMap[status] : "secondary"`. */
  function StatusVariant(status: Option<Status>): (v: BadgeVariant)
    ensures v == Secondary <==> status.None?
    ensures status == Some(Active) ==> v == Success
    ensures status == Some(Inquiry) ==> v == Warning
    ensures status == Some(Churned) ==> v == Error
    ensures status == Some(Onboarding) ==> v == Info
  {
    if status.None? then Secondary
    else match status.value
      case Active => Success
      case Inquiry => Warning
      case Churned => Error
      case Onboarding => Info
  }

  /** Each status has its own badge. */
  lemma StatusVariantInjective(a: Option<Status>, b: Option<Status>)
    requires StatusVariant(a) == StatusVariant(b)
    ensures a == b
  {
  }

  /** The status column's `filterFn`: the selected list contains the row's status. */
  predicate StatusFilter(row: PatientListItem, selected: seq<Status>) {
    row.status.Some? && row.status.value in selected
  }

  /** `sub` is `rows` with some elements dropped, the rest kept in their order. */
  predicate IsSubsequence<T(==)>(sub: seq<T>, rows: seq<T>)
    decreases |rows|
  {
    if sub == [] then true
    else if rows == [] then false
    else (sub[0] == rows[0] && IsSubsequence(sub[1..], rows[1..])) || IsSubsequence(sub, rows[1..])
  }

  /**
   * The rows the status facet keeps: a subsequence of the table, in table
   * order, holding every copy of each kept row and nothing else.
   */
  function FilterByStatus(rows: seq<PatientListItem>, selected: seq<Status>): (r: seq<PatientListItem>)
    ensures |r| <= |rows|
    ensures forall x :: x in r <==> x in rows && StatusFilter(x, selected)
    ensures IsSubsequence(r, rows)
    ensures forall x :: multiset(r)[x] == if StatusFilter(x, selected) then multiset(rows)[x] else 0
  {
    if rows == [] then []
    else
      var rest := FilterByStatus(rows[1..], selected);
      assert rows == [rows[0]] + rows[1..];
      assert forall x :: x in rows <==> x == rows[0] || x in rows[1..];
      assert forall x :: multiset(rows)[x] == multiset([rows[0]])[x] + multiset(rows[1..])[x];
      if StatusFilter(rows[0], selected) then
        var r := [rows[0]] + rest;
        assert r[1..] == rest;
        assert forall x :: multiset(r)[x] == multiset([rows[0]])[x] + multiset(rest)[x];
        r
      else rest
  }

  /** Selecting every status keeps exactly the rows that have one. */
  lemma SelectingAllStatusesKeepsRowsWithStatus(rows: seq<PatientListItem>)
    ensures forall x :: x in FilterByStatus(rows, [Inquiry, Onboarding, Active, Churned]) <==> x in rows && x.status.Some?
  {
    forall x | x in rows && x.status.Some? ensures StatusFilter(x, [Inquiry, Onboarding, Active, Churned]) {
      match x.status.value
      case Inquiry =>
      case Onboarding =>
      case Active =>
      case Churned =>
    }
  }

  /** `addresses.find(a => a.is_primary)?.full_address`. */
  function PrimaryAddressCell(addrs: seq<ListedAddress>): (r: Option<string>)
    ensures r.None? <==> forall i :: 0 <= i < |addrs| ==> !addrs[i].isPrimary
    ensures r.Some? ==> exists i :: 0 <= i < |addrs| && addrs[i].isPrimary && addrs[i].fullAddress == r.value
                                    && forall j :: 0 <= j < i ==> !addrs[j].isPrimary
  {
    if addrs == [] then None
    else if addrs[0].isPrimary then Some(addrs[0].fullAddress)
    else
      var r := PrimaryAddressCell(addrs[1..]);
      if r.Some? then
        var i :| 0 <= i < |addrs[1..]| && addrs[1..][i].isPrimary && addrs[1..][i].fullAddress == r.value
                 && forall j :: 0 <= j < i ==> !addrs[1..][j].isPrimary;
        assert addrs[i + 1].isPrimary && forall j :: 0 <= j < i + 1 ==> !addrs[j].isPrimary;
        r
      else r
  }

  /** The cell shows the first primary address, whatever follows it. */
  lemma PrimaryAddressCellIgnoresLaterRows(addrs: seq<ListedAddress>, more: seq<ListedAddress>)
    requires PrimaryAddressCell(addrs).Some?
    ensures PrimaryAddressCell(addrs + more) == PrimaryAddressCell(addrs)
  {
    if !addrs[0].isPrimary {
      assert (addrs + more)[1..] == addrs[1..] + more;
      PrimaryAddressCellIgnoresLaterRows(addrs[1..], more);
    }
  }

  // ---------------------------------------------------------------------------
  // Sorting

  datatype SortDirection = Unsorted | Ascending | Descending

  datatype Column = NameColumn | FirstNameColumn | MiddleNameColumn | LastNameColumn

  /** The table's single-column sorting state: which column, descending or not. */
  type Sorting = Option<(Column, bool)>

  /** `column.getIsSorted()`. */
  function IsSorted(sorting: Sorting, c: Column): SortDirection {
    if sorting.Some? && sorting.value.0 == c then (if sorting.value.1 then Descending else Ascending)
    else Unsorted
  }

  /**
   * The header's `onClick`: `toggleSorting(getIsSorted() === "asc")`, which
   * sorts on this column alone, descending exactly when it was ascending.
   */
  function ToggleSorting(sorting: Sorting, c: Column): (r: Sorting)
    ensures IsSorted(r, c) == Descending <==> IsSorted(sorting, c) == Ascending
    ensures IsSorted(r, c) == Ascending <==> IsSorted(sorting, c) != Ascending
    ensures forall d :: d != c ==> IsSorted(r, d) == Unsorted
  {
    Some((c, IsSorted(sorting, c) == Ascending))
  }

  /** Repeated clicks alternate: two clicks return an ascending column to ascending, and any column ends up sorted. */
  lemma ToggleTwice(sorting: Sorting, c: Column)
    ensures IsSorted(ToggleSorting(sorting, c), c) != Unsorted
    ensures IsSorted(sorting, c) == Ascending ==> IsSorted(ToggleSorting(ToggleSorting(sorting, c), c), c) == Ascending
    ensures IsSorted(sorting, c) != Ascending ==> IsSorted(ToggleSorting(ToggleSorting(sorting, c), c), c) == Descending
  {
  }

  /** The `accessorKey` a sortable column sorts and filters on; the "Name" column uses `full_name`. */
  function SortKey(c: Column, row: PatientListItem): (k: Option<string>)
    ensures c == NameColumn ==> k == Some(row.fullName)
    ensures c == FirstNameColumn ==> k == Some(row.firstName)
    ensures c == LastNameColumn ==> k == Some(row.lastName)
    ensures c == MiddleNameColumn ==> k == row.middleName
  {
    match c
    case NameColumn => Some(row.fullName)
    case FirstNameColumn => Some(row.firstName)
    case MiddleNameColumn => row.middleName
    case LastNameColumn => Some(row.lastName)
  }
}
