/** The beneficiary table: the global search box, deleting the selected
    rows that the search leaves visible, and the pager buttons. */
module BeneficiaryTable {
  import opened Wrappers
  import opened Strings
  import opened Seqs
  import opened Beneficiaries

  /** The row as the table receives it; any of the searched fields may be
      null. */
  datatype TableRow = TableRow(
    id: int,
    firstName: Option<string>,
    lastName: Option<string>,
    number: Option<string>,
    address: Option<string>,
    gender: Option<string>)

  /** A stored row as it reaches the table: every searched field present. */
  function RowOf(r: Record): (t: TableRow)
    ensures t.id == r.id && t.firstName == Some(r.fields.firstName) && t.lastName == Some(r.fields.lastName)
    ensures t.number == Some(r.fields.number) && t.address == Some(r.fields.address)
    ensures t.gender == Some(r.fields.gender)
  {
    TableRow(r.id, Some(r.fields.firstName), Some(r.fields.lastName), Some(r.fields.number),
             Some(r.fields.address), Some(r.fields.gender))
  }

  /** `value?.toLowerCase().includes(query) ?? false`: a null value never
      matches. */
  predicate FieldMatches(value: Option<string>, query: string) {
    value.Some? && Contains(Lower(value.value), query)
  }

  /** `globalFilterFn`: the lower-cased query occurs in the lower-cased first
      name, last name, number, address or gender. */
  predicate GlobalFilter(row: TableRow, query: string) {
    var q := Lower(query);
    || FieldMatches(row.firstName, q)
    || FieldMatches(row.lastName, q)
    || FieldMatches(row.number, q)
    || FieldMatches(row.address, q)
    || FieldMatches(row.gender, q)
  }

  /** The table's filtered rows: the global filter runs only when the
      search text is not empty; with an empty search every row is shown. */
  predicate Shown(row: TableRow, query: string) {
    query == "" || GlobalFilter(row, query)
  }

  /** A row whose searched fields are all null matches no query. */
  lemma NullFieldsNeverMatch(row: TableRow, query: string)
    requires row.firstName.None? && row.lastName.None? && row.number.None?
    requires row.address.None? && row.gender.None?
    ensures !GlobalFilter(row, query)
  {
  }

  /** Changing the case of the query changes nothing: upper-casing it or
      lower-casing it keeps the same rows. */
  lemma QueryCaseIrrelevant(row: TableRow, query: string)
    ensures GlobalFilter(row, Upper(query)) == GlobalFilter(row, query)
    ensures GlobalFilter(row, Lower(query)) == GlobalFilter(row, query)
  {
    LowerOfUpper(query);
    LowerIdempotent(query);
  }

  /** A row whose searched fields are all null is shown exactly while the
      search box is empty. */
  lemma NullRowShownOnlyUnfiltered(row: TableRow, query: string)
    requires row.firstName.None? && row.lastName.None? && row.number.None?
    requires row.address.None? && row.gender.None?
    ensures Shown(row, query) <==> query == ""
  {
    NullFieldsNeverMatch(row, query);
  }

  /** The empty search shows every row: the table's rows are all kept. */
  lemma EmptyQueryShowsAll(rows: seq<TableRow>)
    ensures Filter(rows, (t: TableRow) => Shown(t, "")) == rows
  {
    FilterKeepsAll(rows, (t: TableRow) => Shown(t, ""));
  }

  /** The filter function itself, were it run on the empty search, would
      keep every row with a first name. */
  lemma EmptyQueryKeepsRows(row: TableRow)
    requires row.firstName.Some?
    ensures GlobalFilter(row, "")
  {
    assert OccursAt(Lower(row.firstName.value), Lower(""), 0);
  }

  /** A stored row matches a query that occurs in its first name, whatever
      the case of either. */
  lemma StoredRowFoundByName(r: Record, query: string)
    requires Contains(Lower(r.fields.firstName), Lower(query))
    ensures GlobalFilter(RowOf(r), query)
  {
  }

  /** `handleDelete`: the ids of the selected rows (by position) that the
      search leaves visible, in table order. */
  function SelectedIds(rows: seq<TableRow>, selected: set<nat>, query: string): (ids: seq<int>)
    ensures |ids| <= |rows|
    ensures forall i :: 0 <= i < |rows| && i in selected && Shown(rows[i], query) ==> rows[i].id in ids
    ensures forall x :: x in ids ==>
      exists i :: 0 <= i < |rows| && i in selected && Shown(rows[i], query) && rows[i].id == x
    decreases |rows|
  {
    if rows == [] then []
    else
      var n := |rows| - 1;
      var front := SelectedIds(rows[..n], selected, query);
      if n in selected && Shown(rows[n], query) then front + [rows[n].id] else front
  }

  /** With no search text, every selected row is deleted, and nothing
      else. */
  lemma EmptySearchDeletesSelection(rows: seq<TableRow>, selected: set<nat>)
    ensures forall i :: 0 <= i < |rows| && i in selected ==> rows[i].id in SelectedIds(rows, selected, "")
    ensures forall x :: x in SelectedIds(rows, selected, "") ==>
      exists i :: 0 <= i < |rows| && i in selected && rows[i].id == x
  {
  }

  /** The pager: "Previous" is disabled on the first page and asks for the
      page before; "Next" is disabled on the last page and asks for the page
      after. */
  predicate PreviousDisabled(currentPage: int) {
    currentPage == 1
  }

  predicate NextDisabled(currentPage: int, totalPages: int) {
    currentPage == totalPages
  }

  function PreviousPage(currentPage: int): int {
    currentPage - 1
  }

  function NextPage(currentPage: int): int {
    currentPage + 1
  }

  /** The paginator reports a current page and a last page of at least 1,
      but does not clamp a requested `?page=N` to the last page. From a page
      within range an enabled button asks for a neighbouring page within
      range; from a page past the last one "Next" stays enabled and asks for
      a page further out. Each button moves by exactly one page. */
  lemma PagerStaysInRange(currentPage: int, totalPages: int)
    requires 1 <= currentPage && 1 <= totalPages
    ensures !PreviousDisabled(currentPage) ==> 1 <= PreviousPage(currentPage) < currentPage
    ensures currentPage <= totalPages && !NextDisabled(currentPage, totalPages) ==>
      currentPage < NextPage(currentPage) <= totalPages
    ensures currentPage > totalPages ==>
      !NextDisabled(currentPage, totalPages) && NextPage(currentPage) > totalPages
    ensures NextPage(PreviousPage(currentPage)) == currentPage
  {
  }
}
