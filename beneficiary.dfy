/** The beneficiary row: the columns of the `beneficiaries` table, the
    mass-assignable attributes of the Eloquent model, the model's defaults, and
    the table invariants the schema enforces. */
module Beneficiaries {
  import opened Wrappers
  import opened Strings
  import opened Dates

  /** The sixteen scalar columns a validated request fills in. The seven
      non-nullable columns are plain values; the nullable ones are options. */
  datatype Fields = Fields(
    firstName: string,
    lastName: string,
    number: string,
    dateOfBirth: Date,
    gender: string,
    address: string,
    nationality: string,
    healthBackground: Option<string>,
    fatherName: Option<string>,
    fatherContact: Option<string>,
    motherName: Option<string>,
    motherContact: Option<string>,
    guardianName: Option<string>,
    guardianContact: Option<string>,
    occupation: Option<string>,
    emergencyContact: Option<string>)

  /** One row: an auto-assigned id, the scalar columns, the four nullable asset
      columns (the document lists already decoded from JSON) and the creation
      time. */
  datatype Record = Record(
    id: int,
    fields: Fields,
    profileImagePath: Option<string>,
    profileImageOriginalName: Option<string>,
    documentPaths: Option<seq<string>>,
    documentNames: Option<seq<string>>,
    createdAt: int)

  /** The attribute names the model lets `create`/`update` fill. */
  const Fillable: seq<string> := [
    "first_name", "last_name", "beneficiary_number", "date_of_birth", "gender",
    "address", "nationality", "health_background", "father_name", "father_contact",
    "mother_name", "mother_contact", "guardian_name", "guardian_contact", "occupation",
    "emergency_contact", "profile_image_path", "profile_image_original_name",
    "supporting_documents_paths", "supporting_documents_names"]

  /** Mass assignment: only the fillable attributes of an input map reach the row. */
  function MassAssign<V>(attrs: map<string, V>): (r: map<string, V>)
    ensures r.Keys <= attrs.Keys
    ensures forall k :: k in r ==> r[k] == attrs[k] && k in Fillable
    ensures forall k :: k in attrs && k in Fillable ==> k in r
  {
    map k | k in attrs && k in Fillable :: attrs[k]
  }

  /** There are twenty fillable names, and neither the key `id` nor the
      uploaded-file keys a validated request carries (`profile_image`,
      `supporting_documents`) are among them, so mass assignment drops them. */
  lemma FillableShape<V>(attrs: map<string, V>)
    ensures |Fillable| == 20
    ensures "id" !in MassAssign(attrs)
    ensures "profile_image" !in MassAssign(attrs)
    ensures "supporting_documents" !in MassAssign(attrs)
  {
    assert "id" !in Fillable;
    assert "profile_image" !in Fillable;
    assert "supporting_documents" !in Fillable;
  }

  /** A new row as `Beneficiary::create` builds it: asset columns not supplied
      are null, except the document lists, whose model default is the empty
      list. */
  function NewRecord(id: int, fields: Fields, image: Option<(string, string)>,
                     documents: Option<(seq<string>, seq<string>)>, createdAt: int): (r: Record)
    ensures r.id == id && r.fields == fields && r.createdAt == createdAt
    ensures image.None? ==> r.profileImagePath.None? && r.profileImageOriginalName.None?
    ensures image.Some? ==> (r.profileImagePath == Some(image.value.0)
                          && r.profileImageOriginalName == Some(image.value.1))
    ensures documents.None? ==> r.documentPaths == Some([]) && r.documentNames == Some([])
    ensures documents.Some? ==> (r.documentPaths == Some(documents.value.0)
                              && r.documentNames == Some(documents.value.1))
  {
    Record(
      id, fields,
      if image.Some? then Some(image.value.0) else None,
      if image.Some? then Some(image.value.1) else None,
      Some(if documents.Some? then documents.value.0 else []),
      Some(if documents.Some? then documents.value.1 else []),
      createdAt)
  }

  /** The two document lists are null together, or lists of equal length
      whose i-th entries describe the same file. */
  predicate ParallelLists(r: Record) {
    (r.documentPaths.None? <==> r.documentNames.None?)
    && (r.documentPaths.Some? ==> |r.documentPaths.value| == |r.documentNames.value|)
  }

  /** Two numbers the table's case-insensitive collation treats as one. */
  predicate SameNumber(a: string, b: string) {
    Lower(a) == Lower(b)
  }

  /** The unique index on `beneficiary_number`, under the case-insensitive
      collation. */
  ghost predicate UniqueNumbers(table: map<int, Record>) {
    forall a, b :: a in table && b in table && a != b ==>
      !SameNumber(table[a].fields.number, table[b].fields.number)
  }

  /** Every row is stored under its own id and ids are below the next
      auto-increment value; every row keeps its document lists parallel. */
  ghost predicate WellFormed(table: map<int, Record>, nextId: int) {
    && UniqueNumbers(table)
    && (forall id :: id in table ==> table[id].id == id && id < nextId)
    && (forall id :: id in table ==> ParallelLists(table[id]))
  }

  /** Replacing row `id` by a row with the same id, parallel document lists
      and a number no other row holds keeps the table well formed. */
  lemma ReplaceKeepsWellFormed(table: map<int, Record>, nextId: int, id: int, r: Record)
    requires WellFormed(table, nextId) && id in table
    requires r.id == id && ParallelLists(r) && NumberFree(r.fields.number, table, Some(id))
    ensures WellFormed(table[id := r], nextId)
  {
  }

  /** No row other than `ignore` holds `number`, up to case
      (`Rule::unique('beneficiaries')->ignore($id)`, whose query compares
      under the column's case-insensitive collation). */
  predicate NumberFree(number: string, table: map<int, Record>, ignore: Option<int>) {
    forall id :: id in table && Some(id) != ignore ==> !SameNumber(table[id].fields.number, number)
  }

  /** A row keeping its own number passes the uniqueness rule when it is the
      row being updated, and fails it otherwise. */
  lemma NumberFreeIgnoresSelf(table: map<int, Record>, id: int)
    requires id in table
    ensures NumberFree(table[id].fields.number, table, Some(id)) <==> UniqueNumbersAt(table, id)
    ensures !NumberFree(table[id].fields.number, table, None)
  {
  }

  /** No other row shares the number of row `id`. */
  ghost predicate UniqueNumbersAt(table: map<int, Record>, id: int)
    requires id in table
  {
    forall other :: other in table && other != id ==> !SameNumber(table[other].fields.number, table[id].fields.number)
  }

  /** A number differing from a stored one only in the case of its letters
      is taken: it fails the uniqueness rule for every row but its owner. */
  lemma CaseVariantTaken(table: map<int, Record>, id: int, ignore: Option<int>)
    requires id in table && ignore != Some(id)
    ensures !NumberFree(Upper(table[id].fields.number), table, ignore)
    ensures !NumberFree(Lower(table[id].fields.number), table, ignore)
  {
    LowerOfUpper(table[id].fields.number);
    LowerIdempotent(table[id].fields.number);
  }
}
