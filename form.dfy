/** The beneficiary form page: the previews of the stored documents, picking
    and removing new documents, the required-field check before submitting
    and the routing of the server's errors into notifications. `parse`
    stands for `JSON.parse` of a text. */
module BeneficiaryForm {
  import opened Wrappers
  import opened Strings
  import opened Seqs

  /** JavaScript truthiness of a string that may be null. */
  predicate Truthy(s: Option<string>) {
    s.Some? && s.value != ""
  }

  /** A document column as a page receives it. The controller stores the
      list as JSON text, which the model's `array` cast encodes once more, so
      it comes back as that text. The model's `'[]'` default is stored raw,
      so the cast decodes it into an empty array. */
  datatype StoredColumn = Null | Text(text: string) | EmptyArray {
    /** JavaScript truthiness: an array is truthy, even an empty one. */
    predicate Truthy() {
      Text? ==> text != ""
    }
  }

  /** The column of a row's document list: null when absent, the empty-array
      default when empty, and otherwise the text `encode` makes of the list. */
  function ColumnOf(list: Option<seq<string>>, encode: seq<string> -> string): (c: StoredColumn)
    ensures list.None? <==> c.Null?
    ensures list == Some([]) <==> c.EmptyArray?
    ensures c.Text? ==> list.Some? && c.text == encode(list.value)
  {
    if list.None? then Null
    else if list.value == [] then EmptyArray
    else Text(encode(list.value))
  }

  /** The list a stored column holds as the form reads it (`col &&
      col.trim() ? JSON.parse(col) : []`): nothing for a null, empty or blank
      text, what `parse` reads otherwise, and a thrown error (`None`) for an
      array, which has no `trim`. */
  function StoredList(col: StoredColumn, parse: string -> seq<string>): (r: Option<seq<string>>)
    ensures r.None? <==> col.EmptyArray?
    ensures col.Null? ==> r == Some([])
    ensures col.Text? && JsTrim(col.text) == "" ==> r == Some([])
    ensures col.Text? && JsTrim(col.text) != "" ==> r == Some(parse(col.text))
  {
    match col
    case Null => Some([])
    case EmptyArray => None
    case Text(text) => if JsTrim(text) != "" then Some(parse(text)) else Some([])
  }

  /** A non-empty list the page can read back: stored as text, it is
      parsed into the same list, provided `parse` undoes `encode` and the
      text is not blank. */
  lemma StoredListRoundTrip(list: seq<string>, encode: seq<string> -> string, parse: string -> seq<string>)
    requires list != [] && parse(encode(list)) == list && JsTrim(encode(list)) != ""
    ensures StoredList(ColumnOf(Some(list), encode), parse) == Some(list)
  {
  }

  /** A row created without documents holds the empty-array default, which
      the form cannot read. */
  lemma EmptyDefaultUnreadable(encode: seq<string> -> string, parse: string -> seq<string>)
    ensures StoredList(ColumnOf(Some([]), encode), parse).None?
  {
  }

  /** A picked file; `handle` stands for the browser's object identity. */
  datatype PickedFile = PickedFile(handle: nat, name: string)

  /** One entry of the document preview list; a new entry carries its file. */
  datatype Preview = Preview(id: string, name: string, url: string, isNew: bool, file: Option<PickedFile>)

  /** The name shown for stored document `i` at `path`: its stored original
      name when there is a non-empty one, else the last segment of the path,
      else "document". */
  function DocumentName(names: seq<string>, i: nat, path: string): (name: string)
    ensures name != ""
    ensures i < |names| && names[i] != "" ==> name == names[i]
    ensures !(i < |names| && names[i] != "") ==>
      name == "document" || ('/' !in name && |name| <= |path| && name == path[|path| - |name|..])
    ensures !(i < |names| && names[i] != "") && LastSegment(path) != "" ==> name == LastSegment(path)
  {
    if i < |names| && names[i] != "" then names[i]
    else if LastSegment(path) != "" then LastSegment(path)
    else "document"
  }

  /** The preview of stored document `i` at `path`: identified by its path,
      shown from public storage, not new and without a picked file. */
  function StoredPreview(path: string, names: seq<string>, i: nat): (p: Preview)
    ensures p.id == path && p.url == "/storage/" + path
    ensures !p.isNew && p.file.None?
    ensures p.name == DocumentName(names, i, path)
  {
    Preview(path, DocumentName(names, i, path), "/storage/" + path, false, None)
  }

  /** The preview list built when the page opens, and whether the error
      toast shows: the paths are read only when their column is truthy; a
      column that cannot be read throws before any preview is added, and the
      `catch` shows the toast. Otherwise one entry per stored path, in
      order. */
  method InitialPreviews(paths: StoredColumn, names: StoredColumn, parse: string -> seq<string>)
    returns (docs: seq<Preview>, failed: bool)
    ensures failed <==> paths.Truthy() && (paths.EmptyArray? || names.EmptyArray?)
    ensures failed || !paths.Truthy() ==> docs == []
    ensures !failed ==> |docs| == |StoredList(paths, parse).value|
    ensures !failed ==> forall i :: 0 <= i < |docs| ==>
      docs[i] == StoredPreview(StoredList(paths, parse).value[i], StoredList(names, parse).value, i)
  {
    docs := [];
    failed := false;
    if !paths.Truthy() {
      return;
    }
    var pathList := StoredList(paths, parse);
    var nameList := StoredList(names, parse);
    if pathList.None? || nameList.None? {
      failed := true;
      return;
    }
    var ps := pathList.value;
    var ns := nameList.value;
    for i := 0 to |ps|
      invariant |docs| == i
      invariant forall k :: 0 <= k < i ==> docs[k] == StoredPreview(ps[k], ns, k)
    {
      docs := docs + [StoredPreview(ps[i], ns, i)];
    }
  }

  /** The picked files and the preview list of the form. */
  datatype Documents = Documents(selected: seq<PickedFile>, previews: seq<Preview>)

  /** The preview of a newly picked file; `id` and `url` are the generated
      identifier and object URL. */
  function NewPreview(f: PickedFile, id: string, url: string): Preview {
    Preview(id, f.name, url, true, Some(f))
  }

  /** `handleSupportingDocumentsChange`: the picked files go after the files
      already picked, their previews after the existing previews.
      `created[i]` is the identifier and object URL made for `files[i]`. */
  function SelectFiles(st: Documents, files: seq<PickedFile>, created: seq<(string, string)>): (r: Documents)
    requires |created| == |files|
    ensures r.selected == st.selected + files
    ensures |r.previews| == |st.previews| + |files|
    ensures r.previews[..|st.previews|] == st.previews
    ensures forall i :: 0 <= i < |files| ==>
      var p := r.previews[|st.previews| + i];
      p.id == created[i].0 && p.url == created[i].1 && p.name == files[i].name && p.isNew && p.file == Some(files[i])
  {
    var added := seq(|files|, i requires 0 <= i < |files| => NewPreview(files[i], created[i].0, created[i].1));
    Documents(st.selected + files, st.previews + added)
  }

  /** The first preview with identifier `id` (`find`). */
  function FindPreview(previews: seq<Preview>, id: string): (r: Option<Preview>)
    ensures r.None? <==> forall i :: 0 <= i < |previews| ==> previews[i].id != id
    ensures r.Some? ==> r.value in previews && r.value.id == id
    ensures previews != [] && previews[0].id == id ==> r == Some(previews[0])
  {
    if previews == [] then None
    else if previews[0].id == id then Some(previews[0])
    else FindPreview(previews[1..], id)
  }

  function OtherId(id: string): Preview -> bool {
    (p: Preview) => p.id != id
  }

  function OtherFile(f: PickedFile): PickedFile -> bool {
    (g: PickedFile) => g != f
  }

  /** The file the found preview carries, if any (`docToRemove?.file`). */
  function FileOf(found: Option<Preview>): Option<PickedFile> {
    if found.Some? then found.value.file else None
  }

  /** `handleRemoveNewDocument`: every preview with identifier `id` goes, and
      so does the file of the first of them from the picked files; nothing
      else changes and the order is kept. */
  function RemoveDocument(st: Documents, id: string): (r: Documents)
    ensures r.previews == Filter(st.previews, OtherId(id))
    ensures forall p :: p in r.previews ==> p.id != id
    ensures forall p :: p in st.previews && p.id != id ==> p in r.previews
    ensures FileOf(FindPreview(st.previews, id)).None? ==> r.selected == st.selected
    ensures FileOf(FindPreview(st.previews, id)).Some? ==>
      var f := FileOf(FindPreview(st.previews, id)).value;
      r.selected == Filter(st.selected, OtherFile(f)) && f !in r.selected
  {
    var removed := FileOf(FindPreview(st.previews, id));
    var previews := Filter(st.previews, OtherId(id));
    var selected := if removed.Some? then Filter(st.selected, OtherFile(removed.value)) else st.selected;
    Documents(selected, previews)
  }

  /** Picking one file and then removing its preview gives back the form as
      it was, when the generated identifier and the file are new to it. */
  lemma SelectThenRemove(st: Documents, f: PickedFile, id: string, url: string)
    requires forall i :: 0 <= i < |st.previews| ==> st.previews[i].id != id
    requires f !in st.selected
    ensures RemoveDocument(SelectFiles(st, [f], [(id, url)]), id) == st
  {
    var mid := SelectFiles(st, [f], [(id, url)]);
    var p := NewPreview(f, id, url);
    assert mid.previews == st.previews + [p];
    FindAppended(st.previews, p);
    FilterDropsLast(st.previews, p, OtherId(id));
    FilterDropsLast(st.selected, f, OtherFile(f));
  }

  /** Looking up the identifier of an appended preview that no earlier
      preview shares finds that preview. */
  lemma {:induction false} FindAppended(previews: seq<Preview>, p: Preview)
    requires forall i :: 0 <= i < |previews| ==> previews[i].id != p.id
    ensures FindPreview(previews + [p], p.id) == Some(p)
  {
    if previews != [] {
      assert (previews + [p])[1..] == previews[1..] + [p];
      FindAppended(previews[1..], p);
    }
  }

  /** The seven fields the page insists on, in the order it reports them. */
  const RequiredFields: seq<string> := [
    "first_name", "last_name", "beneficiary_number", "date_of_birth", "gender",
    "address", "nationality"]

  function IsEmptyIn(data: string -> string): string -> bool {
    (field: string) => data(field) == ""
  }

  /** The required fields left empty, in declaration order; `data` reads a
      form field by name. */
  function MissingFields(data: string -> string): (missing: seq<string>)
    ensures |missing| <= |RequiredFields|
    ensures forall f :: f in missing <==> f in RequiredFields && data(f) == ""
  {
    var missing := Filter(RequiredFields, IsEmptyIn(data));
    assert forall f :: f in RequiredFields && data(f) == "" ==> f in missing;
    missing
  }

  /** The notice shown instead of submitting. */
  function MissingNotice(missing: seq<string>): string {
    "Please fill in all required fields: " + Join(missing, ", ")
  }

  /** `submit` posts the form exactly when no required field is empty. */
  predicate CanSubmit(data: string -> string) {
    MissingFields(data) == []
  }

  lemma SubmitBlockedIff(data: string -> string)
    ensures !CanSubmit(data) <==> exists i :: 0 <= i < |RequiredFields| && data(RequiredFields[i]) == ""
  {
    if !CanSubmit(data) {
      var f := MissingFields(data)[0];
      assert f in MissingFields(data);
      var i :| 0 <= i < |RequiredFields| && RequiredFields[i] == f;
    } else {
      forall i | 0 <= i < |RequiredFields|
        ensures data(RequiredFields[i]) != ""
      {
        assert RequiredFields[i] !in MissingFields(data);
      }
    }
  }

  /** The error bag of a failed submission: its entries in order. */
  type ErrorBag = seq<(string, string)>

  /** The message under `key`, if the bag has one. */
  function Lookup(errs: ErrorBag, key: string): (r: Option<string>)
    ensures r.None? <==> forall i :: 0 <= i < |errs| ==> errs[i].0 != key
    ensures r.Some? ==> (key, r.value) in errs
  {
    if errs == [] then None
    else if errs[0].0 == key then Some(errs[0].1)
    else Lookup(errs[1..], key)
  }

  /** The keys that get a notification of their own. */
  const OwnKeys: seq<string> := ["error", "beneficiary_number", "profile_image", "supporting_documents"]

  function IsOtherKey(e: (string, string)): bool {
    e.0 !in OwnKeys
  }

  /** The messages of all other keys, in order. */
  function OtherMessages(errs: ErrorBag): (msgs: seq<string>)
    ensures |msgs| == |Filter(errs, IsOtherKey)|
    ensures forall i :: 0 <= i < |msgs| ==> msgs[i] == Filter(errs, IsOtherKey)[i].1
  {
    var others := Filter(errs, IsOtherKey);
    seq(|others|, i requires 0 <= i < |others| => others[i].1)
  }

  function Notice(prefix: string, msg: Option<string>): (r: seq<string>)
    ensures |r| == if Truthy(msg) then 1 else 0
    ensures Truthy(msg) ==> r[0] == prefix + msg.value
  {
    if Truthy(msg) then [prefix + msg.value] else []
  }

  function Flag(b: bool): nat {
    if b then 1 else 0
  }

  /** The notifications of the number, image and document errors, in that
      order, one for each that has a non-empty message. */
  function OwnNotices(errs: ErrorBag): (r: seq<string>)
    ensures |r| == Flag(Truthy(Lookup(errs, "beneficiary_number")))
                 + Flag(Truthy(Lookup(errs, "profile_image")))
                 + Flag(Truthy(Lookup(errs, "supporting_documents")))
    ensures Truthy(Lookup(errs, "beneficiary_number")) ==> r[0] == Lookup(errs, "beneficiary_number").value
    ensures var at := Flag(Truthy(Lookup(errs, "beneficiary_number")));
      Truthy(Lookup(errs, "profile_image")) ==> r[at] == "Profile image: " + Lookup(errs, "profile_image").value
    ensures var at := Flag(Truthy(Lookup(errs, "beneficiary_number"))) + Flag(Truthy(Lookup(errs, "profile_image")));
      Truthy(Lookup(errs, "supporting_documents")) ==>
        r[at] == "Supporting documents: " + Lookup(errs, "supporting_documents").value
  {
    Notice("", Lookup(errs, "beneficiary_number"))
      + Notice("Profile image: ", Lookup(errs, "profile_image"))
      + Notice("Supporting documents: ", Lookup(errs, "supporting_documents"))
  }

  /** `handleFormErrors`: the notifications shown, in order. A non-empty
      `error` message is shown alone; otherwise the number, image and
      document errors each get one when their message is non-empty, and all
      other messages one together, last. */
  function Notifications(errs: ErrorBag): (shown: seq<string>)
    ensures Truthy(Lookup(errs, "error")) ==> shown == [Lookup(errs, "error").value]
    ensures !Truthy(Lookup(errs, "error")) ==>
      |shown| == |OwnNotices(errs)| + Flag(OtherMessages(errs) != [])
    ensures !Truthy(Lookup(errs, "error")) ==> shown[..|OwnNotices(errs)|] == OwnNotices(errs)
    ensures !Truthy(Lookup(errs, "error")) && OtherMessages(errs) != [] ==>
      shown[|shown| - 1] == "Please correct the following: " + Join(OtherMessages(errs), "; ")
  {
    var err := Lookup(errs, "error");
    if Truthy(err) then [err.value]
    else
      var others := OtherMessages(errs);
      OwnNotices(errs) + (if others != [] then ["Please correct the following: " + Join(others, "; ")] else [])
  }

  /** Whatever follows a non-empty `error` message in the bag is never
      shown. */
  lemma {:induction false} ErrorHidesLaterEntries(errs: ErrorBag, later: ErrorBag)
    requires Truthy(Lookup(errs, "error"))
    ensures Notifications(errs + later) == Notifications(errs)
  {
    LookupPrefix(errs, later, "error");
  }

  lemma {:induction false} LookupPrefix(errs: ErrorBag, later: ErrorBag, key: string)
    requires Lookup(errs, key).Some?
    ensures Lookup(errs + later, key) == Lookup(errs, key)
  {
    if errs[0].0 != key {
      assert (errs + later)[1..] == errs[1..] + later;
      LookupPrefix(errs[1..], later, key);
    }
  }
}
