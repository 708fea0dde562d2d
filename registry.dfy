/** The beneficiary record and asset lifecycle: the rows of the
    `beneficiaries` table together with the set of paths stored on the public
    disk, and the controller's `store`, `update` and `destroy` actions that
    change both, plus the `index` search filter.

    Storage and database failures are inputs: `imageStored` says whether the
    profile image is written, document `i` is written exactly when
    `i < docsStored`, and `persisted` whether the row insert, update or delete
    succeeds. `t` is the value of `time()` for the request. */
module Registry {
  import opened Wrappers
  import opened Strings
  import opened Seqs
  import opened Beneficiaries
  import opened Validation

  /** How an action ends: the redirect with a success message, the
      validation errors, the 404 of route-model binding, or the error
      redirect after a storage or database exception. */
  datatype Outcome =
    | Created(id: int)
    | Updated
    | Deleted
    | Invalid(errors: seq<string>)
    | NotFound
    | StorageFailed
    | DatabaseFailed

  /** `storeAs('profiles', time() . '_' . $originalName)`. */
  function ProfilePath(t: nat, name: string): string {
    "profiles/" + Decimal(t) + "_" + name
  }

  /** The directory of a beneficiary's documents, with its trailing slash. */
  function DocumentFolder(number: string): string {
    "documents/" + number + "/"
  }

  /** `storeAs('documents/' . $number, time() . '_' . $originalName)`. */
  function DocumentPath(number: string, t: nat, name: string): string {
    DocumentFolder(number) + Decimal(t) + "_" + name
  }

  /** The paths of the submitted documents, in submission order. */
  function DocumentPaths(number: string, t: nat, docs: seq<Upload>): (paths: seq<string>)
    ensures |paths| == |docs|
    ensures forall i :: 0 <= i < |docs| ==> paths[i] == DocumentPath(number, t, docs[i].originalName)
  {
    seq(|docs|, i requires 0 <= i < |docs| => DocumentPath(number, t, docs[i].originalName))
  }

  /** The client names of the submitted documents, in submission order. */
  function DocumentNames(docs: seq<Upload>): (names: seq<string>)
    ensures |names| == |docs|
    ensures forall i :: 0 <= i < |docs| ==> names[i] == docs[i].originalName
  {
    seq(|docs|, i requires 0 <= i < |docs| => docs[i].originalName)
  }

  /** The paths written for the first `k` documents. */
  function StoredDocuments(number: string, t: nat, docs: seq<Upload>, k: nat): set<string>
    requires k <= |docs|
  {
    set i | 0 <= i < k :: DocumentPath(number, t, docs[i].originalName)
  }

  function Min(a: nat, b: nat): nat {
    if a <= b then a else b
  }

  /** PHP truthiness of a nullable string column: null, "" and "0" are false. */
  predicate Truthy(p: Option<string>) {
    p.Some? && p.value != "" && p.value != "0"
  }

  /** The stored paths of a row's documents. */
  function OldDocuments(row: Record): set<string> {
    if row.documentPaths.Some? then Elements(row.documentPaths.value) else {}
  }

  /** The image part of the data `store` hands to `create`. */
  function ImageEntry(req: Request, t: nat): Option<(string, string)> {
    if req.profileImage.Some? then
      Some((ProfilePath(t, req.profileImage.value.originalName), req.profileImage.value.originalName))
    else None
  }

  /** The document part of that data; `hasFile` is false for an empty list. */
  function DocumentEntry(number: string, t: nat, docs: seq<Upload>): Option<(seq<string>, seq<string>)> {
    if docs == [] then None else Some((DocumentPaths(number, t, docs), DocumentNames(docs)))
  }

  /** A file store throws before anything later in the request runs. */
  predicate ImageFails(req: Request, imageStored: bool) {
    req.profileImage.Some? && !imageStored
  }

  predicate DocumentsFail(req: Request, docsStored: nat) {
    docsStored < |req.documents|
  }

  /** The disk after a `store` that passed validation: nothing when the image
      store throws; otherwise the image and every document written before a
      failing one, which stay even when the request then fails. */
  function StoreDisk(disk: set<string>, req: Request, number: string, t: nat,
                     imageStored: bool, docsStored: nat): set<string>
  {
    if ImageFails(req, imageStored) then disk
    else
      disk + (if req.profileImage.Some? then {ProfilePath(t, req.profileImage.value.originalName)} else {})
      + StoredDocuments(number, t, req.documents, Min(docsStored, |req.documents|))
  }

  /** The nine nullable columns, named after their request keys
      (`health_background`, `father_name`, `father_contact`, `mother_name`,
      `mother_contact`, `guardian_name`, `guardian_contact`, `occupation`,
      `emergency_contact`). */
  datatype NullableColumn =
    | HealthBackground | FatherName | FatherContact | MotherName | MotherContact
    | GuardianName | GuardianContact | Occupation | EmergencyContact
  {
    /** The column's value in a field set. */
    function Of(f: Fields): Option<string> {
      match this
      case HealthBackground => f.healthBackground
      case FatherName => f.fatherName
      case FatherContact => f.fatherContact
      case MotherName => f.motherName
      case MotherContact => f.motherContact
      case GuardianName => f.guardianName
      case GuardianContact => f.guardianContact
      case Occupation => f.occupation
      case EmergencyContact => f.emergencyContact
    }
  }

  /** The value `update($data)` leaves in a nullable column: the stored one
      when the request omits the key (an omitted key has no value), the
      validated one otherwise. */
  function Kept(c: NullableColumn, f: Fields, stored: Fields, omitted: set<NullableColumn>): Option<string> {
    if c in omitted && c.Of(f).None? then c.Of(stored) else c.Of(f)
  }

  /** The columns after `update($data)` with `$data = validated()`: the
      required columns always take the validated values; `validated()`
      leaves out the keys the request omits, so those nullable columns keep
      their stored values. */
  function MergedFields(stored: Fields, f: Fields, omitted: set<NullableColumn>): (m: Fields)
    ensures m.firstName == f.firstName && m.lastName == f.lastName && m.number == f.number
      && m.dateOfBirth == f.dateOfBirth && m.gender == f.gender
      && m.address == f.address && m.nationality == f.nationality
  {
    f.(healthBackground := Kept(HealthBackground, f, stored, omitted),
       fatherName := Kept(FatherName, f, stored, omitted),
       fatherContact := Kept(FatherContact, f, stored, omitted),
       motherName := Kept(MotherName, f, stored, omitted),
       motherContact := Kept(MotherContact, f, stored, omitted),
       guardianName := Kept(GuardianName, f, stored, omitted),
       guardianContact := Kept(GuardianContact, f, stored, omitted),
       occupation := Kept(Occupation, f, stored, omitted),
       emergencyContact := Kept(EmergencyContact, f, stored, omitted))
  }

  /** Each nullable column of the merge: the stored value when the request
      omits its key, the validated one otherwise; a request carrying every
      key, as the edit form does, overwrites them all. */
  lemma MergedColumns(stored: Fields, f: Fields, omitted: set<NullableColumn>)
    ensures forall c: NullableColumn ::
      c.Of(MergedFields(stored, f, omitted)) == (if c in omitted && c.Of(f).None? then c.Of(stored) else c.Of(f))
    ensures omitted == {} ==> MergedFields(stored, f, omitted) == f
  {
    var m := MergedFields(stored, f, omitted);
    forall c: NullableColumn ensures c.Of(m) == Kept(c, f, stored, omitted) {
      match c
      case HealthBackground =>
      case FatherName =>
      case FatherContact =>
      case MotherName =>
      case MotherContact =>
      case GuardianName =>
      case GuardianContact =>
      case Occupation =>
      case EmergencyContact =>
    }
  }

  /** Keeping omitted columns cannot break the validation rules: the
      required columns, which the rules constrain, come from `f`. */
  lemma MergedKeepsShape(stored: Fields, f: Fields, omitted: set<NullableColumn>, table: map<int, Record>, ignore: Option<int>)
    requires ValidatedShape(f, table, ignore)
    ensures ValidatedShape(MergedFields(stored, f, omitted), table, ignore)
  {
  }

  /** The row after a successful `update`: the merged fields; the image
      columns only when a new image was sent; the document lists, wholesale,
      only when new documents were sent, filed under the number the row had
      before the update. */
  function UpdatedRow(row: Record, f: Fields, req: Request, omitted: set<NullableColumn>, t: nat): (r: Record)
    ensures r.id == row.id && r.fields == MergedFields(row.fields, f, omitted) && r.createdAt == row.createdAt
    ensures req.profileImage.None? ==>
      r.profileImagePath == row.profileImagePath && r.profileImageOriginalName == row.profileImageOriginalName
    ensures req.profileImage.Some? ==>
      (r.profileImagePath == Some(ProfilePath(t, req.profileImage.value.originalName))
       && r.profileImageOriginalName == Some(req.profileImage.value.originalName))
    ensures req.documents == [] ==>
      r.documentPaths == row.documentPaths && r.documentNames == row.documentNames
    ensures req.documents != [] ==>
      (r.documentPaths == Some(DocumentPaths(row.fields.number, t, req.documents))
       && r.documentNames == Some(DocumentNames(req.documents)))
    ensures ParallelLists(row) ==> ParallelLists(r)
  {
    var withImage :=
      if req.profileImage.Some? then
        row.(fields := MergedFields(row.fields, f, omitted),
             profileImagePath := Some(ProfilePath(t, req.profileImage.value.originalName)),
             profileImageOriginalName := Some(req.profileImage.value.originalName))
      else row.(fields := MergedFields(row.fields, f, omitted));
    if req.documents == [] then withImage
    else withImage.(documentPaths := Some(DocumentPaths(row.fields.number, t, req.documents)),
                    documentNames := Some(DocumentNames(req.documents)))
  }

  /** The disk after an `update` that passed validation. When a new image is
      sent, the old one (if truthy) is deleted first and the new one written;
      when new documents are sent, every old document is deleted and the new
      ones written, under the old number. A failing store ends the request
      with whatever was already deleted or written. */
  function UpdateDisk(disk: set<string>, row: Record, req: Request, t: nat,
                      imageStored: bool, docsStored: nat): set<string>
  {
    var afterDelete :=
      if req.profileImage.Some? && Truthy(row.profileImagePath) then disk - {row.profileImagePath.value}
      else disk;
    if ImageFails(req, imageStored) then afterDelete
    else
      var withImage :=
        afterDelete + (if req.profileImage.Some? then {ProfilePath(t, req.profileImage.value.originalName)} else {});
      if req.documents == [] then withImage
      else (withImage - OldDocuments(row))
           + StoredDocuments(row.fields.number, t, req.documents, Min(docsStored, |req.documents|))
  }

  /** The disk after `destroy`: the image (if truthy) and the whole document
      directory of the row's current number are gone. */
  function DestroyDisk(disk: set<string>, row: Record): set<string> {
    set p | p in disk && !StartsWith(p, DocumentFolder(row.fields.number))
                      && !(Truthy(row.profileImagePath) && p == row.profileImagePath.value)
  }

  class Registry {
    var table: map<int, Record>
    var disk: set<string>
    var nextId: int

    ghost predicate Valid()
      reads this
    {
      WellFormed(table, nextId)
    }

    constructor()
      ensures Valid()
      ensures table == map[] && disk == {} && nextId == 1
    {
      table := map[];
      disk := {};
      nextId := 1;
    }

    /** The `foreach` over the submitted documents: writes each under the
        folder of `number` and collects the parallel path and name lists,
        stopping at the first document that cannot be written. */
    method StoreDocuments(number: string, t: nat, docs: seq<Upload>, docsStored: nat)
      returns (ok: bool, paths: seq<string>, names: seq<string>)
      modifies this`disk
      ensures ok <==> |docs| <= docsStored
      ensures ok ==> paths == DocumentPaths(number, t, docs) && names == DocumentNames(docs)
      ensures disk == old(disk) + StoredDocuments(number, t, docs, Min(docsStored, |docs|))
    {
      paths := [];
      names := [];
      var i := 0;
      while i < |docs|
        invariant i <= |docs| && i <= docsStored
        invariant |paths| == i && |names| == i
        invariant forall k :: 0 <= k < i ==> paths[k] == DocumentPath(number, t, docs[k].originalName)
        invariant forall k :: 0 <= k < i ==> names[k] == docs[k].originalName
        invariant disk == old(disk) + StoredDocuments(number, t, docs, i)
      {
        if docsStored <= i {
          return false, paths, names;
        }
        var path := DocumentPath(number, t, docs[i].originalName);
        assert StoredDocuments(number, t, docs, i + 1) == StoredDocuments(number, t, docs, i) + {path};
        disk := disk + {path};
        paths := paths + [path];
        names := names + [docs[i].originalName];
        i := i + 1;
      }
      ok := true;
    }

    /** Deletes every path of `paths` from the disk. */
    method DeleteAll(paths: seq<string>)
      modifies this`disk
      ensures disk == old(disk) - Elements(paths)
    {
      var i := 0;
      while i < |paths|
        invariant i <= |paths|
        invariant disk == old(disk) - Elements(paths[..i])
      {
        assert paths[..i + 1] == paths[..i] + [paths[i]];
        assert Elements(paths[..i + 1]) == Elements(paths[..i]) + {paths[i]};
        disk := disk - {paths[i]};
        i := i + 1;
      }
      assert paths[..i] == paths;
    }

    /** `store`: validate, write the image, write the documents, insert the
        row. Each step runs only if the previous one did not throw; nothing
        written is rolled back. */
    method Store(req: Request, t: nat, imageStored: bool, docsStored: nat, persisted: bool)
      returns (out: Outcome)
      requires Valid()
      modifies this
      ensures Valid()
      ensures var v := Validate(req, old(table), None);
        v.Err? ==> out == Invalid(v.error) && table == old(table) && disk == old(disk) && nextId == old(nextId)
      ensures var v := Validate(req, old(table), None);
        v.Ok? ==> disk == StoreDisk(old(disk), req, v.value.number, t, imageStored, docsStored)
      ensures var v := Validate(req, old(table), None);
        v.Ok? ==> (out.Created? <==> !ImageFails(req, imageStored) && !DocumentsFail(req, docsStored) && persisted)
      ensures var v := Validate(req, old(table), None);
        out.Created? ==>
          && v.Ok?
          && out.id == old(nextId) && nextId == old(nextId) + 1
          && table == old(table)[out.id := NewRecord(out.id, v.value, ImageEntry(req, t),
                                                      DocumentEntry(v.value.number, t, req.documents), t)]
      ensures var v := Validate(req, old(table), None);
        v.Ok? && !out.Created? ==>
          && table == old(table) && nextId == old(nextId)
          && out == (if ImageFails(req, imageStored) || DocumentsFail(req, docsStored) then StorageFailed
                     else DatabaseFailed)
    {
      var v := Validate(req, table, None);
      if v.Err? {
        return Invalid(v.error);
      }
      out := CreateValidated(v.value, req, t, imageStored, docsStored, persisted);
    }

    /** The part of `store` after validation, given the validated data `f`. */
    method CreateValidated(f: Fields, req: Request, t: nat, imageStored: bool, docsStored: nat, persisted: bool)
      returns (out: Outcome)
      requires Valid() && NumberFree(f.number, table, None)
      modifies this
      ensures Valid()
      ensures disk == StoreDisk(old(disk), req, f.number, t, imageStored, docsStored)
      ensures out.Created? <==> !ImageFails(req, imageStored) && !DocumentsFail(req, docsStored) && persisted
      ensures out.Created? ==>
        && out.id == old(nextId) && nextId == old(nextId) + 1
        && table == old(table)[out.id := NewRecord(out.id, f, ImageEntry(req, t),
                                                    DocumentEntry(f.number, t, req.documents), t)]
      ensures !out.Created? ==>
        && table == old(table) && nextId == old(nextId)
        && out == (if ImageFails(req, imageStored) || DocumentsFail(req, docsStored) then StorageFailed
                   else DatabaseFailed)
    {
      if req.profileImage.Some? {
        if !imageStored {
          return StorageFailed;
        }
        disk := disk + {ProfilePath(t, req.profileImage.value.originalName)};
      }
      var documents: Option<(seq<string>, seq<string>)> := None;
      if req.documents != [] {
        var ok, paths, names := StoreDocuments(f.number, t, req.documents, docsStored);
        if !ok {
          return StorageFailed;
        }
        documents := Some((paths, names));
      } else {
        assert StoredDocuments(f.number, t, req.documents, 0) == {};
      }
      if !persisted {
        return DatabaseFailed;
      }
      var id := nextId;
      table := table[id := NewRecord(id, f, ImageEntry(req, t), documents, t)];
      nextId := nextId + 1;
      return Created(id);
    }

    /** `update` of row `id`: validate (the row's own number allowed),
        replace the image if one was sent, replace the documents if any were
        sent, then save the row. `omitted` holds the nullable columns whose keys
        the request leaves out; those keep their stored values. */
    method Update(id: int, req: Request, omitted: set<NullableColumn>, t: nat, imageStored: bool, docsStored: nat, persisted: bool)
      returns (out: Outcome)
      requires Valid()
      modifies this
      ensures Valid() && nextId == old(nextId)
      ensures id !in old(table) ==> out == NotFound && table == old(table) && disk == old(disk)
      ensures id in old(table) ==> var v := Validate(req, old(table), Some(id));
        v.Err? ==> out == Invalid(v.error) && table == old(table) && disk == old(disk)
      ensures id in old(table) ==> var v := Validate(req, old(table), Some(id));
        v.Ok? ==> disk == UpdateDisk(old(disk), old(table)[id], req, t, imageStored, docsStored)
      ensures id in old(table) ==> var v := Validate(req, old(table), Some(id));
        v.Ok? ==>
          && (out == Updated <==> !ImageFails(req, imageStored) && !DocumentsFail(req, docsStored) && persisted)
          && (out == Updated ==> table == old(table)[id := UpdatedRow(old(table)[id], v.value, req, omitted, t)])
          && (out != Updated ==> table == old(table))
          && (out != Updated ==> out == (if ImageFails(req, imageStored) || DocumentsFail(req, docsStored)
                                         then StorageFailed else DatabaseFailed))
    {
      if id !in table {
        return NotFound;
      }
      var v := Validate(req, table, Some(id));
      if v.Err? {
        return Invalid(v.error);
      }
      out := UpdateValidated(id, v.value, req, omitted, t, imageStored, docsStored, persisted);
    }

    /** The part of `update` after validation, given the validated data `f`. */
    method UpdateValidated(id: int, f: Fields, req: Request, omitted: set<NullableColumn>, t: nat, imageStored: bool, docsStored: nat, persisted: bool)
      returns (out: Outcome)
      requires Valid() && id in table && NumberFree(f.number, table, Some(id))
      modifies this
      ensures Valid() && nextId == old(nextId)
      ensures disk == UpdateDisk(old(disk), old(table)[id], req, t, imageStored, docsStored)
      ensures out == Updated <==> !ImageFails(req, imageStored) && !DocumentsFail(req, docsStored) && persisted
      ensures out == Updated ==> table == old(table)[id := UpdatedRow(old(table)[id], f, req, omitted, t)]
      ensures out != Updated ==> table == old(table)
      ensures out != Updated ==>
        out == (if ImageFails(req, imageStored) || DocumentsFail(req, docsStored) then StorageFailed else DatabaseFailed)
    {
      var row := table[id];
      if req.profileImage.Some? {
        if Truthy(row.profileImagePath) {
          disk := disk - {row.profileImagePath.value};
        }
        if !imageStored {
          return StorageFailed;
        }
        disk := disk + {ProfilePath(t, req.profileImage.value.originalName)};
      }
      if req.documents != [] {
        if row.documentPaths.Some? {
          DeleteAll(row.documentPaths.value);
        }
        var ok, paths, names := StoreDocuments(row.fields.number, t, req.documents, docsStored);
        if !ok {
          return StorageFailed;
        }
      }
      if !persisted {
        return DatabaseFailed;
      }
      ReplaceKeepsWellFormed(table, nextId, id, UpdatedRow(row, f, req, omitted, t));
      table := table[id := UpdatedRow(row, f, req, omitted, t)];
      return Updated;
    }

    /** `destroy` of row `id`: delete the image and the document directory
        of the row's current number, then the row. A failing row delete
        leaves the row without its files. */
    method Destroy(id: int, persisted: bool) returns (out: Outcome)
      requires Valid()
      modifies this
      ensures Valid() && nextId == old(nextId)
      ensures id !in old(table) ==> out == NotFound && table == old(table) && disk == old(disk)
      ensures id in old(table) ==> disk == DestroyDisk(old(disk), old(table)[id])
      ensures id in old(table) ==> (out == Deleted <==> persisted)
      ensures id in old(table) && persisted ==> table == old(table) - {id}
      ensures id in old(table) && !persisted ==> out == DatabaseFailed && table == old(table)
    {
      if id !in table {
        return NotFound;
      }
      var row := table[id];
      if Truthy(row.profileImagePath) {
        disk := disk - {row.profileImagePath.value};
      }
      var folder := DocumentFolder(row.fields.number);
      disk := set p | p in disk && !StartsWith(p, folder);
      if !persisted {
        return DatabaseFailed;
      }
      table := table - {id};
      return Deleted;
    }
  }

  /** A row created from validated data references an image exactly when one
      was sent, always has document lists (empty when none were sent), and
      entry `i` of both lists comes from the `i`-th submitted document. */
  lemma CreatedRowShape(id: int, f: Fields, req: Request, t: nat)
    ensures var r := NewRecord(id, f, ImageEntry(req, t), DocumentEntry(f.number, t, req.documents), t);
      && (r.profileImagePath.Some? <==> req.profileImage.Some?)
      && (req.profileImage.Some? ==>
            r.profileImagePath == Some(ProfilePath(t, req.profileImage.value.originalName))
            && r.profileImageOriginalName == Some(req.profileImage.value.originalName))
      && r.documentPaths.Some? && r.documentNames.Some?
      && |r.documentPaths.value| == |r.documentNames.value| == |req.documents|
      && (forall i :: 0 <= i < |req.documents| ==>
            r.documentPaths.value[i] == DocumentPath(f.number, t, req.documents[i].originalName)
            && r.documentNames.value[i] == req.documents[i].originalName)
      && ParallelLists(r)
  {
  }

  /** No rollback: when a document store fails after the image was written,
      the image and the documents written before the failing one stay on
      the disk (while no row is added). */
  lemma StoreFailureLeavesFiles(disk: set<string>, req: Request, number: string, t: nat,
                                imageStored: bool, docsStored: nat)
    requires !ImageFails(req, imageStored) && DocumentsFail(req, docsStored)
    ensures disk <= StoreDisk(disk, req, number, t, imageStored, docsStored)
    ensures req.profileImage.Some? ==>
      ProfilePath(t, req.profileImage.value.originalName) in StoreDisk(disk, req, number, t, imageStored, docsStored)
    ensures forall i :: 0 <= i < docsStored ==>
      DocumentPath(number, t, req.documents[i].originalName) in StoreDisk(disk, req, number, t, imageStored, docsStored)
  {
    forall i | 0 <= i < docsStored
      ensures DocumentPath(number, t, req.documents[i].originalName) in StoredDocuments(number, t, req.documents, docsStored)
    {
    }
  }

  /** A successful store adds exactly the image and the document paths. */
  lemma StoreAddsExactlyItsFiles(disk: set<string>, req: Request, number: string, t: nat,
                                 imageStored: bool, docsStored: nat, p: string)
    requires !ImageFails(req, imageStored) && !DocumentsFail(req, docsStored)
    ensures p in StoreDisk(disk, req, number, t, imageStored, docsStored) <==>
      || p in disk
      || (req.profileImage.Some? && p == ProfilePath(t, req.profileImage.value.originalName))
      || (exists i :: 0 <= i < |req.documents| && p == DocumentPaths(number, t, req.documents)[i])
  {
    var stored := StoredDocuments(number, t, req.documents, |req.documents|);
    var paths := DocumentPaths(number, t, req.documents);
    if p in stored {
      var i :| 0 <= i < |req.documents| && p == DocumentPath(number, t, req.documents[i].originalName);
      assert p == paths[i];
    }
    if exists i :: 0 <= i < |req.documents| && p == paths[i] {
      var i :| 0 <= i < |req.documents| && p == paths[i];
      assert p in stored;
    }
  }

  /** An update that sends no files leaves the disk as it was. */
  lemma UpdateWithoutFilesKeepsDisk(disk: set<string>, row: Record, req: Request, t: nat,
                                    imageStored: bool, docsStored: nat)
    requires req.profileImage.None? && req.documents == []
    ensures UpdateDisk(disk, row, req, t, imageStored, docsStored) == disk
  {
  }

  /** A stored image path is not a document path. */
  lemma ProfileIsNotDocument(path: string, number: string, t: nat, name: string)
    requires StartsWith(path, "profiles/")
    ensures path != DocumentPath(number, t, name)
  {
    assert path[0] == 'p';
    assert DocumentPath(number, t, name)[0] == 'd';
  }

  /** Update with a new image that is written: the old image file (when the
      column is truthy and names another file) is gone and the new one is
      on the disk. */
  lemma UpdateReplacesImage(disk: set<string>, row: Record, req: Request, t: nat,
                            imageStored: bool, docsStored: nat)
    requires req.profileImage.Some? && imageStored
    requires Truthy(row.profileImagePath) && StartsWith(row.profileImagePath.value, "profiles/")
    requires row.profileImagePath.value != ProfilePath(t, req.profileImage.value.originalName)
    requires forall q :: q in OldDocuments(row) ==> StartsWith(q, "documents/")
    ensures row.profileImagePath.value !in UpdateDisk(disk, row, req, t, imageStored, docsStored)
    ensures !DocumentsFail(req, docsStored) ==>
      ProfilePath(t, req.profileImage.value.originalName) in UpdateDisk(disk, row, req, t, imageStored, docsStored)
  {
    var old_ := row.profileImagePath.value;
    forall i | 0 <= i < Min(docsStored, |req.documents|)
      ensures old_ != DocumentPath(row.fields.number, t, req.documents[i].originalName)
    {
      ProfileIsNotDocument(old_, row.fields.number, t, req.documents[i].originalName);
    }
    if req.documents != [] && !DocumentsFail(req, docsStored) {
      var newPath := ProfilePath(t, req.profileImage.value.originalName);
      assert newPath[0] == 'p';
      assert forall q :: q in OldDocuments(row) ==> q[0] == 'd';
    }
  }

  /** The old image is deleted before the new one is written: when the write
      fails, the old file is gone although the row (left unchanged) still
      references it. */
  lemma UpdateImageFailureLosesOldImage(disk: set<string>, row: Record, req: Request, t: nat, docsStored: nat)
    requires req.profileImage.Some? && Truthy(row.profileImagePath)
    ensures row.profileImagePath.value !in UpdateDisk(disk, row, req, t, false, docsStored)
  {
  }

  /** Update with new documents, all written: every new path is on the disk,
      and every old document path is gone unless it is one of the files just
      written. */
  lemma UpdateReplacesDocuments(disk: set<string>, row: Record, req: Request, t: nat,
                                imageStored: bool, docsStored: nat)
    requires req.documents != [] && !ImageFails(req, imageStored) && !DocumentsFail(req, docsStored)
    ensures var d := UpdateDisk(disk, row, req, t, imageStored, docsStored);
      forall i :: 0 <= i < |req.documents| ==> DocumentPaths(row.fields.number, t, req.documents)[i] in d
    ensures var d := UpdateDisk(disk, row, req, t, imageStored, docsStored);
      forall q :: q in OldDocuments(row) && q in d ==>
        q in StoredDocuments(row.fields.number, t, req.documents, |req.documents|)
  {
    var d := UpdateDisk(disk, row, req, t, imageStored, docsStored);
    forall i | 0 <= i < |req.documents|
      ensures DocumentPaths(row.fields.number, t, req.documents)[i] in d
    {
      assert DocumentPaths(row.fields.number, t, req.documents)[i]
        in StoredDocuments(row.fields.number, t, req.documents, |req.documents|);
    }
  }

  /** Destroy leaves no file of the row's document directory and not its
      image, and keeps every other file. */
  lemma DestroyRemovesExactlyItsFiles(disk: set<string>, row: Record, p: string)
    ensures p in DestroyDisk(disk, row) <==>
      && p in disk
      && !StartsWith(p, DocumentFolder(row.fields.number))
      && !(Truthy(row.profileImagePath) && p == row.profileImagePath.value)
  {
  }

  /** Two document folders of different numbers without '/' are disjoint. */
  lemma FoldersDisjoint(n: string, m: string, rest: string)
    requires '/' !in n && '/' !in m && n != m
    ensures !StartsWith(DocumentFolder(n) + rest, DocumentFolder(m))
  {
    var p := DocumentFolder(n) + rest;
    var q := DocumentFolder(m);
    if |q| <= |p| {
      var j: nat;
      if |n| < |m| {
        j := 10 + |n|;
        assert p[j] == '/' && q[j] == m[|n|];
      } else if |m| < |n| {
        j := 10 + |m|;
        assert q[j] == '/' && p[j] == n[|m|];
      } else {
        var k :| 0 <= k < |n| && n[k] != m[k];
        j := 10 + k;
        assert p[j] == n[k] && q[j] == m[k];
      }
      assert p[..|q|][j] != q[j];
    }
  }

  /** Files filed under the old number survive the destroy of a row whose
      number was changed: update files new documents under the number the
      row had before, destroy deletes the directory of the current one. */
  lemma RenamedRowOrphansDocuments(disk: set<string>, row: Record, f: Fields, req: Request, omitted: set<NullableColumn>, t: nat, i: nat)
    requires req.documents != [] && i < |req.documents|
    requires '/' !in row.fields.number && '/' !in f.number && f.number != row.fields.number
    requires var r := UpdatedRow(row, f, req, omitted, t);
      DocumentPath(row.fields.number, t, req.documents[i].originalName) in disk
      && !(Truthy(r.profileImagePath)
           && r.profileImagePath.value == DocumentPath(row.fields.number, t, req.documents[i].originalName))
    ensures var r := UpdatedRow(row, f, req, omitted, t);
      r.documentPaths.value[i] == DocumentPath(row.fields.number, t, req.documents[i].originalName)
      && r.documentPaths.value[i] in DestroyDisk(disk, r)
  {
    var rest := Decimal(t) + "_" + req.documents[i].originalName;
    assert DocumentPath(row.fields.number, t, req.documents[i].originalName) == DocumentFolder(row.fields.number) + rest;
    FoldersDisjoint(row.fields.number, f.number, rest);
  }

  /** A number containing '/' nests its folder inside another number's:
      destroying the row numbered `m` also deletes the documents of a row
      numbered `m + "/" + suffix`. */
  lemma NestedNumberLosesDocuments(disk: set<string>, row: Record, suffix: string, t: nat, name: string)
    ensures DocumentPath(row.fields.number + "/" + suffix, t, name) !in DestroyDisk(disk, row)
  {
    var p := DocumentPath(row.fields.number + "/" + suffix, t, name);
    var q := DocumentFolder(row.fields.number);
    assert p == q + suffix + "/" + Decimal(t) + "_" + name;
    assert p[..|q|] == q;
  }

  /** `index`'s search condition: the term occurs in the first name, last
      name, beneficiary number or address (SQL `LIKE '%term%'` under a
      case-insensitive collation). */
  predicate Matches(row: Record, term: string) {
    || ContainsIgnoringCase(row.fields.firstName, term)
    || ContainsIgnoringCase(row.fields.lastName, term)
    || ContainsIgnoringCase(row.fields.number, term)
    || ContainsIgnoringCase(row.fields.address, term)
  }

  /** `index`: when `search` is filled (present and not blank) keep the
      matching rows, in order; otherwise keep every row. */
  function Search(rows: seq<Record>, search: Option<string>): (r: seq<Record>)
    ensures !Filled(search) ==> r == rows
    ensures Filled(search) ==> forall i :: 0 <= i < |r| ==> r[i] in rows && Matches(r[i], search.value)
    ensures Filled(search) ==> forall i :: 0 <= i < |rows| && Matches(rows[i], search.value) ==> rows[i] in r
  {
    if Filled(search) then Filter(rows, row => Matches(row, search.value)) else rows
  }

  /** The search does not depend on the case of the term. */
  lemma SearchIgnoresCase(rows: seq<Record>, term: string)
    ensures Search(rows, Some(Lower(term))) == Search(rows, Some(term))
  {
    LowerIdempotent(term);
    assert Blank(Lower(term)) <==> Blank(term) by {
      forall i | 0 <= i < |term| ensures IsPhpTrimChar(Lower(term)[i]) <==> IsPhpTrimChar(term[i]) {
      }
    }
    FilterCongruent(rows, row => Matches(row, Lower(term)), row => Matches(row, term));
  }
}
