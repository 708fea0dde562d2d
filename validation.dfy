/** The beneficiary form request: trimming of the name-like inputs before
    validation, and the validation rules as a predicate that either yields the
    validated field set or the list of fields that failed. */
module Validation {
  import opened Wrappers
  import opened Strings
  import opened Dates
  import opened Beneficiaries

  /** An uploaded file as the server sees it. */
  datatype Upload = Upload(originalName: string, sizeBytes: nat, isImage: bool)

  /** The submitted form. A text input is `None` when it is absent or null; a
      date is `None` when it is absent or cannot be parsed. */
  datatype Request = Request(
    firstName: Option<string>,
    lastName: Option<string>,
    number: Option<string>,
    dateOfBirth: Option<Date>,
    gender: Option<string>,
    nationality: Option<string>,
    address: Option<string>,
    fatherName: Option<string>,
    fatherContact: Option<string>,
    motherName: Option<string>,
    motherContact: Option<string>,
    guardianName: Option<string>,
    guardianContact: Option<string>,
    occupation: Option<string>,
    healthBackground: Option<string>,
    emergencyContact: Option<string>,
    profileImage: Option<Upload>,
    documents: seq<Upload>)

  /** `trim($this->field)` as `prepareForValidation` calls it: PHP's `trim`
      turns null into the empty string. */
  function TrimAsWritten(v: Option<string>): (r: Option<string>)
    ensures r.Some? && r.value == PhpTrim(v.GetOr(""))
  {
    Some(PhpTrim(v.GetOr("")))
  }

  /** `prepareForValidation` as written: the six inputs are replaced by
      their trimmed values, an absent one by the empty string. */
  function PrepareAsWritten(r: Request): (p: Request)
  {
    r.(firstName := TrimAsWritten(r.firstName),
       lastName := TrimAsWritten(r.lastName),
       number := TrimAsWritten(r.number),
       fatherName := TrimAsWritten(r.fatherName),
       motherName := TrimAsWritten(r.motherName),
       guardianName := TrimAsWritten(r.guardianName))
  }

  /** As written, an absent parent or guardian name reaches the validator,
      and so the row, as the empty string rather than as null; the
      `nullable` rules let it through. */
  lemma PrepareAsWrittenTurnsNullIntoEmpty(r: Request, table: map<int, Record>, ignore: Option<int>)
    requires r.fatherName.None? && r.motherName.None? && r.guardianName.None?
    ensures PrepareAsWritten(r).fatherName == Some("")
    ensures PrepareAsWritten(r).motherName == Some("")
    ensures PrepareAsWritten(r).guardianName == Some("")
    ensures OptionalText(PrepareAsWritten(r).fatherName, true)
  {
  }

  /** Trims a present input and leaves an absent one absent. */
  function TrimInput(v: Option<string>): (r: Option<string>)
    ensures r.None? <==> v.None?
    ensures v.Some? ==> r.value == PhpTrim(v.value)
  {
    if v.None? then None else Some(PhpTrim(v.value))
  }

  /** `prepareForValidation` with null left as null: the first and last
      names, the beneficiary number and the three parent/guardian names are
      replaced by their trimmed values; every other input is left as it was. */
  function Prepare(r: Request): (p: Request)
  {
    r.(firstName := TrimInput(r.firstName),
       lastName := TrimInput(r.lastName),
       number := TrimInput(r.number),
       fatherName := TrimInput(r.fatherName),
       motherName := TrimInput(r.motherName),
       guardianName := TrimInput(r.guardianName))
  }

  /** Inputs that are absent stay absent; present ones are trimmed; the
      other inputs are untouched. */
  lemma PrepareKeepsAbsence(r: Request)
    ensures Prepare(r).fatherName.None? <==> r.fatherName.None?
    ensures Prepare(r).motherName.None? <==> r.motherName.None?
    ensures Prepare(r).guardianName.None? <==> r.guardianName.None?
    ensures r.fatherName.Some? ==> Prepare(r).fatherName == Some(PhpTrim(r.fatherName.value))
    ensures Prepare(r).gender == r.gender && Prepare(r).nationality == r.nationality
    ensures Prepare(r).address == r.address && Prepare(r).documents == r.documents
    ensures Prepare(r).profileImage == r.profileImage
  {
  }

  /** When all six inputs are present, the two preparations agree. */
  lemma PrepareAgreesWhenPresent(r: Request)
    requires r.firstName.Some? && r.lastName.Some? && r.number.Some?
    requires r.fatherName.Some? && r.motherName.Some? && r.guardianName.Some?
    ensures Prepare(r) == PrepareAsWritten(r)
  {
  }

  /** Preparing an already prepared request changes nothing. */
  lemma PrepareIdempotent(r: Request)
    ensures Prepare(Prepare(r)) == Prepare(r)
  {
    TrimByIdempotent(r.firstName.GetOr(""), IsPhpTrimChar);
    TrimByIdempotent(r.lastName.GetOr(""), IsPhpTrimChar);
    TrimByIdempotent(r.number.GetOr(""), IsPhpTrimChar);
    TrimByIdempotent(r.fatherName.GetOr(""), IsPhpTrimChar);
    TrimByIdempotent(r.motherName.GetOr(""), IsPhpTrimChar);
    TrimByIdempotent(r.guardianName.GetOr(""), IsPhpTrimChar);
  }

  const MaxLength := 255
  /** `max:2048` on a file, in bytes (the rule counts kilobytes of 1024 bytes). */
  const MaxImageBytes := 2048 * 1024
  const MaxDocumentBytes := 5120 * 1024

  /** Made only of characters PHP's `trim` strips. */
  predicate Blank(s: string) {
    forall i :: 0 <= i < |s| ==> IsPhpTrimChar(s[i])
  }

  /** A string is blank exactly when it trims to nothing. */
  lemma BlankIffTrimsToEmpty(s: string)
    ensures Blank(s) <==> PhpTrim(s) == ""
  {
    TrimByEmpty(s, IsPhpTrimChar);
  }

  /** Laravel's `required`: not null and not blank after trimming. */
  predicate Filled(v: Option<string>) {
    v.Some? && !Blank(v.value)
  }

  /** `regex:/^[a-zA-Z\s]+$/`. */
  predicate LettersAndSpaces(s: string) {
    |s| > 0 && forall i :: 0 <= i < |s| ==> IsAsciiLetter(s[i]) || IsPcreSpace(s[i])
  }

  /** `required|string|max:255` (plus the name pattern when `name` holds). */
  predicate RequiredText(v: Option<string>, name: bool) {
    Filled(v) && |v.value| <= MaxLength && (name ==> LettersAndSpaces(v.value))
  }

  /** `nullable|string|max:255` (plus the name pattern when `name` holds):
      a null or blank value skips the other rules. */
  predicate OptionalText(v: Option<string>, name: bool) {
    !Filled(v) || (|v.value| <= MaxLength && (name ==> LettersAndSpaces(v.value)))
  }

  predicate ImageOk(u: Option<Upload>) {
    u.None? || (u.value.isImage && u.value.sizeBytes <= MaxImageBytes)
  }

  predicate DocumentOk(u: Upload) {
    u.sizeBytes <= MaxDocumentBytes
  }

  /** `required|date`: present, and a real calendar day. */
  predicate DateOk(d: Option<Date>) {
    d.Some? && IsValid(d.value)
  }

  /** `required|in:Male,Female` (case-sensitive). */
  predicate GenderOk(g: Option<string>) {
    g == Some("Male") || g == Some("Female")
  }

  /** `required|string|max:255|unique:beneficiaries,beneficiary_number`,
      ignoring row `ignore` on update. */
  predicate NumberOk(n: Option<string>, table: map<int, Record>, ignore: Option<int>) {
    RequiredText(n, false) && NumberFree(n.value, table, ignore)
  }

  /** No error when `ok`, otherwise one naming `field`. */
  function Report(ok: bool, field: string): (errs: seq<string>)
    ensures errs == [] <==> ok
    ensures !ok ==> field in errs
  {
    if ok then [] else [field]
  }

  /** The failing fields, in the order `rules()` lists them: the text, date,
      enum and image rules, then one entry per oversized document. */
  function Errors(r: Request, table: map<int, Record>, ignore: Option<int>): (errs: seq<string>)
  {
    FieldErrors(r, table, ignore) + DocumentErrors(r.documents, 0)
  }

  /** The failing text, date, enum and image rules, in order. The
      `health_background` rule (`nullable|string`) cannot fail on a string
      and reports nothing. */
  function FieldErrors(r: Request, table: map<int, Record>, ignore: Option<int>): (errs: seq<string>)
  {
    RequiredErrors(r, table, ignore) + OptionalErrors(r)
  }

  /** The rules of the seven required fields, in order. */
  function RequiredErrors(r: Request, table: map<int, Record>, ignore: Option<int>): (errs: seq<string>)
    ensures errs == [] <==>
      RequiredText(r.firstName, true) && RequiredText(r.lastName, true) && NumberOk(r.number, table, ignore)
      && DateOk(r.dateOfBirth) && GenderOk(r.gender) && RequiredText(r.nationality, false)
      && RequiredText(r.address, false)
  {
    Report(RequiredText(r.firstName, true), "first_name")
    + Report(RequiredText(r.lastName, true), "last_name")
    + Report(NumberOk(r.number, table, ignore), "beneficiary_number")
    + Report(DateOk(r.dateOfBirth), "date_of_birth")
    + Report(GenderOk(r.gender), "gender")
    + Report(RequiredText(r.nationality, false), "nationality")
    + Report(RequiredText(r.address, false), "address")
  }

  /** The rules of the optional fields and of the profile image, in order. */
  function OptionalErrors(r: Request): (errs: seq<string>)
    ensures errs == [] <==>
      OptionalText(r.fatherName, true) && OptionalText(r.fatherContact, false)
      && OptionalText(r.motherName, true) && OptionalText(r.motherContact, false)
      && OptionalText(r.guardianName, true) && OptionalText(r.guardianContact, false)
      && OptionalText(r.occupation, false) && OptionalText(r.emergencyContact, false)
      && ImageOk(r.profileImage)
  {
    Report(OptionalText(r.fatherName, true), "father_name")
    + Report(OptionalText(r.fatherContact, false), "father_contact")
    + Report(OptionalText(r.motherName, true), "mother_name")
    + Report(OptionalText(r.motherContact, false), "mother_contact")
    + Report(OptionalText(r.guardianName, true), "guardian_name")
    + Report(OptionalText(r.guardianContact, false), "guardian_contact")
    + Report(OptionalText(r.occupation, false), "occupation")
    + Report(OptionalText(r.emergencyContact, false), "emergency_contact")
    + Report(ImageOk(r.profileImage), "profile_image")
  }

  /** `supporting_documents.*`: one error per oversized file, named by its index. */
  function DocumentErrors(docs: seq<Upload>, from: nat): (errs: seq<string>)
    ensures errs == [] <==> forall i :: 0 <= i < |docs| ==> DocumentOk(docs[i])
    ensures |errs| <= |docs|
    decreases |docs|
  {
    if docs == [] then []
    else (if DocumentOk(docs[0]) then [] else ["supporting_documents." + Decimal(from)])
         + DocumentErrors(docs[1..], from + 1)
  }

  /** Every rule holds. */
  predicate Passes(r: Request, table: map<int, Record>, ignore: Option<int>) {
    && RequiredText(r.firstName, true)
    && RequiredText(r.lastName, true)
    && NumberOk(r.number, table, ignore)
    && DateOk(r.dateOfBirth)
    && GenderOk(r.gender)
    && RequiredText(r.nationality, false)
    && RequiredText(r.address, false)
    && OptionalText(r.fatherName, true)
    && OptionalText(r.fatherContact, false)
    && OptionalText(r.motherName, true)
    && OptionalText(r.motherContact, false)
    && OptionalText(r.guardianName, true)
    && OptionalText(r.guardianContact, false)
    && OptionalText(r.occupation, false)
    && OptionalText(r.emergencyContact, false)
    && ImageOk(r.profileImage)
    && (forall i :: 0 <= i < |r.documents| ==> DocumentOk(r.documents[i]))
  }

  /** The error list is empty exactly when every rule holds. */
  lemma ErrorsEmptyIffPasses(r: Request, table: map<int, Record>, ignore: Option<int>)
    ensures Errors(r, table, ignore) == [] <==> Passes(r, table, ignore)
  {
  }

  /** The form request: trim, then validate. On success the validated field
      set, which holds the request's own values, the six prepared ones
      trimmed; otherwise the failing fields, all of them. */
  function Validate(req: Request, table: map<int, Record>, ignore: Option<int>): (res: Result<Fields, seq<string>>)
    ensures res.Ok? <==> Passes(Prepare(req), table, ignore)
    ensures res.Err? ==> res.error == Errors(Prepare(req), table, ignore) && res.error != []
    ensures res.Ok? ==> ValidatedShape(res.value, table, ignore)
    ensures res.Ok? ==>
      && req.firstName.Some? && res.value.firstName == PhpTrim(req.firstName.value)
      && req.lastName.Some? && res.value.lastName == PhpTrim(req.lastName.value)
      && req.number.Some? && res.value.number == PhpTrim(req.number.value)
    ensures res.Ok? ==>
      && Some(res.value.dateOfBirth) == req.dateOfBirth && Some(res.value.gender) == req.gender
      && Some(res.value.address) == req.address && Some(res.value.nationality) == req.nationality
    ensures res.Ok? ==>
      && res.value.fatherName == TrimInput(req.fatherName)
      && res.value.motherName == TrimInput(req.motherName)
      && res.value.guardianName == TrimInput(req.guardianName)
    ensures res.Ok? ==>
      && res.value.healthBackground == req.healthBackground
      && res.value.fatherContact == req.fatherContact && res.value.motherContact == req.motherContact
      && res.value.guardianContact == req.guardianContact && res.value.occupation == req.occupation
      && res.value.emergencyContact == req.emergencyContact
  {
    var p := Prepare(req);
    ErrorsEmptyIffPasses(p, table, ignore);
    if Passes(p, table, ignore) then
      var f := ToFields(p, table, ignore);
      ToFieldsShape(req, table, ignore);
      Ok(f)
    else
      Err(Errors(p, table, ignore))
  }

  /** The validated data of a request that passes. */
  function ToFields(p: Request, table: map<int, Record>, ignore: Option<int>): (f: Fields)
    requires Passes(p, table, ignore)
  {
    Fields(
      p.firstName.value, p.lastName.value, p.number.value, p.dateOfBirth.value,
      p.gender.value, p.address.value, p.nationality.value, p.healthBackground,
      p.fatherName, p.fatherContact, p.motherName, p.motherContact,
      p.guardianName, p.guardianContact, p.occupation, p.emergencyContact)
  }

  lemma ToFieldsShape(req: Request, table: map<int, Record>, ignore: Option<int>)
    requires Passes(Prepare(req), table, ignore)
    ensures ValidatedShape(ToFields(Prepare(req), table, ignore), table, ignore)
  {
    var p := Prepare(req);
    TrimmedShape(req.firstName.GetOr(""));
    TrimmedShape(req.lastName.GetOr(""));
    TrimmedShape(req.number.GetOr(""));
  }

  /** What every validated field set satisfies. */
  ghost predicate ValidatedShape(f: Fields, table: map<int, Record>, ignore: Option<int>) {
    && Trimmed(f.firstName) && LettersAndSpaces(f.firstName) && |f.firstName| <= MaxLength
    && Trimmed(f.lastName) && LettersAndSpaces(f.lastName) && |f.lastName| <= MaxLength
    && Trimmed(f.number) && f.number != "" && |f.number| <= MaxLength
    && NumberFree(f.number, table, ignore)
    && IsValid(f.dateOfBirth)
    && (f.gender == "Male" || f.gender == "Female")
    && !Blank(f.nationality) && |f.nationality| <= MaxLength
    && !Blank(f.address) && |f.address| <= MaxLength
  }

  /** Neither end is a character PHP's `trim` strips. */
  predicate Trimmed(s: string) {
    s == [] || (!IsPhpTrimChar(s[0]) && !IsPhpTrimChar(s[|s| - 1]))
  }

  lemma TrimmedShape(s: string)
    ensures Trimmed(PhpTrim(s))
    ensures PhpTrim(PhpTrim(s)) == PhpTrim(s)
  {
    TrimByIdempotent(s, IsPhpTrimChar);
  }

  /** A first name with a digit in it (after trimming) is rejected, and the
      error names `first_name`. */
  lemma RejectsDigitInFirstName(req: Request, table: map<int, Record>, ignore: Option<int>, i: int)
    requires req.firstName.Some?
    requires var n := PhpTrim(req.firstName.value); 0 <= i < |n| && '0' <= n[i] <= '9'
    ensures Validate(req, table, ignore).Err?
    ensures "first_name" in Validate(req, table, ignore).error
  {
    var p := Prepare(req);
    assert p.firstName == Some(PhpTrim(req.firstName.value));
    assert !LettersAndSpaces(p.firstName.value);
  }

  /** A gender other than exactly "Male" or "Female" is rejected, naming `gender`. */
  lemma RejectsOtherGender(req: Request, table: map<int, Record>, ignore: Option<int>)
    requires req.gender != Some("Male") && req.gender != Some("Female")
    ensures Validate(req, table, ignore).Err?
    ensures "gender" in Validate(req, table, ignore).error
  {
    assert Prepare(req).gender == req.gender;
  }

  /** A profile image over 2048 KB is rejected, naming `profile_image`. */
  lemma RejectsLargeImage(req: Request, table: map<int, Record>, ignore: Option<int>)
    requires req.profileImage.Some? && req.profileImage.value.sizeBytes > MaxImageBytes
    ensures Validate(req, table, ignore).Err?
    ensures "profile_image" in Validate(req, table, ignore).error
  {
    assert Prepare(req).profileImage == req.profileImage;
  }

  /** A supporting document over 5120 KB is rejected, naming its index. */
  lemma RejectsLargeDocument(req: Request, table: map<int, Record>, ignore: Option<int>, i: nat)
    requires i < |req.documents| && req.documents[i].sizeBytes > MaxDocumentBytes
    ensures Validate(req, table, ignore).Err?
    ensures "supporting_documents." + Decimal(i) in Validate(req, table, ignore).error
  {
    var p := Prepare(req);
    assert p.documents == req.documents;
    DocumentErrorReported(p, table, ignore, i);
    ErrorsEmptyIffPasses(p, table, ignore);
  }

  /** A document that fails its rule puts its own name in the error list. */
  lemma DocumentErrorReported(r: Request, table: map<int, Record>, ignore: Option<int>, i: nat)
    requires i < |r.documents| && !DocumentOk(r.documents[i])
    ensures "supporting_documents." + Decimal(i) in Errors(r, table, ignore)
  {
    DocumentErrorAt(r.documents, 0, i);
    var docErrs := DocumentErrors(r.documents, 0);
    assert "supporting_documents." + Decimal(i) in docErrs;
    assert Errors(r, table, ignore) == FieldErrors(r, table, ignore) + docErrs;
  }

  /** Oversized document `i` (counting from 0, the list's first index being
      `from`) is reported under its own index. */
  lemma {:induction false} DocumentErrorAt(docs: seq<Upload>, from: nat, i: nat)
    requires i < |docs| && !DocumentOk(docs[i])
    ensures "supporting_documents." + Decimal(from + i) in DocumentErrors(docs, from)
    decreases |docs|
  {
    if i > 0 {
      DocumentErrorAt(docs[1..], from + 1, i - 1);
    }
  }

  /** When updating row `id` without changing its number, the uniqueness rule
      does not object to the row's own number (given the unique index). */
  lemma UpdateKeepsOwnNumber(table: map<int, Record>, id: int)
    requires id in table && UniqueNumbers(table)
    ensures NumberFree(table[id].fields.number, table, Some(id))
    ensures !NumberFree(table[id].fields.number, table, None)
  {
    NumberFreeIgnoresSelf(table, id);
  }
}
