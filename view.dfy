/** The beneficiary detail page: the age shown beside the date of birth and
    the downloads of the stored documents. `today` is the clock's date and
    `parse` stands for `JSON.parse` of a text. */
module BeneficiaryView {
  import opened Wrappers
  import opened Strings
  import opened Dates
  import opened BeneficiaryForm

  /** `calculateAge`: the difference of years, decremented when today's
      (month, day) is still before the birthday's. */
  method CalculateAge(birth: Date, today: Date) returns (age: int)
    ensures age == Age(birth, today)
    ensures AnniversaryReached(birth, age, today) && !AnniversaryReached(birth, age + 1, today)
    ensures today.month == birth.month && today.day == birth.day ==> age == today.year - birth.year
    ensures NotAfter(birth, today) ==> age >= 0
  {
    age := today.year - birth.year;
    var monthDiff := today.month - birth.month;
    if monthDiff < 0 || (monthDiff == 0 && today.day < birth.day) {
      age := age - 1;
    }
    if NotAfter(birth, today) {
      AgeNonNegative(birth, today);
    }
  }

  /** The file name a download is saved under: the text after the last '/'
      of the path, or "document" when that is empty. */
  function DownloadName(path: string): (name: string)
    ensures name != "" && '/' !in name
    ensures LastSegment(path) != "" ==> name == LastSegment(path)
    ensures LastSegment(path) == "" ==> name == "document"
    ensures name == "document" || (|name| <= |path| && name == path[|path| - |name|..])
  {
    var segment := LastSegment(path);
    assert |segment| <= |path| && segment == path[|path| - |segment|..];
    assert '/' !in "document";
    if segment != "" then segment else "document"
  }

  /** One triggered download: the link target and the saved name. */
  datatype Download = Download(href: string, name: string)

  /** The list `downloadDocuments` walks (`JSON.parse(col || '[]')`):
      nothing for a null or empty text, what `parse` reads otherwise, and a
      thrown error (`None`) for an array, which `JSON.parse` reads as the
      empty text. */
  function DocumentList(col: StoredColumn, parse: string -> seq<string>): (r: Option<seq<string>>)
    ensures r.None? <==> col.EmptyArray?
    ensures !col.Truthy() ==> r == Some([])
    ensures col.Text? && col.Truthy() ==> r == Some(parse(col.text))
  {
    match col
    case EmptyArray => None
    case Null => Some([])
    case Text(text) => if text != "" then Some(parse(text)) else Some([])
  }

  /** `downloadDocuments`: one download per stored path, in order, linking
      to the path under the site root; nothing is downloaded when reading the
      column throws. */
  function Downloads(col: StoredColumn, parse: string -> seq<string>): (r: seq<Download>)
    ensures DocumentList(col, parse).None? ==> r == []
    ensures DocumentList(col, parse).Some? ==> |r| == |DocumentList(col, parse).value|
    ensures DocumentList(col, parse).Some? ==> forall i :: 0 <= i < |r| ==>
      r[i].href == "/" + DocumentList(col, parse).value[i] && r[i].name == DownloadName(DocumentList(col, parse).value[i])
    ensures !col.Truthy() ==> r == []
  {
    match DocumentList(col, parse)
    case None => []
    case Some(paths) =>
      seq(|paths|, i requires 0 <= i < |paths| => Download("/" + paths[i], DownloadName(paths[i])))
  }

  /** The detail page and the form read a non-blank text column alike. */
  lemma PagesReadTextAlike(col: StoredColumn, parse: string -> seq<string>)
    requires col.Text? && JsTrim(col.text) != ""
    ensures DocumentList(col, parse) == StoredList(col, parse)
  {
  }

  /** A download is saved under the name the form's preview shows for the
      same path when no original name was stored. */
  lemma DownloadNameMatchesPreview(path: string, names: seq<string>, i: nat)
    requires i >= |names| || names[i] == ""
    ensures DownloadName(path) == DocumentName(names, i, path)
  {
  }
}
