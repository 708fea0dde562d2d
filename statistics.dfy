/** The statistics page: totals, rounded percentages, age brackets, the
    guardian-type classification and the grouped counts with their top-5
    lists, all as functions of the rows of the beneficiaries table. */
module Statistics {
  import opened Wrappers
  import opened Strings
  import opened Seqs
  import opened Dates
  import opened Beneficiaries
  import opened Validation

  /** A father or a mother is on record (`whereNotNull('father_name')
      ->orWhereNotNull('mother_name')`). */
  predicate HasParent(r: Record) {
    r.fields.fatherName.Some? || r.fields.motherName.Some?
  }

  predicate HasGuardian(r: Record) {
    r.fields.guardianName.Some?
  }

  /** A profile image and a document list are both on record. */
  predicate Complete(r: Record) {
    r.profileImagePath.Some? && r.documentPaths.Some?
  }

  /** The number of rows with a parent: none exactly when no row has one,
      and never more than the rows there are. */
  function TotalParents(rows: seq<Record>): (n: nat)
    ensures n <= |rows|
    ensures n == 0 <==> forall i :: 0 <= i < |rows| ==> !HasParent(rows[i])
    ensures n == |Filter(rows, HasParent)|
  {
    CountIsFilterLength(rows, HasParent);
    Count(rows, HasParent)
  }

  function TotalGuardians(rows: seq<Record>): (n: nat)
    ensures n <= |rows|
    ensures n == 0 <==> forall i :: 0 <= i < |rows| ==> !HasGuardian(rows[i])
    ensures n == |Filter(rows, HasGuardian)|
  {
    CountIsFilterLength(rows, HasGuardian);
    Count(rows, HasGuardian)
  }

  function CompleteProfiles(rows: seq<Record>): (n: nat)
    ensures n <= |rows|
    ensures n == |Filter(rows, Complete)|
  {
    CountIsFilterLength(rows, Complete);
    Count(rows, Complete)
  }

  /** A profile image and at least one supporting document on record. */
  predicate HasDocuments(r: Record) {
    r.profileImagePath.Some? && r.documentPaths.Some? && r.documentPaths.value != []
  }

  /** The profiles that have an image and at least one document: never more
      than the profiles the page counts as complete, and the same number
      when no row holds an empty document list. */
  function ProfilesWithDocuments(rows: seq<Record>): (n: nat)
    ensures n <= CompleteProfiles(rows)
    ensures n == |Filter(rows, HasDocuments)|
    ensures (forall i :: 0 <= i < |rows| ==> rows[i].documentPaths != Some([])) ==> n == CompleteProfiles(rows)
  {
    CountIsFilterLength(rows, HasDocuments);
    CountMonotonic(rows, HasDocuments, Complete);
    DocumentsAgreeWithoutEmptyLists(rows);
    Count(rows, HasDocuments)
  }

  lemma DocumentsAgreeWithoutEmptyLists(rows: seq<Record>)
    ensures (forall i :: 0 <= i < |rows| ==> rows[i].documentPaths != Some([])) ==>
      Count(rows, HasDocuments) == Count(rows, Complete)
  {
    if forall i :: 0 <= i < |rows| ==> rows[i].documentPaths != Some([]) {
      CountCongruent(rows, HasDocuments, Complete);
    }
  }

  /** As written, a row created with a profile image and no documents holds
      the empty-list default, so the page counts it as complete although it
      has no document. */
  lemma AsWrittenImageOnlyIsComplete(id: int, fields: Fields, image: (string, string), createdAt: int)
    ensures var r := NewRecord(id, fields, Some(image), None, createdAt);
      CompleteProfiles([r]) == 1 && ProfilesWithDocuments([r]) == 0
  {
    var r := NewRecord(id, fields, Some(image), None, createdAt);
    assert [r][1..] == [];
  }

  /** `round(part / total * 100)`, and 0 for an empty table: the integer
      nearest to 100·part/total, a tie going up. */
  function Percent(part: nat, total: nat): (r: nat)
    ensures total == 0 ==> r == 0
    ensures total > 0 ==> -(total as int) <= 200 * part - 2 * r * total < total
  {
    if total > 0 then (200 * part + total) / (2 * total) else 0
  }

  /** The nearest-integer property fixes the percentage: no other integer is
      within half a unit of 100·part/total (ties going up). */
  lemma PercentUnique(part: nat, total: nat, q: int)
    requires total > 0
    requires -(total as int) <= 200 * part - 2 * q * total < total
    ensures q == Percent(part, total)
  {
    var r := Percent(part, total);
    var d := 2 * total;
    assert (r - q) * d == 2 * r * total - 2 * q * total;
    assert (q - r) * d == 2 * q * total - 2 * r * total;
    FactorBelowOne(r - q, d);
    FactorBelowOne(q - r, d);
  }

  /** An integer factor whose product with a positive number stays below that
      number is at most zero. */
  lemma FactorBelowOne(a: int, d: int)
    requires d > 0 && a * d < d
    ensures a <= 0
  {
  }

  /** A part of the whole gives a percentage from 0 to 100, and the whole
      gives exactly 100. */
  lemma PercentBounds(part: nat, total: nat)
    requires part <= total
    ensures 0 <= Percent(part, total) <= 100
    ensures total > 0 && part == total ==> Percent(part, total) == 100
  {
    if total > 0 {
      var r := Percent(part, total);
      var d := 2 * total;
      assert (r - 100) * d == 2 * r * total - 200 * total;
      FactorBelowOne(r - 100, d);
      if part == total {
        PercentUnique(part, total, 100);
      }
    }
  }

  /** The share of complete profiles, 0..100. */
  function DocumentCompletion(rows: seq<Record>): (r: nat)
    ensures r <= 100
    ensures |rows| > 0 ==> -|rows| <= 200 * CompleteProfiles(rows) - 2 * r * |rows| < |rows|
    ensures |rows| == 0 ==> r == 0
  {
    PercentBounds(CompleteProfiles(rows), |rows|);
    Percent(CompleteProfiles(rows), |rows|)
  }

  /** The share of rows with a guardian, 0..100. */
  function GuardianCoverage(rows: seq<Record>): (r: nat)
    ensures r <= 100
    ensures |rows| > 0 ==> -|rows| <= 200 * TotalGuardians(rows) - 2 * r * |rows| < |rows|
    ensures |rows| == 0 ==> r == 0
  {
    PercentBounds(TotalGuardians(rows), |rows|);
    Percent(TotalGuardians(rows), |rows|)
  }

  // ---------------------------------------------------------------------
  // Grouped counts (`GROUP BY key` with `COUNT(*)`)

  /** No key heads two groups. */
  predicate KeysDistinct<K(==)>(groups: seq<(K, nat)>) {
    forall i, j :: 0 <= i < j < |groups| ==> groups[i].0 != groups[j].0
  }

  /** The non-empty groups among the keys `ks`, each with its count; distinct
      keys give one group per key. */
  function GroupsOf<T, K(==)>(s: seq<T>, cls: T -> K, ks: seq<K>): (r: seq<(K, nat)>)
    ensures forall g :: g in r ==> g.0 in ks && g.1 == CountOf(s, cls, g.0) && g.1 > 0
    ensures forall k :: k in ks && CountOf(s, cls, k) > 0 ==> (k, CountOf(s, cls, k)) in r
    ensures Distinct(ks) ==> KeysDistinct(r)
  {
    if ks == [] then []
    else
      var n := CountOf(s, cls, ks[0]);
      var rest := GroupsOf(s, cls, ks[1..]);
      assert forall i :: 0 <= i < |rest| ==> rest[i] in rest;
      if n > 0 then [(ks[0], n)] + rest else rest
  }

  /** The counts of a list of groups, added up. */
  function TotalCount<K>(groups: seq<(K, nat)>): nat {
    if groups == [] then 0 else groups[0].1 + TotalCount(groups[1..])
  }

  /** Dropping the empty groups does not change the total. */
  lemma {:induction false} GroupsTotal<T, K>(s: seq<T>, cls: T -> K, ks: seq<K>)
    ensures TotalCount(GroupsOf(s, cls, ks)) == SumCounts(s, cls, ks)
  {
    if ks != [] {
      GroupsTotal(s, cls, ks[1..]);
    }
  }

  /** When every element falls in one of the distinct keys, the group counts
      add up to the number of elements. */
  lemma GroupsCoverAll<T, K>(s: seq<T>, cls: T -> K, ks: seq<K>)
    requires Distinct(ks)
    requires forall i :: 0 <= i < |s| ==> cls(s[i]) in ks
    ensures TotalCount(GroupsOf(s, cls, ks)) == |s|
  {
    GroupsTotal(s, cls, ks);
    ClassCountsSum(s, cls, ks);
  }

  /** The keys that occur, each once. */
  function KeysOf<T, K(==,!new)>(s: seq<T>, cls: T -> K): (ks: seq<K>)
    ensures Distinct(ks)
    ensures forall i :: 0 <= i < |s| ==> cls(s[i]) in ks
    ensures forall k :: k in ks ==> CountOf(s, cls, k) > 0
  {
    var keys := seq(|s|, i requires 0 <= i < |s| => cls(s[i]));
    assert forall i :: 0 <= i < |s| ==> keys[i] == cls(s[i]);
    forall k | k in keys ensures CountOf(s, cls, k) > 0 {
      var i :| 0 <= i < |s| && keys[i] == k;
      assert (x => cls(x) == k)(s[i]);
    }
    Dedup(keys)
  }

  /** The keys that occur, ordered by `order` (`GROUP BY key ORDER BY key`):
      exactly the keys with a positive count. */
  function SortedKeys<T, K(==,!new)>(s: seq<T>, cls: T -> K, order: K -> int): (ks: seq<K>)
    ensures SortedBy(ks, order)
    ensures Distinct(ks)
    ensures forall k :: k in ks <==> CountOf(s, cls, k) > 0
  {
    var keys := KeysOf(s, cls);
    var ks := SortBy(keys, order);
    SameElements(ks, keys);
    DistinctPermuted(ks, keys);
    forall k | CountOf(s, cls, k) > 0 ensures k in keys {
      var i :| 0 <= i < |s| && cls(s[i]) == k;
    }
    ks
  }

  /** `GROUP BY key`: one group per key that occurs. */
  function GroupBy<T, K(==,!new)>(s: seq<T>, cls: T -> K): (r: seq<(K, nat)>)
    ensures TotalCount(r) == |s|
    ensures KeysDistinct(r)
    ensures forall g :: g in r ==> g.1 == CountOf(s, cls, g.0) && g.1 > 0
    ensures forall i :: 0 <= i < |s| ==> (cls(s[i]), CountOf(s, cls, cls(s[i]))) in r
  {
    var ks := KeysOf(s, cls);
    GroupsCoverAll(s, cls, ks);
    forall i | 0 <= i < |s| ensures CountOf(s, cls, cls(s[i])) > 0 {
      assert (x => cls(x) == cls(s[i]))(s[i]);
    }
    GroupsOf(s, cls, ks)
  }

  /** The count of a group as the ordering key of `orderByDesc('count')`. */
  function Descending<K>(g: (K, nat)): int {
    -(g.1 as int)
  }

  /** `GROUP BY key ORDER BY count DESC`. */
  function Ranked<T, K(==,!new)>(s: seq<T>, cls: T -> K): (r: seq<(K, nat)>)
    ensures SortedBy(r, Descending)
    ensures multiset(r) == multiset(GroupBy(s, cls))
  {
    SortBy(GroupBy(s, cls), Descending)
  }

  /** Ranking keeps the groups: each ranked entry is a group with its true
      count, and every group is ranked. */
  lemma RankedGroups<T, K(!new)>(s: seq<T>, cls: T -> K)
    ensures forall g :: g in Ranked(s, cls) ==> g.1 == CountOf(s, cls, g.0) && g.1 > 0
    ensures forall g :: g in GroupBy(s, cls) ==> g in Ranked(s, cls)
  {
    SameElements(Ranked(s, cls), GroupBy(s, cls));
  }

  /** Ranking keeps one group per key: the groups are distinct, and two
      groups with one key carry the same count. */
  lemma RankedKeysDistinct<T, K(!new)>(s: seq<T>, cls: T -> K)
    ensures KeysDistinct(Ranked(s, cls))
  {
    var g := GroupBy(s, cls);
    var r := Ranked(s, cls);
    assert Distinct(g);
    DistinctPermuted(r, g);
    RankedGroups(s, cls);
    forall i, j | 0 <= i < j < |r| ensures r[i].0 != r[j].0 {
      assert r[i] in r && r[j] in r;
    }
  }

  /** A limit keeps the keys distinct. */
  lemma TakeKeysDistinct<K>(groups: seq<(K, nat)>, n: nat)
    requires KeysDistinct(groups)
    ensures KeysDistinct(Take(groups, n))
  {
  }

  /** `... ORDER BY count DESC LIMIT n`: at most `n` groups, in non-increasing
      count order, each with its true count, and none left out that
      outnumbers one kept. */
  function Top<T, K(==,!new)>(s: seq<T>, cls: T -> K, n: nat): (r: seq<(K, nat)>)
    ensures |r| <= n
    ensures forall i, j :: 0 <= i < j < |r| ==> r[i].1 >= r[j].1
    ensures forall i :: 0 <= i < |r| ==> r[i].1 == CountOf(s, cls, r[i].0) && r[i].1 > 0
    ensures KeysDistinct(r)
  {
    RankedGroups(s, cls);
    RankedKeysDistinct(s, cls);
    TakeKeysDistinct(Ranked(s, cls), n);
    Take(Ranked(s, cls), n)
  }

  /** The limit drops only groups no larger than every group kept: each
      element's group is in the list, or the list is full of groups at least
      as large. */
  lemma TopKeepsLargest<T, K(!new)>(s: seq<T>, cls: T -> K, n: nat, i: nat)
    requires i < |s|
    ensures var g := (cls(s[i]), CountOf(s, cls, cls(s[i])));
      g in Top(s, cls, n) ||
      (|Top(s, cls, n)| == n && forall j :: 0 <= j < n ==> Top(s, cls, n)[j].1 >= g.1)
  {
    var g := (cls(s[i]), CountOf(s, cls, cls(s[i])));
    assert g in GroupBy(s, cls);
    RankedGroups(s, cls);
    TakeSortedKeepsLeast(Ranked(s, cls), Descending, n, g);
  }

  /** `... ORDER BY count DESC ->first()`: null for an empty table, else a
      group at least as large as the group of every element. */
  function MostCommon<T, K(==,!new)>(s: seq<T>, cls: T -> K): (r: Option<(K, nat)>)
    ensures r.None? <==> s == []
    ensures r.Some? ==> r.value.1 == CountOf(s, cls, r.value.0)
    ensures r.Some? ==> forall i :: 0 <= i < |s| ==> CountOf(s, cls, cls(s[i])) <= r.value.1
  {
    var ranked := Ranked(s, cls);
    RankedGroups(s, cls);
    EmptyGroups(GroupBy(s, cls));
    assert |ranked| == |GroupBy(s, cls)| by {
      assert |multiset(ranked)| == |multiset(GroupBy(s, cls))|;
    }
    if ranked == [] then None
    else
      RankedFirstIsLargest(s, cls);
      Some(ranked[0])
  }

  /** The first ranked group is at least as large as every group. */
  lemma RankedFirstIsLargest<T, K(!new)>(s: seq<T>, cls: T -> K)
    requires Ranked(s, cls) != []
    ensures forall g :: g in Ranked(s, cls) ==> g.1 <= Ranked(s, cls)[0].1
  {
    var ranked := Ranked(s, cls);
    forall g | g in ranked ensures g.1 <= ranked[0].1 {
      var j :| 0 <= j < |ranked| && ranked[j] == g;
      assert Descending(ranked[0]) <= Descending(ranked[j]);
    }
  }

  /** A list of groups with no entries counts nothing, and one with entries
      of positive counts counts something. */
  lemma EmptyGroups<K>(groups: seq<(K, nat)>)
    requires forall i :: 0 <= i < |groups| ==> groups[i].1 > 0
    ensures TotalCount(groups) == 0 <==> groups == []
  {
  }

  /** A row's address as the key of the location statistics: `GROUP BY
      address` compares under the column's case-insensitive collation, so
      addresses differing only in case form one group. */
  function Address(r: Record): string {
    Lower(r.fields.address)
  }

  /** A row's occupation as a group key, for rows that have one (compared
      case-insensitively, like the address). */
  function Occupation(r: Record): string {
    Lower(r.fields.occupation.GetOr(""))
  }

  /** Every key a grouping by a case-folded key produces is its own folding. */
  lemma FoldedKey(rows: seq<Record>, cls: Record -> string, k: string)
    requires forall x :: Lower(cls(x)) == cls(x)
    requires CountOf(rows, cls, k) > 0
    ensures Lower(k) == k
  {
    var i :| 0 <= i < |rows| && cls(rows[i]) == k;
  }

  predicate HasOccupation(r: Record) {
    r.fields.occupation.Some?
  }

  function Gender(r: Record): string {
    r.fields.gender
  }

  /** `locationData`: the five largest address groups. */
  function LocationData(rows: seq<Record>): (r: seq<(string, nat)>)
    ensures |r| <= 5
    ensures forall i, j :: 0 <= i < j < |r| ==> r[i].1 >= r[j].1
    ensures forall i :: 0 <= i < |r| ==> r[i].1 == CountOf(rows, Address, r[i].0) && r[i].1 > 0
    ensures forall i :: 0 <= i < |r| ==> Lower(r[i].0) == r[i].0
    ensures KeysDistinct(r)
  {
    var top := Top(rows, Address, 5);
    forall i | 0 <= i < |top| ensures Lower(top[i].0) == top[i].0 {
      AddressFolded();
      FoldedKey(rows, Address, top[i].0);
    }
    top
  }

  lemma AddressFolded()
    ensures forall x :: Lower(Address(x)) == Address(x)
  {
    forall x: Record ensures Lower(Address(x)) == Address(x) {
      LowerIdempotent(x.fields.address);
    }
  }

  lemma OccupationFolded()
    ensures forall x :: Lower(Occupation(x)) == Occupation(x)
  {
    forall x: Record ensures Lower(Occupation(x)) == Occupation(x) {
      LowerIdempotent(x.fields.occupation.GetOr(""));
    }
  }

  /** Rows whose addresses differ only in the case of their letters are
      counted in one location group. */
  lemma CaseVariantsShareLocation(rows: seq<Record>, i: nat, j: nat)
    requires i < |rows| && j < |rows|
    requires rows[j].fields.address == Upper(rows[i].fields.address)
    ensures Address(rows[i]) == Address(rows[j])
    ensures CountOf(rows, Address, Address(rows[i])) >= 2 || i == j
  {
    LowerOfUpper(rows[i].fields.address);
    if i != j {
      CountOfAtTwo(rows, Address, i, j);
    }
  }

  /** `occupationData`: the five largest occupation groups among rows whose
      occupation is not null. */
  function OccupationData(rows: seq<Record>): (r: seq<(string, nat)>)
    ensures |r| <= 5
    ensures forall i, j :: 0 <= i < j < |r| ==> r[i].1 >= r[j].1
    ensures forall i :: 0 <= i < |r| ==> r[i].1 == Count(rows, HoldsJob(r[i].0)) && r[i].1 > 0
    ensures forall i :: 0 <= i < |r| ==> Lower(r[i].0) == r[i].0
    ensures KeysDistinct(r)
  {
    var top := Top(Filter(rows, HasOccupation), Occupation, 5);
    forall i | 0 <= i < |top|
      ensures top[i].1 == Count(rows, HoldsJob(top[i].0)) && Lower(top[i].0) == top[i].0
    {
      OccupationCount(rows, top[i].0);
      OccupationFolded();
      FoldedKey(Filter(rows, HasOccupation), Occupation, top[i].0);
    }
    top
  }

  /** The rows whose occupation is `job`, up to case. */
  function HoldsJob(job: string): Record -> bool {
    (x: Record) => x.fields.occupation.Some? && Lower(x.fields.occupation.value) == job
  }

  /** Among the rows with an occupation, those of occupation `job` are the
      rows whose occupation is `job`. */
  lemma OccupationCount(rows: seq<Record>, job: string)
    ensures CountOf(Filter(rows, HasOccupation), Occupation, job) == Count(rows, HoldsJob(job))
  {
    CountOfFilter(rows, HasOccupation, Occupation, job, HoldsJob(job));
  }

  /** `mostCommonLocation`. */
  function MostCommonLocation(rows: seq<Record>): (r: Option<(string, nat)>)
    ensures r.None? <==> rows == []
    ensures r.Some? ==> r.value.1 == CountOf(rows, Address, r.value.0) && r.value.1 > 0
    ensures r.Some? ==> forall i :: 0 <= i < |rows| ==> CountOf(rows, Address, Address(rows[i])) <= r.value.1
  {
    MostCommon(rows, Address)
  }

  /** `mostCommonOccupation`: null when no row has an occupation, else an
      occupation held by at least as many rows as any other. */
  function MostCommonOccupation(rows: seq<Record>): (r: Option<(string, nat)>)
    ensures r.None? <==> forall i :: 0 <= i < |rows| ==> rows[i].fields.occupation.None?
    ensures r.Some? ==> r.value.1 == Count(rows, HoldsJob(r.value.0)) && r.value.1 > 0
    ensures r.Some? ==> forall i :: 0 <= i < |rows| && HasOccupation(rows[i]) ==>
      Count(rows, HoldsJob(Occupation(rows[i]))) <= r.value.1
  {
    var r := MostCommon(Filter(rows, HasOccupation), Occupation);
    NoOccupationNoGroup(rows);
    if r.Some? then
      MostCommonOccupationIsLargest(rows, r.value);
      r
    else r
  }

  /** No occupation group exists exactly when no row has an occupation. */
  lemma NoOccupationNoGroup(rows: seq<Record>)
    ensures Filter(rows, HasOccupation) == [] <==> forall i :: 0 <= i < |rows| ==> rows[i].fields.occupation.None?
  {
    CountIsFilterLength(rows, HasOccupation);
  }

  /** The occupation group `g`, at least as large as the group of every row
      that has an occupation, read back on the whole table. */
  lemma MostCommonOccupationIsLargest(rows: seq<Record>, g: (string, nat))
    requires var withJob := Filter(rows, HasOccupation);
      g.1 == CountOf(withJob, Occupation, g.0) &&
      forall i :: 0 <= i < |withJob| ==> CountOf(withJob, Occupation, Occupation(withJob[i])) <= g.1
    ensures g.1 == Count(rows, HoldsJob(g.0))
    ensures forall i :: 0 <= i < |rows| && HasOccupation(rows[i]) ==>
      Count(rows, HoldsJob(Occupation(rows[i]))) <= g.1
  {
    var withJob := Filter(rows, HasOccupation);
    OccupationCount(rows, g.0);
    forall i | 0 <= i < |rows| && HasOccupation(rows[i])
      ensures Count(rows, HoldsJob(Occupation(rows[i]))) <= g.1
    {
      var j :| 0 <= j < |withJob| && withJob[j] == rows[i];
      OccupationCount(rows, Occupation(rows[i]));
    }
  }

  /** `genderData`: one group per gender value, the counts adding up to the
      number of rows. */
  function GenderData(rows: seq<Record>): (r: seq<(string, nat)>)
    ensures TotalCount(r) == |rows|
    ensures KeysDistinct(r)
    ensures forall i :: 0 <= i < |r| ==> r[i].1 > 0 && r[i].1 == CountOf(rows, Gender, r[i].0)
    ensures forall i :: 0 <= i < |rows| ==> (Gender(rows[i]), CountOf(rows, Gender, Gender(rows[i]))) in r
  {
    GroupBy(rows, Gender)
  }

  // ---------------------------------------------------------------------
  // Age brackets

  datatype AgeBracket = UpToFive | SixToTen | ElevenToFifteen | SixteenToTwenty | TwentyOneUp {
    /** The label the query gives the bracket. */
    function Label(): string {
      match this
      case UpToFive => "0-5"
      case SixToTen => "6-10"
      case ElevenToFifteen => "11-15"
      case SixteenToTwenty => "16-20"
      case TwentyOneUp => "21+"
    }

    /** The bracket's position in the query's order. */
    function Index(): nat {
      match this
      case UpToFive => 0
      case SixToTen => 1
      case ElevenToFifteen => 2
      case SixteenToTwenty => 3
      case TwentyOneUp => 4
    }
  }

  const Brackets: seq<AgeBracket> := [UpToFive, SixToTen, ElevenToFifteen, SixteenToTwenty, TwentyOneUp]

  /** The `CASE` of the age query: the first `BETWEEN` range holding the age,
      and "21+" for every other age, negative ones included. */
  function BracketOf(age: int): (b: AgeBracket)
    ensures b == UpToFive <==> 0 <= age <= 5
    ensures b == SixToTen <==> 6 <= age <= 10
    ensures b == ElevenToFifteen <==> 11 <= age <= 15
    ensures b == SixteenToTwenty <==> 16 <= age <= 20
    ensures b == TwentyOneUp <==> age < 0 || age > 20
  {
    if 0 <= age <= 5 then UpToFive
    else if 6 <= age <= 10 then SixToTen
    else if 11 <= age <= 15 then ElevenToFifteen
    else if 16 <= age <= 20 then SixteenToTwenty
    else TwentyOneUp
  }

  /** The bracket labels are distinct, so the groups are told apart. */
  lemma LabelsDistinct(a: AgeBracket, b: AgeBracket)
    requires a != b
    ensures a.Label() != b.Label()
  {
  }

  /** The bracket of a row's whole-year age on day `today`
      (`TIMESTAMPDIFF(YEAR, date_of_birth, CURDATE())`). */
  function RowBracket(today: Date): Record -> AgeBracket {
    (x: Record) => BracketOf(YearsBetween(x.fields.dateOfBirth, today))
  }

  /** A birth date not after today is bracketed by the age the view shows;
      one less than a year ahead counts as "0-5", and one a year or more
      ahead as "21+". */
  lemma RowBracketByBirth(r: Record, today: Date)
    ensures NotAfter(r.fields.dateOfBirth, today) ==>
      RowBracket(today)(r) == BracketOf(Age(r.fields.dateOfBirth, today))
    ensures Before(today, r.fields.dateOfBirth) && !AnniversaryReached(today, 1, r.fields.dateOfBirth) ==>
      RowBracket(today)(r) == UpToFive
    ensures Before(today, r.fields.dateOfBirth) && AnniversaryReached(today, 1, r.fields.dateOfBirth) ==>
      RowBracket(today)(r) == TwentyOneUp
  {
    var birth := r.fields.dateOfBirth;
    YearsBetweenAndAge(birth, today);
    if Before(today, birth) && AnniversaryReached(today, 1, birth) {
      assert !NotAfter(birth, today);
      AnniversaryMonotonic(today, 1, -YearsBetween(birth, today), birth) by {
        if -YearsBetween(birth, today) < 1 {
          AnniversaryMonotonic(today, -YearsBetween(birth, today) + 1, 1, birth);
        }
      }
    }
  }

  /** `ageDistribution` on day `today`: the non-empty brackets with their
      counts, which add up to the number of rows. */
  function AgeDistribution(rows: seq<Record>, today: Date): (r: seq<(AgeBracket, nat)>)
    ensures TotalCount(r) == |rows|
    ensures forall i :: 0 <= i < |r| ==> r[i].1 > 0 && r[i].1 == CountOf(rows, RowBracket(today), r[i].0)
    ensures KeysDistinct(r)
    ensures forall b :: CountOf(rows, RowBracket(today), b) > 0 ==> (b, CountOf(rows, RowBracket(today), b)) in r
  {
    forall b: AgeBracket ensures b in Brackets {
      assert b == Brackets[b.Index()];
    }
    GroupsCoverAll(rows, RowBracket(today), Brackets);
    GroupsOf(rows, RowBracket(today), Brackets)
  }

  // ---------------------------------------------------------------------
  // Guardian type

  datatype GuardianType = BothParents | SingleParent | Guardian | Other {
    function Label(): string {
      match this
      case BothParents => "Both Parents"
      case SingleParent => "Single Parent"
      case Guardian => "Guardian"
      case Other => "Other"
    }

    /** The type's position in the query's order. */
    function Index(): nat {
      match this
      case BothParents => 0
      case SingleParent => 1
      case Guardian => 2
      case Other => 3
    }
  }

  const GuardianTypes: seq<GuardianType> := [BothParents, SingleParent, Guardian, Other]

  /** The `CASE` of the guardian-type query, read as a classification: each
      type holds exactly when its own condition does. */
  function GuardianTypeOf(f: Fields): (g: GuardianType)
    ensures g == BothParents <==> f.fatherName.Some? && f.motherName.Some?
    ensures g == SingleParent <==> f.fatherName.Some? != f.motherName.Some?
    ensures g == Guardian <==> f.fatherName.None? && f.motherName.None? && f.guardianName.Some?
    ensures g == Other <==> f.fatherName.None? && f.motherName.None? && f.guardianName.None?
  {
    if f.fatherName.Some? && f.motherName.Some? then BothParents
    else if f.fatherName.Some? || f.motherName.Some? then SingleParent
    else if f.guardianName.Some? then Guardian
    else Other
  }

  function TypeOf(r: Record): GuardianType {
    GuardianTypeOf(r.fields)
  }

  /** `guardianTypeData`: the non-empty types with their counts, which add up
      to the number of rows. */
  function GuardianTypeData(rows: seq<Record>): (r: seq<(GuardianType, nat)>)
    ensures TotalCount(r) == |rows|
    ensures forall i :: 0 <= i < |r| ==> r[i].1 > 0 && r[i].1 == CountOf(rows, TypeOf, r[i].0)
    ensures KeysDistinct(r)
    ensures forall g :: CountOf(rows, TypeOf, g) > 0 ==> (g, CountOf(rows, TypeOf, g)) in r
  {
    forall g: GuardianType ensures g in GuardianTypes {
      assert g == GuardianTypes[g.Index()];
    }
    GroupsCoverAll(rows, TypeOf, GuardianTypes);
    GroupsOf(rows, TypeOf, GuardianTypes)
  }

  /** The rows counted as having a parent are those classified "Both
      Parents" or "Single Parent". */
  lemma ParentsAreTwoTypes(rows: seq<Record>)
    ensures TotalParents(rows) == CountOf(rows, TypeOf, BothParents) + CountOf(rows, TypeOf, SingleParent)
  {
    forall i | 0 <= i < |rows|
      ensures HasParent(rows[i]) == (TypeOf(rows[i]) == BothParents || TypeOf(rows[i]) == SingleParent)
    {
    }
    CountOfUnion(rows, TypeOf, BothParents, SingleParent, HasParent);
  }

  // ---------------------------------------------------------------------
  // How the trimming of absent names shows up in the statistics

  /** As written, a request without father and mother names that passes
      validation is stored with empty-string names, so its row counts as
      having both parents. */
  lemma AsWrittenParentlessCountsAsBothParents(req: Request, table: map<int, Record>, ignore: Option<int>)
    requires req.fatherName.None? && req.motherName.None?
    requires Passes(PrepareAsWritten(req), table, ignore)
    ensures GuardianTypeOf(ToFields(PrepareAsWritten(req), table, ignore)) == BothParents
    ensures ToFields(PrepareAsWritten(req), table, ignore).fatherName == Some("")
  {
  }

  /** With absent names kept null, the same request is classified by its
      guardian: "Guardian" when one is named, "Other" when not. */
  lemma ParentlessCountsByGuardian(req: Request, table: map<int, Record>, ignore: Option<int>)
    requires req.fatherName.None? && req.motherName.None?
    requires Passes(Prepare(req), table, ignore)
    ensures GuardianTypeOf(ToFields(Prepare(req), table, ignore)) ==
      if req.guardianName.Some? then Guardian else Other
  {
  }
}
