/** The dashboard page (latest rows, pupil and guardian counts, upcoming
    programmes) and the monthly analytics endpoint with its twelve month
    slots. The clock is an input: `now` is the current moment, and the ends
    of the 7- and 30-day windows are given as moments too. */
module Dashboard {
  import opened Wrappers
  import opened Strings
  import opened Seqs
  import opened Dates
  import opened Beneficiaries
  import opened Events
  import opened Statistics

  // ---------------------------------------------------------------------
  // Latest rows

  /** The negated creation time, so that ascending order is newest first. */
  function Newest<T>(created: T -> int): T -> int {
    x => -created(x)
  }

  /** `latest()->take(n)`: the `n` newest elements (all of them when there
      are fewer), newest first, drawn from the input. */
  function Latest<T>(s: seq<T>, created: T -> int, n: nat): (r: seq<T>)
    ensures |r| == if |s| <= n then |s| else n
    ensures forall i, j :: 0 <= i < j < |r| ==> created(r[i]) >= created(r[j])
    ensures multiset(r) <= multiset(s)
  {
    var sorted := SortBy(s, Newest(created));
    TakeSubMultiset(sorted, n);
    var r := Take(sorted, n);
    assert forall i, j :: 0 <= i < j < |r| ==> Newest(created)(r[i]) <= Newest(created)(r[j]);
    r
  }

  /** Nothing newer is passed over: an element left out means the list is
      full of elements at least as new. */
  lemma LatestKeepsNewest<T>(s: seq<T>, created: T -> int, n: nat, x: T)
    requires x in s
    ensures x in Latest(s, created, n)
      || (|Latest(s, created, n)| == n && forall j :: 0 <= j < n ==> created(Latest(s, created, n)[j]) >= created(x))
  {
    var sorted := SortBy(s, Newest(created));
    assert x in multiset(s);
    assert x in sorted by {
      assert x in multiset(sorted);
    }
    TakeSortedKeepsLeast(sorted, Newest(created), n, x);
  }

  function EventCreated(e: Event): int {
    e.createdAt
  }

  function RecordCreated(r: Record): int {
    r.createdAt
  }

  /** The dashboard's `events`: at most five, newest first. */
  function RecentEvents(events: seq<Event>): (r: seq<Event>)
    ensures |r| == if |events| <= 5 then |events| else 5
    ensures forall i, j :: 0 <= i < j < |r| ==> r[i].createdAt >= r[j].createdAt
  {
    Latest(events, EventCreated, 5)
  }

  /** The dashboard's `recentBeneficiaries`: at most four, newest first. */
  function RecentBeneficiaries(rows: seq<Record>): (r: seq<Record>)
    ensures |r| == if |rows| <= 4 then |rows| else 4
    ensures forall i, j :: 0 <= i < j < |r| ==> r[i].createdAt >= r[j].createdAt
  {
    Latest(rows, RecordCreated, 4)
  }

  // ---------------------------------------------------------------------
  // Pupil counts

  /** `where('gender', 'male')` under the database's case-insensitive
      collation. */
  predicate IsMale(r: Record) {
    Lower(r.fields.gender) == "male"
  }

  predicate IsFemale(r: Record) {
    Lower(r.fields.gender) == "female"
  }

  function MalePupils(rows: seq<Record>): (n: nat)
    ensures n <= |rows|
    ensures n == 0 <==> forall i :: 0 <= i < |rows| ==> !IsMale(rows[i])
    ensures n == |Filter(rows, IsMale)|
  {
    CountIsFilterLength(rows, IsMale);
    Count(rows, IsMale)
  }

  function FemalePupils(rows: seq<Record>): (n: nat)
    ensures n <= |rows|
    ensures n == 0 <==> forall i :: 0 <= i < |rows| ==> !IsFemale(rows[i])
    ensures n == |Filter(rows, IsFemale)|
  {
    CountIsFilterLength(rows, IsFemale);
    Count(rows, IsFemale)
  }

  /** Every validated gender is `Male` or `Female`, and the lower-case
      comparison catches both, so the two counts make up the total. */
  lemma ValidatedGendersSplit(rows: seq<Record>)
    requires forall i :: 0 <= i < |rows| ==> rows[i].fields.gender == "Male" || rows[i].fields.gender == "Female"
    ensures MalePupils(rows) + FemalePupils(rows) == |rows|
  {
    assert Lower("Male") == "male";
    assert Lower("Female") == "female";
    CountComplement(rows, IsMale, IsFemale);
  }

  // ---------------------------------------------------------------------
  // Upcoming programmes

  /** A moment: a day and the second of that day. */
  datatype Moment = Moment(date: Date, second: int)

  /** `a >= b` between moments. */
  predicate NotEarlier(a: Moment, b: Moment) {
    Ordinal(a.date) > Ordinal(b.date) || (Ordinal(a.date) == Ordinal(b.date) && a.second >= b.second)
  }

  /** A `date` value compared with a date-time is taken at midnight. */
  function Midnight(d: Date): Moment {
    Moment(d, 0)
  }

  /** `where('date', '>=', now())->where('date', '<=', end)`. */
  predicate InWindow(e: Event, now: Moment, end: Moment) {
    NotEarlier(Midnight(e.date), now) && NotEarlier(end, Midnight(e.date))
  }

  function Within(now: Moment, end: Moment): Event -> bool {
    (e: Event) => InWindow(e, now, end)
  }

  /** In the window and of the given type (compared case-insensitively). */
  function OfKindWithin(kind: string, now: Moment, end: Moment): Event -> bool {
    (e: Event) => InWindow(e, now, end) && Lower(e.kind) == kind
  }

  /** `upcomingEvents`: events in the coming week. */
  function UpcomingEvents(events: seq<Event>, now: Moment, weekAhead: Moment): (n: nat)
    ensures n <= |events|
    ensures n == 0 <==> forall i :: 0 <= i < |events| ==> !InWindow(events[i], now, weekAhead)
    ensures n == |Filter(events, Within(now, weekAhead))|
  {
    CountIsFilterLength(events, Within(now, weekAhead));
    Count(events, Within(now, weekAhead))
  }

  /** `upcomingMeetings`: meetings in the coming thirty days. */
  function UpcomingMeetings(events: seq<Event>, now: Moment, monthAhead: Moment): (n: nat)
    ensures n <= |events|
    ensures n == 0 <==> forall i :: 0 <= i < |events| ==>
      !(InWindow(events[i], now, monthAhead) && Lower(events[i].kind) == "meeting")
    ensures n == |Filter(events, OfKindWithin("meeting", now, monthAhead))|
  {
    CountIsFilterLength(events, OfKindWithin("meeting", now, monthAhead));
    Count(events, OfKindWithin("meeting", now, monthAhead))
  }

  /** `upcomingActivities`: activities in the coming week, never more than
      the events of that week. */
  function UpcomingActivities(events: seq<Event>, now: Moment, weekAhead: Moment): (n: nat)
    ensures n <= UpcomingEvents(events, now, weekAhead)
    ensures n == 0 <==> forall i :: 0 <= i < |events| ==>
      !(InWindow(events[i], now, weekAhead) && Lower(events[i].kind) == "activity")
    ensures n == |Filter(events, OfKindWithin("activity", now, weekAhead))|
  {
    CountMonotonic(events, OfKindWithin("activity", now, weekAhead), Within(now, weekAhead));
    CountIsFilterLength(events, OfKindWithin("activity", now, weekAhead));
    Count(events, OfKindWithin("activity", now, weekAhead))
  }

  /** Events that passed the event form are of type `current` or
      `upcoming`, so the meeting and activity counts are always zero. */
  lemma ValidatedEventsHaveNoMeetings(events: seq<Event>, now: Moment, weekAhead: Moment, monthAhead: Moment)
    requires forall i :: 0 <= i < |events| ==> events[i].kind == "current" || events[i].kind == "upcoming"
    ensures UpcomingMeetings(events, now, monthAhead) == 0
    ensures UpcomingActivities(events, now, weekAhead) == 0
  {
    assert Lower("current") == "current";
    assert Lower("upcoming") == "upcoming";
  }

  /** An event dated today is not upcoming once today's midnight has passed:
      its day, taken at midnight, is earlier than now. */
  lemma TodayIsNotUpcoming(e: Event, now: Moment, end: Moment)
    requires e.date == now.date && now.second > 0
    ensures !InWindow(e, now, end)
  {
  }

  // ---------------------------------------------------------------------
  // Monthly analytics

  /** One row of the aggregate query: a (year, month) of creation, the
      rows created then and the distinct parent-name pairs among them. */
  datatype MonthRow = MonthRow(year: int, month: int, beneficiaries: nat, parents: nat)

  /** One mapped row or output slot: the month abbreviation, the first day
      of the month and the two figures. */
  datatype MonthEntry = MonthEntry(month: string, date: Date, beneficiaries: nat, parents: nat)

  /** `DATE_FORMAT(created_at, "%Y-%m")`; `calendar` turns a creation time
      into a calendar day. */
  function MonthOf(calendar: int -> Date): Record -> (int, int) {
    (r: Record) => (calendar(r.createdAt).year, calendar(r.createdAt).month)
  }

  /** Chronological order of (year, month) keys. */
  function MonthIndex(k: (int, int)): int {
    k.0 * 12 + k.1
  }

  function RowIndex(m: MonthRow): int {
    MonthIndex((m.year, m.month))
  }

  /** `CONCAT(COALESCE(father_name, ""), COALESCE(mother_name, ""))`, folded:
      the concatenation keeps the columns' case-insensitive collation, so
      `COUNT(DISTINCT ...)` counts pairs differing only in case once. */
  function ParentKey(r: Record): string {
    Lower(r.fields.fatherName.GetOr("") + r.fields.motherName.GetOr(""))
  }

  /** `COUNT(DISTINCT ...)` of the parent keys of rows with a parent created
      in month `k`. */
  function ParentsIn(rows: seq<Record>, calendar: int -> Date, k: (int, int)): nat {
    |set r | r in rows && MonthOf(calendar)(r) == k && HasParent(r) :: ParentKey(r)|
  }

  /** The parent count of each month key. */
  function ParentsOf(rows: seq<Record>, calendar: int -> Date): ((int, int)) -> nat {
    (k: (int, int)) => ParentsIn(rows, calendar, k)
  }

  /** One row per key of `ks`, in their order, with the number of elements
      of that key and its parent count. */
  function Tally<T>(s: seq<T>, cls: T -> (int, int), ks: seq<(int, int)>, parents: ((int, int)) -> nat): (data: seq<MonthRow>)
    ensures |data| == |ks|
    ensures forall i :: 0 <= i < |ks| ==>
      data[i] == MonthRow(ks[i].0, ks[i].1, CountOf(s, cls, ks[i]), parents(ks[i]))
  {
    seq(|ks|, i requires 0 <= i < |ks| => MonthRow(ks[i].0, ks[i].1, CountOf(s, cls, ks[i]), parents(ks[i])))
  }

  /** The month keys that occur, in chronological order. */
  function SortedMonths(rows: seq<Record>, calendar: int -> Date): (ks: seq<(int, int)>)
    ensures SortedBy(ks, MonthIndex)
    ensures Distinct(ks)
    ensures forall k :: k in ks <==> CountOf(rows, MonthOf(calendar), k) > 0
  {
    SortedKeys(rows, MonthOf(calendar), MonthIndex)
  }

  /** The first twelve month keys in chronological order (`orderBy('month')
      ->limit(12)`). */
  function FirstTwelveMonths(rows: seq<Record>, calendar: int -> Date): (ks: seq<(int, int)>)
    ensures |ks| <= 12
    ensures SortedBy(ks, MonthIndex)
    ensures Distinct(ks)
    ensures forall k :: k in ks ==> CountOf(rows, MonthOf(calendar), k) > 0
    ensures forall k :: CountOf(rows, MonthOf(calendar), k) > 0 && k !in ks ==>
      |ks| == 12 && forall j :: 0 <= j < 12 ==> MonthIndex(ks[j]) <= MonthIndex(k)
  {
    FirstKeys(rows, MonthOf(calendar), 12);
    Take(SortedMonths(rows, calendar), 12)
  }

  /** The first `n` keys in chronological order are distinct keys that
      occur, and leave out only keys no earlier than all of them. */
  lemma FirstKeys<T>(s: seq<T>, cls: T -> (int, int), n: nat)
    ensures var ks := Take(SortedKeys(s, cls, MonthIndex), n);
      SortedBy(ks, MonthIndex) && Distinct(ks) && forall k :: k in ks ==> CountOf(s, cls, k) > 0
    ensures var ks := Take(SortedKeys(s, cls, MonthIndex), n);
      forall k :: CountOf(s, cls, k) > 0 && k !in ks ==>
        |ks| == n && forall j :: 0 <= j < n ==> MonthIndex(ks[j]) <= MonthIndex(k)
  {
    var all := SortedKeys(s, cls, MonthIndex);
    TakeSorted(all, MonthIndex, n);
    TakeSortedLeavesLargest(all, MonthIndex, n);
  }

  /** The aggregate query as written: grouped by month, ordered by month,
      the first twelve months, each with its count of rows and of distinct
      parent pairs; a month that occurs is left out only when twelve months
      no later than it fill the list. */
  function MonthlyData(rows: seq<Record>, calendar: int -> Date): (data: seq<MonthRow>)
    ensures |data| <= 12
    ensures SortedBy(data, RowIndex)
    ensures forall i :: 0 <= i < |data| ==>
      data[i].beneficiaries == CountOf(rows, MonthOf(calendar), (data[i].year, data[i].month)) > 0
    ensures forall i :: 0 <= i < |data| ==>
      data[i].parents == ParentsIn(rows, calendar, (data[i].year, data[i].month))
  {
    var ks := FirstTwelveMonths(rows, calendar);
    TallyRows(rows, MonthOf(calendar), ks, ParentsOf(rows, calendar));
    Tally(rows, MonthOf(calendar), ks, ParentsOf(rows, calendar))
  }

  /** The month of a query row. */
  function RowMonth(m: MonthRow): (int, int) {
    (m.year, m.month)
  }

  /** No month appears twice in the query's result, and a month that occurs
      is left out only when twelve months no later than it fill the list. */
  lemma MonthlyDataComplete(rows: seq<Record>, calendar: int -> Date)
    ensures var data := MonthlyData(rows, calendar);
      forall i, j :: 0 <= i < j < |data| ==> RowMonth(data[i]) != RowMonth(data[j])
    ensures var data := MonthlyData(rows, calendar);
      forall k :: CountOf(rows, MonthOf(calendar), k) > 0 && (forall i :: 0 <= i < |data| ==> RowMonth(data[i]) != k) ==>
        |data| == 12 && forall j :: 0 <= j < 12 ==> RowIndex(data[j]) <= MonthIndex(k)
  {
    var ks := FirstTwelveMonths(rows, calendar);
    TallyRows(rows, MonthOf(calendar), ks, ParentsOf(rows, calendar));
  }

  /** Each tallied row carries its own key, so the rows are ordered and told
      apart as their keys are, and a key is missing from the rows exactly
      when it is missing from the keys. */
  lemma TallyRows<T>(s: seq<T>, cls: T -> (int, int), ks: seq<(int, int)>, parents: ((int, int)) -> nat)
    ensures var data := Tally(s, cls, ks, parents);
      forall i :: 0 <= i < |data| ==> RowMonth(data[i]) == ks[i] && RowIndex(data[i]) == MonthIndex(ks[i])
    ensures var data := Tally(s, cls, ks, parents);
      forall k :: k in ks <==> exists i :: 0 <= i < |data| && RowMonth(data[i]) == k
  {
    var data := Tally(s, cls, ks, parents);
    forall k | k in ks ensures exists i :: 0 <= i < |data| && RowMonth(data[i]) == k {
      var i :| 0 <= i < |ks| && ks[i] == k;
      assert RowMonth(data[i]) == k;
    }
  }

  /** `->map(...)`: the month abbreviation and the first day of the month. */
  function Labelled(data: seq<MonthRow>): (entries: seq<MonthEntry>)
    requires forall i :: 0 <= i < |data| ==> 1 <= data[i].month <= 12
    ensures |entries| == |data|
    ensures forall i :: 0 <= i < |data| ==>
      entries[i] == MonthEntry(MonthAbbrev(data[i].month), Date(data[i].year, data[i].month, 1),
                               data[i].beneficiaries, data[i].parents)
  {
    seq(|data|, i requires 0 <= i < |data| =>
      MonthEntry(MonthAbbrev(data[i].month), Date(data[i].year, data[i].month, 1),
                 data[i].beneficiaries, data[i].parents))
  }

  /** The index of the first entry at or after `from` labelled `abbr`
      (`firstWhere('month', $abbr)`), `|entries|` when there is none. */
  function FirstLabelled(entries: seq<MonthEntry>, abbr: string, from: nat): (k: nat)
    requires from <= |entries|
    ensures from <= k <= |entries|
    ensures forall j :: from <= j < k ==> entries[j].month != abbr
    ensures k < |entries| ==> entries[k].month == abbr
    decreases |entries| - from
  {
    if from == |entries| || entries[from].month == abbr then from
    else FirstLabelled(entries, abbr, from + 1)
  }

  /** The slot of month `m` of `year` as the loop builds it: labelled with
      the month and dated the first of that month of `year`, with the figures
      of the first entry of the same abbreviation, or zeros. */
  function SlotFor(entries: seq<MonthEntry>, year: int, m: int): (s: MonthEntry)
    requires 1 <= m <= 12
    ensures s.month == MonthAbbrev(m) && s.date == Date(year, m, 1)
    ensures (forall i :: 0 <= i < |entries| ==> entries[i].month != MonthAbbrev(m)) ==>
      s.beneficiaries == 0 && s.parents == 0
    ensures forall k :: 0 <= k < |entries| && entries[k].month == MonthAbbrev(m)
                        && (forall j :: 0 <= j < k ==> entries[j].month != MonthAbbrev(m)) ==>
      s.beneficiaries == entries[k].beneficiaries && s.parents == entries[k].parents
  {
    var abbr := MonthAbbrev(m);
    var k := FirstLabelled(entries, abbr, 0);
    if k < |entries| then MonthEntry(abbr, Date(year, m, 1), entries[k].beneficiaries, entries[k].parents)
    else MonthEntry(abbr, Date(year, m, 1), 0, 0)
  }

  /** The `for` loop over the twelve months of `year`. */
  method MonthlySeries(entries: seq<MonthEntry>, year: int) returns (slots: seq<MonthEntry>)
    ensures |slots| == 12
    ensures forall i :: 0 <= i < 12 ==> slots[i] == SlotFor(entries, year, i + 1)
  {
    slots := [];
    for m := 1 to 13
      invariant |slots| == m - 1
      invariant forall i :: 0 <= i < m - 1 ==> slots[i] == SlotFor(entries, year, i + 1)
    {
      var abbr := MonthAbbrev(m);
      var k := FirstLabelled(entries, abbr, 0);
      var slot := if k < |entries| then MonthEntry(abbr, Date(year, m, 1), entries[k].beneficiaries, entries[k].parents)
                  else MonthEntry(abbr, Date(year, m, 1), 0, 0);
      slots := slots + [slot];
    }
  }

  /** The twelve slots come in calendar order, one per month of `year`. */
  lemma SlotsInOrder(entries: seq<MonthEntry>, year: int, m: int, n: int)
    requires 1 <= m < n <= 12
    ensures Before(SlotFor(entries, year, m).date, SlotFor(entries, year, n).date)
    ensures SlotFor(entries, year, m).month != SlotFor(entries, year, n).month
  {
    MonthAbbrevInjective(m, n);
  }

  /** Entries come from query rows in chronological order, so the entry that
      fills a slot is the earliest one of that month, whatever its year. */
  lemma SlotTakesEarliestYear(data: seq<MonthRow>, year: int, m: int, k: nat, j: nat)
    requires forall i :: 0 <= i < |data| ==> 1 <= data[i].month <= 12
    requires SortedBy(data, RowIndex)
    requires 1 <= m <= 12 && k < |data| && j < |data|
    requires k == FirstLabelled(Labelled(data), MonthAbbrev(m), 0)
    requires data[j].month == m
    ensures data[k].month == m && data[k].year <= data[j].year
  {
    var entries := Labelled(data);
    if data[k].month != m {
      MonthAbbrevInjective(data[k].month, m);
    }
    assert entries[j].month == MonthAbbrev(m);
    assert RowIndex(data[k]) <= RowIndex(data[j]);
  }

  /** As written, a slot of this year shows the figures of the same month of
      an earlier year: with rows created in January 2024 and January 2025,
      the slot dated 1 January 2025 carries the 2024 figures. */
  lemma EarlierYearFillsSlot()
    ensures var entries := [MonthEntry("Jan", Date(2024, 1, 1), 5, 1), MonthEntry("Jan", Date(2025, 1, 1), 3, 0)];
      SlotFor(entries, 2025, 1) == MonthEntry("Jan", Date(2025, 1, 1), 5, 1)
  {
    var entries := [MonthEntry("Jan", Date(2024, 1, 1), 5, 1), MonthEntry("Jan", Date(2025, 1, 1), 3, 0)];
    assert MonthAbbrev(1) == "Jan";
    assert FirstLabelled(entries, "Jan", 0) == 0;
  }

  /** The rows created in `year`. */
  function InYear(calendar: int -> Date, year: int): Record -> bool {
    (r: Record) => calendar(r.createdAt).year == year
  }

  /** The query restricted to the rows created in `year`
      (`whereYear('created_at', $currentYear)`), which also makes the limit
      of twelve months redundant. */
  function MonthlyDataForYear(rows: seq<Record>, calendar: int -> Date, year: int): (data: seq<MonthRow>)
    ensures SortedBy(data, RowIndex)
    ensures forall i :: 0 <= i < |data| ==> data[i].year == year
    ensures (forall t :: 1 <= calendar(t).month <= 12) ==> forall i :: 0 <= i < |data| ==> 1 <= data[i].month <= 12
    ensures forall i :: 0 <= i < |data| ==>
      data[i].beneficiaries == CountOf(Filter(rows, InYear(calendar, year)), MonthOf(calendar), (year, data[i].month)) > 0
    ensures forall i :: 0 <= i < |data| ==>
      data[i].parents == ParentsIn(Filter(rows, InYear(calendar, year)), calendar, (year, data[i].month))
  {
    var mine := Filter(rows, InYear(calendar, year));
    var data := Tally(mine, MonthOf(calendar), SortedKeys(mine, MonthOf(calendar), MonthIndex), ParentsOf(mine, calendar));
    TallyOfOccurring(mine, MonthOf(calendar), ParentsOf(mine, calendar));
    forall i | 0 <= i < |data|
      ensures data[i].year == year
      ensures exists t :: data[i].month == calendar(t).month
    {
      KeyWitness(rows, InYear(calendar, year), MonthOf(calendar), (data[i].year, data[i].month));
      var x :| x in rows && InYear(calendar, year)(x) && MonthOf(calendar)(x) == (data[i].year, data[i].month);
      assert data[i].month == calendar(x.createdAt).month;
    }
    data
  }

  /** The tally of the keys that occur is in chronological order, and each
      row carries a positive count and the parent count of its own key. */
  lemma TallyOfOccurring<T>(s: seq<T>, cls: T -> (int, int), parents: ((int, int)) -> nat)
    ensures var data := Tally(s, cls, SortedKeys(s, cls, MonthIndex), parents);
      SortedBy(data, RowIndex)
    ensures var data := Tally(s, cls, SortedKeys(s, cls, MonthIndex), parents);
      forall i :: 0 <= i < |data| ==>
        data[i].beneficiaries == CountOf(s, cls, (data[i].year, data[i].month)) > 0
        && data[i].parents == parents((data[i].year, data[i].month))
  {
    var ks := SortedKeys(s, cls, MonthIndex);
    var data := Tally(s, cls, ks, parents);
    forall i | 0 <= i < |data|
      ensures RowIndex(data[i]) == MonthIndex(ks[i])
      ensures data[i].beneficiaries == CountOf(s, cls, (data[i].year, data[i].month)) > 0
      ensures data[i].parents == parents((data[i].year, data[i].month))
    {
      assert (data[i].year, data[i].month) == ks[i];
      assert ks[i] in ks;
    }
  }

  /** Every month of `year` in which some row was created has its row. */
  lemma MonthlyDataForYearCovers(rows: seq<Record>, calendar: int -> Date, year: int, m: int)
    requires CountOf(Filter(rows, InYear(calendar, year)), MonthOf(calendar), (year, m)) > 0
    ensures var data := MonthlyDataForYear(rows, calendar, year);
      exists i :: 0 <= i < |data| && data[i].month == m
  {
    var mine := Filter(rows, InYear(calendar, year));
    var ks := SortedKeys(mine, MonthOf(calendar), MonthIndex);
    var data := Tally(mine, MonthOf(calendar), ks, ParentsOf(mine, calendar));
    assert data == MonthlyDataForYear(rows, calendar, year);
    assert (year, m) in ks;
    var i :| 0 <= i < |ks| && ks[i] == (year, m);
    assert data[i].month == m;
  }

  /** Corrected: with the query restricted to `year`, the slot of month `m`
      counts exactly the rows created in month `m` of `year`. */
  lemma SlotCountsItsMonth(rows: seq<Record>, calendar: int -> Date, year: int, m: int)
    requires forall t :: 1 <= calendar(t).month <= 12
    requires 1 <= m <= 12
    ensures var data := MonthlyDataForYear(rows, calendar, year);
      SlotFor(Labelled(data), year, m).beneficiaries == CountOf(rows, MonthOf(calendar), (year, m))
  {
    YearSlotCounts(rows, calendar, year, m);
    YearFilterKeepsMonth(rows, calendar, year, m);
  }

  /** The slot of month `m` counts the rows of the restricted query created
      in that month. */
  lemma YearSlotCounts(rows: seq<Record>, calendar: int -> Date, year: int, m: int)
    requires var data := MonthlyDataForYear(rows, calendar, year);
      forall i :: 0 <= i < |data| ==> 1 <= data[i].month <= 12
    requires 1 <= m <= 12
    ensures var data := MonthlyDataForYear(rows, calendar, year);
      SlotFor(Labelled(data), year, m).beneficiaries
        == CountOf(Filter(rows, InYear(calendar, year)), MonthOf(calendar), (year, m))
  {
    var mine := Filter(rows, InYear(calendar, year));
    var ks := SortedKeys(mine, MonthOf(calendar), MonthIndex);
    var data := Tally(mine, MonthOf(calendar), ks, ParentsOf(mine, calendar));
    assert data == MonthlyDataForYear(rows, calendar, year);
    forall i | 0 <= i < |ks|
      ensures ks[i].0 == year && 1 <= ks[i].1 <= 12
    {
      assert (data[i].year, data[i].month) == ks[i];
    }
    TallySlot(mine, MonthOf(calendar), ks, ParentsOf(mine, calendar), year, m);
  }

  /** For a tally of keys of `year` that holds (`year`, `m`) whenever it
      occurs, the slot of month `m` shows the number of elements of that
      key. */
  lemma TallySlot<T>(s: seq<T>, cls: T -> (int, int), ks: seq<(int, int)>, parents: ((int, int)) -> nat,
                     year: int, m: int)
    requires forall i :: 0 <= i < |ks| ==> ks[i].0 == year && 1 <= ks[i].1 <= 12
    requires CountOf(s, cls, (year, m)) > 0 ==> (year, m) in ks
    requires 1 <= m <= 12
    ensures var data := Tally(s, cls, ks, parents);
      SlotFor(Labelled(data), year, m).beneficiaries == CountOf(s, cls, (year, m))
  {
    var data := Tally(s, cls, ks, parents);
    var count := CountOf(s, cls, (year, m));
    var w: nat := 0;
    if count > 0 {
      w :| w < |ks| && ks[w] == (year, m);
    }
    TallyRowsOfMonth(s, cls, ks, parents, year, m);
    SlotReadsMonth(data, year, m, count, w);
  }

  /** In a tally of keys of `year`, every row of month `m` carries the count
      of key (`year`, `m`). */
  lemma TallyRowsOfMonth<T>(s: seq<T>, cls: T -> (int, int), ks: seq<(int, int)>, parents: ((int, int)) -> nat,
                            year: int, m: int)
    requires forall i :: 0 <= i < |ks| ==> ks[i].0 == year
    ensures var data := Tally(s, cls, ks, parents);
      forall i :: 0 <= i < |data| && data[i].month == m ==> data[i].beneficiaries == CountOf(s, cls, (year, m))
  {
    var data := Tally(s, cls, ks, parents);
    forall i | 0 <= i < |data| && data[i].month == m
      ensures data[i].beneficiaries == CountOf(s, cls, (year, m))
    {
      assert ks[i] == (year, m);
    }
  }

  /** Restricting to `year` keeps every row created in a month of `year`. */
  lemma YearFilterKeepsMonth(rows: seq<Record>, calendar: int -> Date, year: int, m: int)
    ensures CountOf(Filter(rows, InYear(calendar, year)), MonthOf(calendar), (year, m))
         == CountOf(rows, MonthOf(calendar), (year, m))
  {
    CountOfFilterKeeps(rows, InYear(calendar, year), MonthOf(calendar), (year, m));
  }

  /** The slot of month `m` shows `count` when every row of that month
      carries `count` and, for a positive count, row `w` is one. */
  lemma SlotReadsMonth(data: seq<MonthRow>, year: int, m: int, count: nat, w: nat)
    requires forall i :: 0 <= i < |data| ==> 1 <= data[i].month <= 12
    requires 1 <= m <= 12
    requires forall i :: 0 <= i < |data| && data[i].month == m ==> data[i].beneficiaries == count
    requires count > 0 ==> w < |data| && data[w].month == m
    ensures SlotFor(Labelled(data), year, m).beneficiaries == count
  {
    var entries := Labelled(data);
    var k := FirstLabelled(entries, MonthAbbrev(m), 0);
    if k < |entries| {
      if data[k].month != m {
        MonthAbbrevInjective(data[k].month, m);
      }
    }
  }
}
