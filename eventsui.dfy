/** The events pages: the two next upcoming events of the dashboard widget,
    the status tabs, the events of the day picked in the calendar, the
    calendar's event-day marks and the status badge. Event dates are
    calendar days; `Ordinal` orders them as their times do. */
module EventsPage {
  import opened Wrappers
  import opened Strings
  import opened Seqs
  import opened Dates
  import opened Events

  // ---------------------------------------------------------------------
  // The upcoming-events widget

  /** The first `n` elements in ascending `key` order, drawn from the
      input. */
  function Earliest<T>(s: seq<T>, key: T -> int, n: nat): (r: seq<T>)
    ensures |r| == if |s| <= n then |s| else n
    ensures SortedBy(r, key)
    ensures multiset(r) <= multiset(s)
  {
    var sorted := SortBy(s, key);
    TakeSubMultiset(sorted, n);
    TakeSorted(sorted, key, n);
    Take(sorted, n)
  }

  /** Nothing earlier is passed over: an element left out means the result
      is full of elements whose keys are no larger. */
  lemma EarliestKeepsLeast<T>(s: seq<T>, key: T -> int, n: nat, x: T)
    requires x in s
    ensures x in Earliest(s, key, n)
      || (|Earliest(s, key, n)| == n && forall j :: 0 <= j < n ==> key(Earliest(s, key, n)[j]) <= key(x))
  {
    var sorted := SortBy(s, key);
    assert x in multiset(s);
    assert x in sorted by {
      assert x in multiset(sorted);
    }
    TakeSortedKeepsLeast(sorted, key, n, x);
  }

  function HasStatus(status: string): Event -> bool {
    (e: Event) => e.status == status
  }

  function DateKey(e: Event): int {
    Ordinal(e.date)
  }

  /** `EventsList`: the upcoming events, by date, the first two. */
  function NextUpcoming(events: seq<Event>): (r: seq<Event>)
    ensures |r| <= 2
    ensures forall e :: e in r ==> e.status == "upcoming" && e in events
    ensures SortedBy(r, DateKey)
    ensures multiset(r) <= multiset(Filter(events, HasStatus("upcoming")))
  {
    var r := Earliest(Filter(events, HasStatus("upcoming")), DateKey, 2);
    forall e | e in r
      ensures e.status == "upcoming" && e in events
    {
      assert e in multiset(r);
      assert e in Filter(events, HasStatus("upcoming"));
    }
    r
  }

  /** An upcoming event left out of the widget has two events no later than
      it shown instead. */
  lemma NextUpcomingKeepsEarliest(events: seq<Event>, e: Event)
    requires e in events && e.status == "upcoming"
    ensures e in NextUpcoming(events)
      || (|NextUpcoming(events)| == 2 && forall j :: 0 <= j < 2 ==> DateKey(NextUpcoming(events)[j]) <= DateKey(e))
  {
    var i :| 0 <= i < |events| && events[i] == e;
    assert e in Filter(events, HasStatus("upcoming"));
    EarliestKeepsLeast(Filter(events, HasStatus("upcoming")), DateKey, 2, e);
  }

  /** For valid dates the order by `Ordinal` is calendar order: the first
      event shown is not after the second. */
  lemma NextUpcomingInDateOrder(events: seq<Event>)
    requires forall i :: 0 <= i < |events| ==> IsValid(events[i].date)
    requires |NextUpcoming(events)| == 2
    ensures NotAfter(NextUpcoming(events)[0].date, NextUpcoming(events)[1].date)
  {
    var r := NextUpcoming(events);
    assert r[0] in r && r[1] in r;
    OrdinalOrder(r[0].date, r[1].date);
  }

  /** With at most two upcoming events, all of them are shown. */
  lemma FewUpcomingAllShown(events: seq<Event>)
    requires |Filter(events, HasStatus("upcoming"))| <= 2
    ensures multiset(NextUpcoming(events)) == multiset(Filter(events, HasStatus("upcoming")))
  {
    var up := Filter(events, HasStatus("upcoming"));
    var sorted := SortBy(up, DateKey);
    assert Take(sorted, 2) == sorted;
  }

  // ---------------------------------------------------------------------
  // The status tabs

  /** The events of one status tab, in input order. */
  function WithStatus(events: seq<Event>, status: string): (r: seq<Event>)
    ensures forall e :: e in r ==> e.status == status && e in events
    ensures forall e :: e in events && e.status == status ==> e in r
    ensures |r| == Count(events, HasStatus(status))
  {
    var r := Filter(events, HasStatus(status));
    CountIsFilterLength(events, HasStatus(status));
    r
  }

  function CurrentEvents(events: seq<Event>): seq<Event> {
    WithStatus(events, "current")
  }

  function UpcomingEvents(events: seq<Event>): seq<Event> {
    WithStatus(events, "upcoming")
  }

  function EndedEvents(events: seq<Event>): seq<Event> {
    WithStatus(events, "ended")
  }

  /** No event sits in two tabs, and one with any other status sits in none
      (it shows only under "All"). */
  lemma TabsDisjoint(events: seq<Event>, e: Event)
    ensures !(e in CurrentEvents(events) && e in UpcomingEvents(events))
    ensures !(e in CurrentEvents(events) && e in EndedEvents(events))
    ensures !(e in UpcomingEvents(events) && e in EndedEvents(events))
    ensures e.status != "current" && e.status != "upcoming" && e.status != "ended" ==>
      e !in CurrentEvents(events) && e !in UpcomingEvents(events) && e !in EndedEvents(events)
  {
  }

  function InSomeTab(e: Event): bool {
    e.status == "current" || e.status == "upcoming" || e.status == "ended"
  }

  function CurrentOrUpcoming(e: Event): bool {
    e.status == "current" || e.status == "upcoming"
  }

  /** When every event has one of the three statuses the form allows, the
      three tabs together hold every event once. */
  lemma TabsPartition(events: seq<Event>)
    requires forall i :: 0 <= i < |events| ==> StatusOk(Some(events[i].status))
    ensures |CurrentEvents(events)| + |UpcomingEvents(events)| + |EndedEvents(events)| == |events|
  {
    CountUnion(events, HasStatus("current"), HasStatus("upcoming"), CurrentOrUpcoming);
    CountUnion(events, CurrentOrUpcoming, HasStatus("ended"), InSomeTab);
    assert Count(events, InSomeTab) == |events|;
  }

  // ---------------------------------------------------------------------
  // The calendar

  function OnDay(day: Date): Event -> bool {
    (e: Event) => SameDay(e.date, day)
  }

  /** `filteredEvents`: with no day picked, nothing; otherwise the events on
      that day, in input order. */
  function DayEvents(events: seq<Event>, picked: Option<Date>): (r: seq<Event>)
    ensures picked.None? ==> r == []
    ensures picked.Some? ==> r == Filter(events, OnDay(picked.value))
    ensures forall e :: e in r ==> picked.Some? && SameDay(e.date, picked.value) && e in events
    ensures picked.Some? ==> forall e :: e in events && SameDay(e.date, picked.value) ==> e in r
  {
    if picked.None? then [] else Filter(events, OnDay(picked.value))
  }

  /** The calendar's `event` modifier: some event falls on the day. */
  predicate MarkedDay(events: seq<Event>, day: Date) {
    exists i :: 0 <= i < |events| && SameDay(events[i].date, day)
  }

  /** A day is marked exactly when picking it lists some event. */
  lemma MarkedIffListed(events: seq<Event>, day: Date)
    ensures MarkedDay(events, day) <==> DayEvents(events, Some(day)) != []
  {
    if MarkedDay(events, day) {
      var i :| 0 <= i < |events| && SameDay(events[i].date, day);
      assert events[i] in DayEvents(events, Some(day));
    }
    if DayEvents(events, Some(day)) != [] {
      var e := DayEvents(events, Some(day))[0];
      assert e in DayEvents(events, Some(day));
      var i :| 0 <= i < |events| && events[i] == e;
    }
  }

  // ---------------------------------------------------------------------
  // The status badge

  /** The badge text: the status with its first character upper-cased. */
  function StatusBadge(status: string): (badge: string)
    ensures |badge| == |status|
    ensures status != "" ==> badge[0] == UpperChar(status[0]) && badge[1..] == status[1..]
    ensures Lower(badge) == Lower(status)
  {
    LowerOfCapitalize(status);
    Capitalize(status)
  }
}
