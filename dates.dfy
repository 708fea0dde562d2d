/** Calendar dates as (year, month, day) triples, their order, whole-year
    ages and month abbreviations. */
module Dates {

  datatype Date = Date(year: int, month: int, day: int)

  predicate IsLeapYear(y: int) {
    (y % 4 == 0 && y % 100 != 0) || y % 400 == 0
  }

  function DaysInMonth(y: int, m: int): (n: int)
    requires 1 <= m <= 12
    ensures 28 <= n <= 31
  {
    if m == 2 then (if IsLeapYear(y) then 29 else 28)
    else if m == 4 || m == 6 || m == 9 || m == 11 then 30
    else 31
  }

  /** A real calendar day (what Laravel's `date` rule accepts once parsed). */
  predicate IsValid(d: Date) {
    1 <= d.month <= 12 && 1 <= d.day <= DaysInMonth(d.year, d.month)
  }

  /** Chronological order: year, then month, then day. */
  predicate Before(a: Date, b: Date) {
    a.year < b.year
    || (a.year == b.year && a.month < b.month)
    || (a.year == b.year && a.month == b.month && a.day < b.day)
  }

  predicate NotAfter(a: Date, b: Date) {
    a == b || Before(a, b)
  }

  /** An integer that orders valid dates chronologically: the sort key used
      for `new Date(d).getTime()` comparisons and SQL `ORDER BY date`. */
  function Ordinal(d: Date): int {
    (d.year * 13 + d.month) * 32 + d.day
  }

  lemma OrdinalOrder(a: Date, b: Date)
    requires IsValid(a) && IsValid(b)
    ensures Ordinal(a) <= Ordinal(b) <==> NotAfter(a, b)
    ensures Ordinal(a) == Ordinal(b) <==> a == b
  {
    if a.year < b.year {
      assert a.year * 13 + a.month < b.year * 13 + b.month;
    } else if a.year > b.year {
      assert a.year * 13 + a.month > b.year * 13 + b.month;
    }
  }

  /** `getDate()`, `getMonth()` and `getFullYear()` all agree. */
  predicate SameDay(a: Date, b: Date) {
    a.day == b.day && a.month == b.month && a.year == b.year
  }

  /** The `n`-th anniversary of `birth` (same month and day, `n` years on)
      falls on or before `today`. */
  predicate AnniversaryReached(birth: Date, n: int, today: Date) {
    NotAfter(Date(birth.year + n, birth.month, birth.day), today)
  }

  /** Whole years from `birth` to `today`: the year difference, one less when
      today's (month, day) comes before the birth (month, day). This is the
      `calculateAge` of the beneficiary view. The result is the number of
      anniversaries reached: the n-th one is reached, the (n+1)-th not. For a
      birth date after today it is negative, counting the year not yet
      begun. */
  function Age(birth: Date, today: Date): (age: int)
    ensures AnniversaryReached(birth, age, today)
    ensures !AnniversaryReached(birth, age + 1, today)
  {
    var years := today.year - birth.year;
    var monthDiff := today.month - birth.month;
    if monthDiff < 0 || (monthDiff == 0 && today.day < birth.day) then years - 1 else years
  }

  /** MySQL's `TIMESTAMPDIFF(YEAR, from, to)`: the whole years between the two
      dates, truncated toward zero, so that a `to` before `from` gives the
      whole years back from `from` to `to`, negated. */
  function YearsBetween(from: Date, to: Date): (n: int)
    ensures NotAfter(from, to) ==> n >= 0 && AnniversaryReached(from, n, to) && !AnniversaryReached(from, n + 1, to)
    ensures Before(to, from) ==> n <= 0 && AnniversaryReached(to, -n, from) && !AnniversaryReached(to, -n + 1, from)
  {
    if NotAfter(from, to) then
      AgeNonNegative(from, to);
      Age(from, to)
    else
      AgeNonNegative(to, from);
      -Age(to, from)
  }

  /** Swapping the dates negates the difference. */
  lemma YearsBetweenAntisymmetric(a: Date, b: Date)
    ensures YearsBetween(b, a) == -YearsBetween(a, b)
  {
    if a != b && NotAfter(a, b) {
      assert Before(a, b) && !NotAfter(b, a);
    }
  }

  /** For a birth date not after today the SQL difference and the view's age
      agree; for one after today they differ, by one year and sign, whenever
      the birthday is less than a year ahead. */
  lemma YearsBetweenAndAge(birth: Date, today: Date)
    ensures NotAfter(birth, today) ==> YearsBetween(birth, today) == Age(birth, today)
    ensures Before(today, birth) && !AnniversaryReached(today, 1, birth) ==>
      YearsBetween(birth, today) == 0 && Age(birth, today) == -1
  {
    if Before(today, birth) && !AnniversaryReached(today, 1, birth) {
      AgeUnique(today, birth, 0);
      AgeUnique(birth, today, -1);
    }
  }

  /** On the birthday itself the age is the plain difference of years. */
  lemma AgeOnBirthday(birth: Date, today: Date)
    requires today.month == birth.month && today.day == birth.day
    ensures Age(birth, today) == today.year - birth.year
  {
  }

  /** A birth date not after today gives an age of at least zero. */
  lemma AgeNonNegative(birth: Date, today: Date)
    requires NotAfter(birth, today)
    ensures Age(birth, today) >= 0
  {
  }

  /** The age is determined by the anniversary property alone. */
  lemma AgeUnique(birth: Date, today: Date, n: int)
    requires AnniversaryReached(birth, n, today) && !AnniversaryReached(birth, n + 1, today)
    ensures n == Age(birth, today)
  {
    var a := Age(birth, today);
    if n < a {
      AnniversaryMonotonic(birth, n + 1, a, today);
    } else if n > a {
      AnniversaryMonotonic(birth, a + 1, n, today);
    }
  }

  lemma AnniversaryMonotonic(birth: Date, m: int, n: int, today: Date)
    requires m <= n && AnniversaryReached(birth, n, today)
    ensures AnniversaryReached(birth, m, today)
  {
  }

  /** PHP `date('M')`: the three-letter English month abbreviation. */
  function MonthAbbrev(m: int): (r: string)
    requires 1 <= m <= 12
    ensures |r| == 3
  {
    ["Jan", "Feb", "Mar", "Apr", "May", "Jun", "Jul", "Aug", "Sep", "Oct", "Nov", "Dec"][m - 1]
  }

  /** Distinct months have distinct abbreviations. */
  lemma MonthAbbrevInjective(m: int, n: int)
    requires 1 <= m <= 12 && 1 <= n <= 12 && m != n
    ensures MonthAbbrev(m) != MonthAbbrev(n)
  {
  }
}
