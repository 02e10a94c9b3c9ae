/** Gregorian months. An instant is a number of microseconds since 0000-01-01T00:00 UTC, a
    month is `12 * year + (month - 1)`. */
module Calendar {

  const DAY: nat := 86_400_000_000

  predicate IsLeap(year: nat) {
    year % 4 == 0 && (year % 100 != 0 || year % 400 == 0)
  }

  function DaysIn(m: nat): (n: nat)
    ensures 28 <= n <= 31
  {
    var k := m % 12;
    if k == 1 then (if IsLeap(m / 12) then 29 else 28)
    else if k == 3 || k == 5 || k == 8 || k == 10 then 30
    else 31
  }

  /** The number of the first day of a month. */
  function MonthStart(m: nat): nat {
    if m == 0 then 0 else MonthStart(m - 1) + DaysIn(m - 1)
  }

  function MonthFrom(m: nat, day: nat): (r: nat)
    requires MonthStart(m) <= day
    ensures MonthStart(r) <= day < MonthStart(r + 1)
    decreases day - MonthStart(m)
  {
    if day < MonthStart(m + 1) then m else MonthFrom(m + 1, day)
  }

  function MonthOfDay(day: nat): (m: nat)
    ensures MonthStart(m) <= day < MonthStart(m + 1)
  {
    MonthFrom(0, day)
  }

  function DayOf(t: nat): nat {
    t / DAY
  }

  /** The month an instant lies in. */
  function MonthOf(t: nat): nat {
    MonthOfDay(DayOf(t))
  }

  function DayOfMonth(t: nat): (d: nat)
    ensures 1 <= d <= DaysIn(MonthOf(t))
  {
    assert MonthStart(MonthOf(t) + 1) == MonthStart(MonthOf(t)) + DaysIn(MonthOf(t));
    DayOf(t) - MonthStart(MonthOf(t)) + 1
  }

  /** The instant a month begins: both bounds of its partition are of this form. */
  function FirstInstant(m: nat): nat {
    MonthStart(m) * DAY
  }

  lemma {:induction false} MonthStartSpread(m: nat, n: nat)
    requires m <= n
    ensures MonthStart(m) + 28 * (n - m) <= MonthStart(n)
  {
    if m < n { MonthStartSpread(m, n - 1); }
  }

  /** The months tile the time line: an instant is in the range of its own month and no other. */
  lemma MonthsTile(t: nat, m: nat)
    ensures FirstInstant(m) <= t < FirstInstant(m + 1) <==> MonthOf(t) == m
  {
    var k := MonthOf(t);
    if k < m { MonthStartSpread(k + 1, m); }
    if m < k { MonthStartSpread(m + 1, k); }
  }

  lemma MonthMonotone(t: nat, u: nat)
    requires t <= u
    ensures MonthOf(t) <= MonthOf(u)
  {
    if MonthOf(u) < MonthOf(t) { MonthStartSpread(MonthOf(u) + 1, MonthOf(t)); }
  }

  // ---- date and time fields ---------------------------------------------------------

  /** A `datetime` in UTC. */
  datatype Moment = Moment(year: int, month: int, day: int, micros: int) {
    /** The constructor refuses anything else. */
    predicate Valid() {
      && 1 <= year <= 9999 && 1 <= month <= 12
      && 1 <= day <= DaysIn(Index())
      && 0 <= micros < DAY
    }

    function Index(): nat
      requires 1 <= year && 1 <= month <= 12
    {
      12 * year + month - 1
    }

    function Ticks(): nat
      requires Valid()
    {
      (MonthStart(Index()) + day - 1) * DAY + micros
    }
  }

  /** The years a `datetime` can hold. */
  predicate InYears(m: nat) {
    12 <= m <= 119_999
  }

  function MomentAt(t: nat): Moment {
    var m := MonthOf(t);
    Moment(m / 12, m % 12 + 1, DayOfMonth(t), t % DAY)
  }

  /** The fields of an instant determine it, and the month of the fields is its month. */
  lemma MomentRoundTrip(t: nat)
    requires InYears(MonthOf(t))
    ensures MomentAt(t).Valid() && MomentAt(t).Ticks() == t && MomentAt(t).Index() == MonthOf(t)
  {
  }

  lemma TicksRoundTrip(d: Moment)
    requires d.Valid()
    ensures MonthOf(d.Ticks()) == d.Index() && MomentAt(d.Ticks()) == d
  {
    var t := d.Ticks();
    assert DayOf(t) == MonthStart(d.Index()) + d.day - 1;
    assert MonthStart(d.Index() + 1) == MonthStart(d.Index()) + DaysIn(d.Index());
    MonthsTile(t, d.Index());
  }

  // ---- going back some days ---------------------------------------------------------

  lemma DayBack(t: nat, days: nat)
    requires t >= days * DAY
    ensures DayOf(t - days * DAY) == DayOf(t) - days
  {
  }

  lemma BeforeMonth(day: nat, m: nat)
    ensures MonthOfDay(day) < m <==> day < MonthStart(m)
  {
    var k := MonthOfDay(day);
    if k < m { MonthStartSpread(k + 1, m); } else { MonthStartSpread(m, k); }
  }

  lemma OnlyFebruaryIsShort(m: nat)
    ensures DaysIn(m) < 30 <==> m % 12 == 1
  {
  }

  lemma TwoMonthsAreLong(m: nat)
    ensures DaysIn(m) + DaysIn(m + 1) >= 59
  {
    OnlyFebruaryIsShort(m);
    OnlyFebruaryIsShort(m + 1);
  }

  lemma LastTwoMonths(m: nat)
    requires m >= 2
    ensures MonthStart(m - 2) + 59 <= MonthStart(m) == MonthStart(m - 1) + DaysIn(m - 1)
    ensures DaysIn(m - 1) < 30 <==> m % 12 == 2
  {
    BeforeMarchIsFebruary(m);
    TwoMonthsAreLong(m - 2);
    assert MonthStart(m - 1) == MonthStart(m - 2) + DaysIn(m - 2);
  }

  lemma BeforeMarchIsFebruary(m: nat)
    requires m >= 1
    ensures DaysIn(m - 1) < 30 <==> m % 12 == 2
  {
    OnlyFebruaryIsShort(m - 1);
  }

  /** Thirty days back is never more than two months back. */
  lemma ThirtyDaysBack(t: nat)
    requires t >= 30 * DAY
    ensures MonthOf(t) - 2 <= MonthOf(t - 30 * DAY) <= MonthOf(t)
  {
    var m := MonthOf(t);
    DayBack(t, 30);
    MonthMonotone(t - 30 * DAY, t);
    if m >= 2 {
      LastTwoMonths(m);
      BeforeMonth(DayOf(t) - 30, m - 2);
    }
  }

  /** It is two months back exactly in the first days of March: the 1st, and outside leap years
      the 2nd. */
  lemma TwoMonthsBackIsMarch(t: nat)
    requires t >= 30 * DAY && MonthOf(t) >= 2
    ensures MonthOf(t - 30 * DAY) == MonthOf(t) - 2
            <==> MonthOf(t) % 12 == 2 && DayOfMonth(t) <= 30 - DaysIn(MonthOf(t) - 1)
  {
    var m := MonthOf(t);
    DayBack(t, 30);
    ThirtyDaysBack(t);
    LastTwoMonths(m);
    BeforeMonth(DayOf(t) - 30, m - 1);
    EarlyInMonth(t);
  }

  lemma EarlyInMonth(t: nat)
    requires MonthOf(t) >= 1
    ensures DayOf(t) - 30 < MonthStart(MonthOf(t) - 1) <==> DayOfMonth(t) <= 30 - DaysIn(MonthOf(t) - 1)
  {
  }

  // ---- the closed form --------------------------------------------------------------

  /** The leap years before this year. */
  function LeapsBefore(year: nat): nat {
    (year + 3) / 4 - (year + 99) / 100 + (year + 399) / 400
  }

  lemma NextQuarter(n: nat)
    ensures (n + 4) / 4 == (n + 3) / 4 + if n % 4 == 0 then 1 else 0
  {
  }

  lemma NextCentury(n: nat)
    ensures (n + 100) / 100 == (n + 99) / 100 + if n % 100 == 0 then 1 else 0
  {
  }

  lemma NextCycle(n: nat)
    ensures (n + 400) / 400 == (n + 399) / 400 + if n % 400 == 0 then 1 else 0
  {
  }

  lemma Multiples(k: nat)
    ensures 4 * k % 4 == 0 && 100 * k % 100 == 0
  {
  }

  lemma CenturiesAreQuarters(n: nat)
    ensures n % 100 == 0 ==> n % 4 == 0
  {
    Multiples(25 * (n / 100));
  }

  lemma CyclesAreCenturies(n: nat)
    ensures n % 400 == 0 ==> n % 100 == 0
  {
    Multiples(4 * (n / 400));
  }

  lemma LeapsOneMore(year: nat)
    ensures LeapsBefore(year + 1) == LeapsBefore(year) + if IsLeap(year) then 1 else 0
  {
    CenturiesAreQuarters(year);
    CyclesAreCenturies(year);
    NextQuarter(year);
    NextCentury(year);
    NextCycle(year);
  }

  /** The days of a year before its month, outside leap years. */
  function DaysBefore(month: nat): nat
    requires month < 12
  {
    [0, 31, 59, 90, 120, 151, 181, 212, 243, 273, 304, 334][month]
  }

  lemma MonthIndex(year: nat, month: nat)
    requires month < 12
    ensures (12 * year + month) % 12 == month && (12 * year + month) / 12 == year
  {
  }

  lemma DaysOfMonth(year: nat, month: nat)
    requires month < 12
    ensures DaysIn(12 * year + month)
            == if month == 1 && IsLeap(year) then 29 else if month == 11 then 31 else DaysBefore(month + 1) - DaysBefore(month)
  {
    MonthIndex(year, month);
  }

  lemma MonthInYear(year: nat, month: nat)
    requires month < 12
    ensures MonthStart(12 * year + month) == MonthStart(12 * year) + DaysBefore(month) + if month > 1 && IsLeap(year) then 1 else 0
  {
    if month > 0 {
      MonthInYear(year, month - 1);
      DaysOfMonth(year, month - 1);
      var m := 12 * year + (month - 1);
      assert MonthStart(m + 1) == MonthStart(m) + DaysIn(m);
    }
  }

  lemma DecemberIs(year: nat)
    ensures MonthStart(12 * year + 12) == MonthStart(12 * year) + 365 + if IsLeap(year) then 1 else 0
  {
    var last := 12 * year + 11;
    MonthInYear(year, 11);
    DaysOfMonth(year, 11);
    assert MonthStart(last + 1) == MonthStart(last) + DaysIn(last);
  }

  lemma {:induction false} YearStart(year: nat)
    ensures MonthStart(12 * year) == 365 * year + LeapsBefore(year)
  {
    if year > 0 {
      YearStart(year - 1);
      DecemberIs(year - 1);
      LeapsOneMore(year - 1);
      assert 12 * (year - 1) + 12 == 12 * year;
    }
  }

  /** The number of the first day of a month in closed form. The first of January 1970 is day 719528,
      62167219200 seconds in. */
  lemma MonthStartIsGregorian(year: nat, month: nat)
    requires month < 12
    ensures MonthStart(12 * year + month)
            == 365 * year + LeapsBefore(year) + DaysBefore(month) + if month > 1 && IsLeap(year) then 1 else 0
    ensures MonthStart(12 * 1970) == 719_528 && FirstInstant(12 * 1970) == 62_167_219_200 * 1_000_000
  {
    YearStart(year);
    YearStart(1970);
    MonthInYear(year, month);
  }
}
