/** The Gregorian calendar, counted in days from 0001-01-01 (day 0, a Monday) and in minutes from
    its midnight, in one fixed time zone.

    The last lemmas are about what comes within 366 days: every date but 29 February, and every
    weekday in every month. */
module Calendar {

  datatype Date = Date(year: nat, month: nat, day: nat)

  predicate IsLeap(y: nat) { y % 4 == 0 && (y % 100 != 0 || y % 400 == 0) }

  function MonthLength(leap: bool, m: nat): nat {
    if m == 2 then if leap then 29 else 28
    else if m in {4, 6, 9, 11} then 30 else 31
  }

  /** Days of the year before month m begins. */
  function DaysBeforeMonth(leap: bool, m: nat): nat
    requires 1 <= m <= 13
  {
    if m == 1 then 0 else DaysBeforeMonth(leap, m - 1) + MonthLength(leap, m - 1)
  }

  function YearLength(y: nat): nat { if IsLeap(y) then 366 else 365 }

  /** Days before year y begins. */
  function DaysBeforeYear(y: nat): int
    requires y >= 1
  {
    365 * (y - 1) + (y - 1) / 4 - (y - 1) / 100 + (y - 1) / 400
  }

  predicate ValidDate(d: Date) {
    d.year >= 1 && 1 <= d.month <= 12 && 1 <= d.day <= MonthLength(IsLeap(d.year), d.month)
  }

  function DayNumber(d: Date): int
    requires ValidDate(d)
  {
    DaysBeforeYear(d.year) + DaysBeforeMonth(IsLeap(d.year), d.month) + d.day - 1
  }

  lemma YearStep(y: nat)
    requires y >= 1
    ensures DaysBeforeYear(y + 1) == DaysBeforeYear(y) + YearLength(y)
  {
    QuotientStep(y, 4);
    QuotientStep(y, 100);
    QuotientStep(y, 400);
  }

  lemma QuotientStep(y: nat, k: nat)
    requires y >= 1 && k in {4, 100, 400}
    ensures y / k == (y - 1) / k + if y % k == 0 then 1 else 0
  {
  }

  /** The year that holds day n, searched upwards from y. */
  function YearFrom(y: nat, n: nat): (z: nat)
    requires y >= 1 && DaysBeforeYear(y) <= n
    ensures z >= y && DaysBeforeYear(z) <= n < DaysBeforeYear(z) + YearLength(z)
    decreases n - DaysBeforeYear(y)
  {
    YearStep(y);
    if n < DaysBeforeYear(y + 1) then y else YearFrom(y + 1, n)
  }

  function MonthFrom(leap: bool, m: nat, d: nat): (r: (nat, nat))
    requires 1 <= m <= 12 && d < DaysBeforeMonth(leap, 13) - DaysBeforeMonth(leap, m)
    ensures m <= r.0 <= 12 && 1 <= r.1 <= MonthLength(leap, r.0)
    ensures DaysBeforeMonth(leap, r.0) + r.1 - 1 == DaysBeforeMonth(leap, m) + d
    decreases 12 - m
  {
    if d < MonthLength(leap, m) then (m, d + 1) else MonthFrom(leap, m + 1, d - MonthLength(leap, m))
  }

  lemma YearIsTwelveMonths(leap: bool)
    ensures DaysBeforeMonth(leap, 13) == if leap then 366 else 365
  {
    var a := DaysBeforeMonth(leap, 3);
    assert DaysBeforeMonth(leap, 2) == 31;
    assert a == 31 + MonthLength(leap, 2);
    assert DaysBeforeMonth(leap, 5) == a + 61;
    assert DaysBeforeMonth(leap, 7) == a + 122;
    assert DaysBeforeMonth(leap, 9) == a + 184;
    assert DaysBeforeMonth(leap, 11) == a + 245;
    assert DaysBeforeMonth(leap, 13) == a + 306;
  }

  /** The date of day n. */
  function CivilDate(n: nat): (d: Date)
    ensures ValidDate(d) && DayNumber(d) == n
  {
    var y := YearFrom(1, n);
    YearIsTwelveMonths(IsLeap(y));
    var md := MonthFrom(IsLeap(y), 1, n - DaysBeforeYear(y));
    Date(y, md.0, md.1)
  }

  lemma {:induction false} DaysBeforeMonthRises(leap: bool, m: nat, k: nat)
    requires 1 <= m < k <= 13
    ensures DaysBeforeMonth(leap, m) + MonthLength(leap, m) <= DaysBeforeMonth(leap, k)
  {
    if m + 1 < k {
      DaysBeforeMonthRises(leap, m, k - 1);
    }
  }

  lemma {:induction false} DaysBeforeYearRises(y: nat, z: nat)
    requires 1 <= y < z
    ensures DaysBeforeYear(y) + YearLength(y) <= DaysBeforeYear(z)
  {
    YearStep(z - 1);
    if y + 1 < z {
      DaysBeforeYearRises(y, z - 1);
    }
  }

  lemma DateWithinYear(d: Date)
    requires ValidDate(d)
    ensures DaysBeforeYear(d.year) <= DayNumber(d) < DaysBeforeYear(d.year) + YearLength(d.year)
  {
    DaysBeforeMonthRises(IsLeap(d.year), d.month, 13);
    YearIsTwelveMonths(IsLeap(d.year));
  }

  lemma DayNumberNonNegative(d: Date)
    requires ValidDate(d)
    ensures DayNumber(d) >= 0
  {
    if d.year > 1 { DaysBeforeYearRises(1, d.year); }
    DateWithinYear(d);
  }

  /** Days and dates correspond one to one. */
  lemma DateOfDayNumber(d: Date)
    requires ValidDate(d)
    ensures DayNumber(d) >= 0 && CivilDate(DayNumber(d)) == d
  {
    DayNumberNonNegative(d);
    var e := CivilDate(DayNumber(d));
    DateWithinYear(d);
    DateWithinYear(e);
    if d.year < e.year { DaysBeforeYearRises(d.year, e.year); }
    if e.year < d.year { DaysBeforeYearRises(e.year, d.year); }
    SameDayOfYear(IsLeap(d.year), d.month, d.day, e.month, e.day);
  }

  lemma SameDayOfYear(leap: bool, m: nat, d: nat, k: nat, e: nat)
    requires 1 <= m <= 12 && 1 <= d <= MonthLength(leap, m)
    requires 1 <= k <= 12 && 1 <= e <= MonthLength(leap, k)
    requires DaysBeforeMonth(leap, m) + d == DaysBeforeMonth(leap, k) + e
    ensures m == k && d == e
  {
    if m < k { DaysBeforeMonthRises(leap, m, k); }
    if k < m { DaysBeforeMonthRises(leap, k, m); }
  }

  // ---------------------------------------------------------------- minutes

  const MINUTES_PER_DAY: nat := 1440

  function DayOf(t: nat): nat { t / MINUTES_PER_DAY }
  function MinuteOf(t: nat): nat { t % 60 }
  function HourOf(t: nat): nat { t / 60 % 24 }

  /** Sunday is 0. */
  function WeekdayOf(day: nat): nat { (day + 1) % 7 }

  function At(day: nat, hour: nat, minute: nat): nat { day * MINUTES_PER_DAY + hour * 60 + minute }

  lemma AtParts(day: nat, hour: nat, minute: nat)
    requires hour < 24 && minute < 60
    ensures var t := At(day, hour, minute); DayOf(t) == day && HourOf(t) == hour && MinuteOf(t) == minute
  {
    var h := day * 24 + hour;
    assert At(day, hour, minute) == h * 60 + minute;
    assert At(day, hour, minute) / 60 == h && At(day, hour, minute) % 60 == minute;
    assert h % 24 == hour;
  }

  // ---------------------------------------------------------------- what every 366 days contain

  lemma LeapShift(m: nat)
    requires 1 <= m <= 12
    ensures DaysBeforeMonth(true, m) == DaysBeforeMonth(false, m) + if m >= 3 then 1 else 0
    ensures MonthLength(false, m) <= MonthLength(true, m)
  {
    if m > 1 { LeapShift(m - 1); }
  }

  /** A date of one year and the same date of the next are 365 or 366 days apart. */
  lemma SameDateNextYear(y: nat, m: nat, d: nat)
    requires y >= 1 && 1 <= m <= 12 && 1 <= d <= MonthLength(false, m)
    ensures ValidDate(Date(y, m, d)) && ValidDate(Date(y + 1, m, d))
    ensures DayNumber(Date(y + 1, m, d)) - DayNumber(Date(y, m, d)) in {365, 366}
  {
    LeapShift(m);
    YearStep(y);
  }

  /** Each calendar date other than February 29 falls in any 366 consecutive days. */
  lemma EveryDateWithin366(n: nat, m: nat, d: nat) returns (k: nat)
    requires 1 <= m <= 12 && 1 <= d <= MonthLength(false, m)
    ensures n <= k <= n + 365 && CivilDate(k).month == m && CivilDate(k).day == d
  {
    var y := CivilDate(n).year;
    DateWithinYear(CivilDate(n));
    SameDateNextYear(y, m, d);
    var now, later := Date(y, m, d), Date(y + 1, m, d);
    DateOfDayNumber(now);
    DateOfDayNumber(later);
    DateWithinYear(now);
    k := if DayNumber(now) >= n then DayNumber(now) else DayNumber(later);
  }

  /** The days after an early day of a month lie in the same month. */
  lemma SameMonth(d: Date, n: nat)
    requires ValidDate(d) && DayNumber(d) <= n && d.day + (n - DayNumber(d)) <= 28
    ensures CivilDate(n).month == d.month
  {
    var e := Date(d.year, d.month, d.day + (n - DayNumber(d)));
    assert MonthLength(IsLeap(d.year), d.month) >= 28;
    DateOfDayNumber(e);
    assert DayNumber(e) == n;
  }

  /** Seven consecutive days of month m within any 366 consecutive days. */
  lemma WeekOfMonthWithin366(n: nat, m: nat) returns (first: Date)
    requires 1 <= m <= 12
    ensures ValidDate(first) && first.month == m && first.day <= 15
    ensures n <= DayNumber(first) && DayNumber(first) + 6 <= n + 365
  {
    hide CivilDate, DaysBeforeYear, DaysBeforeMonth;
    var y := CivilDate(n).year;
    DateWithinYear(CivilDate(n));
    SameDateNextYear(y, m, 15);
    SameDateNextYear(y, m, 1);
    SameDateNextYear(y, m, 21);
    DateWithinYear(Date(y, m, 21));
    DateWithinYear(Date(y + 1, m, 1));
    YearStep(y);
    first := if DayNumber(Date(y, m, 15)) >= n then Date(y, m, 15) else Date(y + 1, m, 1);
    assert DayNumber(Date(y, m, 21)) == DayNumber(Date(y, m, 15)) + 6;
    assert DayNumber(Date(y, m, 15)) == DayNumber(Date(y, m, 1)) + 14;
  }

  /** So each weekday of each month falls in any 366 consecutive days. */
  lemma EveryWeekdayWithin366(n: nat, m: nat, w: nat) returns (k: nat)
    requires 1 <= m <= 12 && w < 7
    ensures n <= k <= n + 365 && CivilDate(k).month == m && WeekdayOf(k) == w
  {
    hide CivilDate, DayNumber;
    var first := WeekOfMonthWithin366(n, m);
    DayNumberNonNegative(first);
    var a: nat := DayNumber(first);
    var i := DaysUntilWeekday(a, w);
    k := a + i;
    SameMonth(first, k);
  }

  lemma DaysUntilWeekday(a: nat, w: nat) returns (i: nat)
    requires w < 7
    ensures i <= 6 && WeekdayOf(a + i) == w
  {
    var v := WeekdayOf(a);
    i := if w >= v then w - v else w + 7 - v;
  }
}
