/** What a written schedule fires at (background/scheduler.go), said by its five fields as they stand
    in the crontab and by the minute, hour and date of the moment, and the calendar those come from.

    The day rule is cron's own: with both day fields given either of them is enough. */
module CronMeaning {
  import opened Options
  import opened Numerals
  import opened CronField
  import opened CronSchedule
  import opened Calendar

  /** Some term of a written field means v. */
  ghost predicate Says(ts: seq<Term>, base: int, max: int, v: int) {
    exists k :: 0 <= k < |ts| && InRange(ts[k], base, max) && Means(ts[k], base, max, v)
  }

  ghost predicate Printable(ts: seq<Term>) { ts != [] && forall k :: 0 <= k < |ts| ==> FitsInt(ts[k]) }

  ghost predicate AllInRange(ts: seq<Term>, base: int, max: int) {
    forall k :: 0 <= k < |ts| ==> InRange(ts[k], base, max)
  }

  /** The five fields of a schedule as they are written. */
  datatype Spec = Spec(minute: seq<Term>, hour: seq<Term>, dom: seq<Term>, month: seq<Term>, dow: seq<Term>) {
    ghost predicate Written() {
      Printable(minute) && Printable(hour) && Printable(dom) && Printable(month) && Printable(dow)
    }

    function Fields(): seq<string>
      requires Written()
    {
      [PrintTerms(minute), PrintTerms(hour), PrintTerms(dom), PrintTerms(month), PrintTerms(dow)]
    }
  }

  /** One field: accepted exactly when every term is in range, and then covers what some term means. */
  lemma FieldSays(ts: seq<Term>, base: int, max: int, v: int)
    requires Printable(ts) && base <= max
    ensures var r := ParseField(PrintTerms(ts), base, max);
            (r.Some? <==> AllInRange(ts, base, max)) && (r.Some? ==> (Covers(r.value, v) <==> Says(ts, base, max, v)))
  {
    hide InRange, Means, FitsInt, PrintTerms, ParseField, Covers;
    ParsePrintedField(ts, base, max);
  }

  /** A written schedule is accepted exactly when every term of every field is in range. It then fires
      exactly at the moments whose minute, hour and month are meant by some term of their fields, on
      the days that some term of a given day field means: of either one when both are given. */
  lemma FiresAsWritten(w: Spec, t: nat)
    requires w.Written()
    ensures ParseSchedule(w.Fields()).Some?
            <==> AllInRange(w.minute, 0, 59) && AllInRange(w.hour, 0, 23) && AllInRange(w.dom, 1, 31)
                 && AllInRange(w.month, 1, 12) && AllInRange(w.dow, 0, 6)
    ensures ParseSchedule(w.Fields()).Some? ==>
              var date := CivilDate(DayOf(t));
              var onDate, onWeekday := Says(w.dom, 1, 31, date.day), Says(w.dow, 0, 6, WeekdayOf(DayOf(t)));
              var anyDate, anyWeekday := PrintTerms(w.dom) == "*", PrintTerms(w.dow) == "*";
              ParseSchedule(w.Fields()).value.Matches(t)
              <==> && Says(w.minute, 0, 59, MinuteOf(t)) && Says(w.hour, 0, 23, HourOf(t))
                   && Says(w.month, 1, 12, date.month)
                   && (!anyDate && !anyWeekday ==> onDate || onWeekday)
                   && (!anyDate && anyWeekday ==> onDate)
                   && (anyDate && !anyWeekday ==> onWeekday)
  {
    hide ParseField, PrintTerms, Covers, Says, AllInRange, CivilDate, Printable, WeekdayOf, DayOf, MinuteOf, HourOf;
    var date := CivilDate(DayOf(t));
    FieldSays(w.minute, 0, 59, MinuteOf(t));
    FieldSays(w.hour, 0, 23, HourOf(t));
    FieldSays(w.dom, 1, 31, date.day);
    FieldSays(w.month, 1, 12, date.month);
    FieldSays(w.dow, 0, 6, WeekdayOf(DayOf(t)));
  }

  /** Only the lone star leaves a day field free. */
  lemma LoneStar(ts: seq<Term>)
    requires ts != []
    ensures PrintTerms(ts) == "*" <==> ts == [Term(Star, None)]
  {
    PrintTermAlphabet(ts[0]);
    var first := PrintTerm(ts[0]);
    if |ts| > 1 {
      assert |PrintTerms(ts)| >= |first| + 1 > 1;
    } else {
      StarTerm(ts[0]);
      assert ts == [ts[0]];
    }
  }

  lemma StarTerm(t: Term)
    ensures PrintTerm(t) == "*" <==> t == Term(Star, None)
  {
    var item := PrintItem(t.item);
    match t.item
    case Star =>
    case One(n) => assert IsDigit(Decimal(n)[0]) && item[0] == Decimal(n)[0] == PrintTerm(t)[0];
    case Span(a, b) => assert IsDigit(Decimal(a)[0]) && item[0] == Decimal(a)[0] == PrintTerm(t)[0];
  }

  // ---------------------------------------------------------------- the calendar

  /** A moment is told by its day, hour and minute. */
  lemma MomentParts(t: nat)
    ensures t == (DayOf(t) * 24 + HourOf(t)) * 60 + MinuteOf(t) && HourOf(t) < 24 && MinuteOf(t) < 60
  {
    assert t / 1440 == t / 60 / 24;
  }

  lemma MonthLengths(leap: bool, m: nat)
    requires 1 <= m <= 12
    ensures MonthLength(leap, m) == [31, if leap then 29 else 28, 31, 30, 31, 30, 31, 31, 30, 31, 30, 31][m - 1]
  {
  }

  /** Every fourth year, and of the hundreds every fourth. */
  lemma LeapYears(y: nat)
    ensures IsLeap(y) <==> if y % 100 == 0 then y / 100 % 4 == 0 else y % 4 == 0
  {
    var q := y / 100;
    assert y == 100 * q + y % 100;
    if y % 100 == 0 {
      assert y == 4 * (25 * q);
      assert q == 4 * (q / 4) + q % 4 && y == 400 * (q / 4) + 100 * (q % 4);
    }
  }

  /** The day after a date is the next day of the month, or the first of the next month or year. */
  lemma NextDay(d: Date)
    requires ValidDate(d)
    ensures var e := if d.day < MonthLength(IsLeap(d.year), d.month) then Date(d.year, d.month, d.day + 1)
                     else if d.month < 12 then Date(d.year, d.month + 1, 1)
                     else Date(d.year + 1, 1, 1);
            ValidDate(e) && DayNumber(e) == DayNumber(d) + 1
  {
    YearIsTwelveMonths(IsLeap(d.year));
    YearStep(d.year);
  }

  /** Day 0 is 1 January of the year 1, 1 January 1970 is a Thursday, and weekdays follow each other. */
  lemma KnownDays(day: nat)
    ensures DayNumber(Date(1, 1, 1)) == 0 && CivilDate(0) == Date(1, 1, 1)
    ensures DayNumber(Date(1970, 1, 1)) == 719162 && CivilDate(719162) == Date(1970, 1, 1) && WeekdayOf(719162) == 4
    ensures WeekdayOf(day + 1) == (WeekdayOf(day) + 1) % 7 && WeekdayOf(day) < 7
  {
    hide CivilDate;
    DateOfDayNumber(Date(1, 1, 1));
    DateOfDayNumber(Date(1970, 1, 1));
  }

  // ---------------------------------------------------------------- one schedule

  function Just(n: nat): seq<Term> { [Term(One(n), None)] }
  function Any(): seq<Term> { [Term(Star, None)] }

  lemma JustSays(n: nat, base: int, max: int, v: int)
    requires base <= n <= max
    ensures AllInRange(Just(n), base, max) && (Says(Just(n), base, max, v) <==> v == n)
  {
    if v == n { assert Means(Just(n)[0], base, max, v); }
  }

  lemma AnySays(base: int, max: int, v: int)
    requires base <= v <= max
    ensures AllInRange(Any(), base, max) && Says(Any(), base, max, v)
  {
    assert InRange(Any()[0], base, max) && Means(Any()[0], base, max, v);
  }

  lemma JustPrinted(n: nat)
    requires n < 100
    ensures Printable(Just(n)) && PrintTerms(Just(n)) == Decimal(n)
    ensures Decimal(n) == if n < 10 then [Digit(n)] else [Digit(n / 10), Digit(n % 10)]
  {
    assert PrintTerms(Just(n)) == PrintTerm(Just(n)[0]) == Decimal(n) + "";
    assert n >= 10 ==> Decimal(n / 10) == [Digit(n / 10)];
  }

  function Digit(n: nat): char
    requires n < 10
  {
    "0123456789"[n]
  }

  lemma AnyPrinted()
    ensures Printable(Any()) && PrintTerms(Any()) == "*"
  {
    LoneStar(Any());
  }

  lemma ThirteenthPrinted(w: Spec)
    requires w == Spec(Just(0), Just(0), Just(13), Any(), Just(5))
    ensures w.Written() && w.Fields() == ["0", "0", "13", "*", "5"]
    ensures PrintTerms(w.dom) != "*" && PrintTerms(w.dow) != "*"
  {
    JustPrinted(0);
    JustPrinted(13);
    JustPrinted(5);
    AnyPrinted();
  }

  /** The schedule 0 0 13 * 5 fires at midnight of every thirteenth and of every Friday. */
  lemma ThirteenthOrFriday(f: seq<string>, t: nat)
    requires f == ["0", "0", "13", "*", "5"]
    ensures ParseSchedule(f).Some?
    ensures ParseSchedule(f).value.Matches(t)
            <==> t % 1440 == 0 && (CivilDate(t / 1440).day == 13 || WeekdayOf(t / 1440) == 5)
  {
    var w := Spec(Just(0), Just(0), Just(13), Any(), Just(5));
    ThirteenthPrinted(w);
    hide PrintTerms, Says, Schedule.Matches, CivilDate, WeekdayOf, AllInRange, ParseSchedule, Just, Any, Printable;
    FiresAsWritten(w, t);
    var date := CivilDate(DayOf(t));
    JustSays(0, 0, 59, MinuteOf(t));
    JustSays(0, 0, 23, HourOf(t));
    JustSays(13, 1, 31, date.day);
    AnySays(1, 12, date.month);
    JustSays(5, 0, 6, WeekdayOf(DayOf(t)));
    Midnight(t);
  }

  lemma Midnight(t: nat)
    ensures DayOf(t) == t / 1440 && (t % 1440 == 0 <==> MinuteOf(t) == 0 && HourOf(t) == 0)
  {
    MomentParts(t);
  }
}
