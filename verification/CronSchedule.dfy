/** Five-field schedules: parsing, matching (background/scheduler.go) and the next-run search
    (NextRun in background/crontabfile.go).

    The last lemmas say when the search finds a run within the 366 days it looks at. */
module CronSchedule {
  import opened Options
  import opened Numerals
  import opened Blanks
  import opened CronField
  import opened Calendar

  datatype Schedule = Schedule(minute: seq<Element>, hour: seq<Element>, dom: seq<Element>, month: seq<Element>,
                               dow: seq<Element>, domRestricted: bool, dowRestricted: bool)
  {
    ghost predicate Valid() {
      && ValidField(minute, 0, 59) && ValidField(hour, 0, 23) && ValidField(dom, 1, 31)
      && ValidField(month, 1, 12) && ValidField(dow, 0, 6)
    }

    predicate MatchesDay(day: nat)
      requires Valid()
    {
      var date := CivilDate(day);
      var inDom, inDow := Covers(dom, date.day), Covers(dow, WeekdayOf(day));
      && Covers(month, date.month)
      && if domRestricted && dowRestricted then inDom || inDow
         else if domRestricted then inDom
         else if dowRestricted then inDow
         else true
    }

    predicate Matches(t: nat)
      requires Valid()
    {
      Covers(minute, MinuteOf(t)) && Covers(hour, HourOf(t)) && MatchesDay(DayOf(t))
    }
  }

  ghost predicate ValidField(es: seq<Element>, base: int, max: int) {
    es != [] && forall e :: e in es ==> e.Valid(base, max)
  }

  function ParseSchedule(f: seq<string>): (r: Option<Schedule>)
    ensures r.Some? ==> r.value.Valid()
  {
    if |f| != 5 then None
    else
      match (ParseField(f[0], 0, 59), ParseField(f[1], 0, 23), ParseField(f[2], 1, 31),
             ParseField(f[3], 1, 12), ParseField(f[4], 0, 6))
      case (Some(mi), Some(h), Some(d), Some(mo), Some(w)) => Some(Schedule(mi, h, d, mo, w, f[2] != "*", f[4] != "*"))
      case _ => None
  }

  // ---------------------------------------------------------------- the compiled form

  /** The bit tables of a schedule, as the scheduler keeps them. */
  class Bits {
    const minute: array<bool>
    const hour: array<bool>
    const dom: array<bool>
    const month: array<bool>
    const dow: array<bool>
    var domRestricted: bool
    var dowRestricted: bool

    constructor ()
      ensures fresh(this) && Sized()
      ensures fresh(minute) && fresh(hour) && fresh(dom) && fresh(month) && fresh(dow)
      ensures Clear(minute) && Clear(hour) && Clear(dom) && Clear(month) && Clear(dow)
    {
      minute := new bool[60](_ => false);
      hour := new bool[24](_ => false);
      dom := new bool[32](_ => false);
      month := new bool[13](_ => false);
      dow := new bool[7](_ => false);
    }

    ghost predicate Sized() {
      && minute.Length == 60 && hour.Length == 24 && dom.Length == 32 && month.Length == 13 && dow.Length == 7
      && minute != hour && minute != dom && minute != month && minute != dow && hour != dom && hour != month
      && hour != dow && dom != month && dom != dow && month != dow
    }

    ghost predicate Represents(s: Schedule)
      reads this, minute, hour, dom, month, dow
    {
      && Sized() && s.Valid()
      && Holds(minute, 0, s.minute) && Holds(hour, 0, s.hour) && Holds(dom, 1, s.dom) && Holds(month, 1, s.month)
      && Holds(dow, 0, s.dow) && domRestricted == s.domRestricted && dowRestricted == s.dowRestricted
    }

    method Matches(t: nat, ghost s: Schedule) returns (b: bool)
      requires Represents(s)
      ensures b == s.Matches(t)
    {
      hide Covers, CivilDate;
      ghost var d := CivilDate(DayOf(t));
      DateFits(DayOf(t));
      if !minute[MinuteOf(t)] || !hour[HourOf(t)] || !month[CivilDate(DayOf(t)).month] {
        return false;
      }
      var inDom := dom[CivilDate(DayOf(t)).day];
      var inDow := dow[WeekdayOf(DayOf(t))];
      b := if domRestricted && dowRestricted then inDom || inDow
           else if domRestricted then inDom
           else if dowRestricted then inDow
           else true;
    }
  }

  ghost predicate Clear(a: array<bool>)
    reads a
  {
    forall k :: 0 <= k < a.Length ==> !a[k]
  }

  /** From index off on, a[k] tells whether k is covered. */
  ghost predicate Holds(a: array<bool>, off: nat, es: seq<Element>)
    requires forall e :: e in es ==> e.step > 0
    reads a
  {
    forall k :: off <= k < a.Length ==> a[k] == Covers(es, k)
  }

  lemma DateFits(day: nat)
    ensures CivilDate(day).month < 13 && CivilDate(day).day < 32
  {
  }

  /** One table: the field is compiled into cleared bits, or found bad. */
  method CompileField(a: array<bool>, off: nat, field: string) returns (ok: bool)
    requires off < a.Length && Clear(a)
    modifies a
    ensures ok <==> ParseField(field, off, a.Length - 1).Some?
    ensures ok ==> Holds(a, off, ParseField(field, off, a.Length - 1).value)
  {
    hide ParseField, Covers;
    ok := FillField(a, off, field, off);
  }

  method CompileSchedule(f: seq<string>) returns (ok: bool, bits: Bits)
    ensures ok <==> ParseSchedule(f).Some?
    ensures ok ==> bits.Represents(ParseSchedule(f).value)
  {
    hide ParseField, Covers;
    bits := new Bits();
    if |f| != 5 {
      return false, bits;
    }
    ok := CompileField(bits.minute, 0, f[0]);
    if !ok { return; }
    ok := CompileField(bits.hour, 0, f[1]);
    if !ok { return; }
    ok := CompileField(bits.dom, 1, f[2]);
    if !ok { return; }
    ok := CompileField(bits.month, 1, f[3]);
    if !ok { return; }
    ok := CompileField(bits.dow, 0, f[4]);
    if !ok { return; }
    bits.domRestricted := f[2] != "*";
    bits.dowRestricted := f[4] != "*";
  }

  // ---------------------------------------------------------------- the next run

  const HORIZON: nat := 366 * 24 * 60

  /** r is the least matching minute after the instant `from`, which counts seconds, or there is
      none within the horizon. */
  ghost predicate IsNextRun(s: Schedule, from: nat, r: Option<nat>)
    requires s.Valid()
  {
    match r
    case Some(t) => from / 60 < t <= from / 60 + 366 * 24 * 60 && s.Matches(t)
                    && forall u :: from / 60 < u < t ==> !s.Matches(u)
    case None => forall u :: from / 60 < u <= from / 60 + 366 * 24 * 60 ==> !s.Matches(u)
  }

  /** The search begins at the next full minute. */
  method FirstMatch(sch: Bits, ghost s: Schedule, from: nat) returns (r: Option<nat>)
    requires sch.Represents(s)
    ensures IsNextRun(s, from, r)
  {
    ghost var start := from / 60;
    var t := from / 60 + 1;
    assert s.Valid();
    for i := 0 to HORIZON
      invariant t == start + 1 + i && sch.Represents(s)
      invariant forall u :: start < u < t ==> !s.Matches(u)
    {
      hide *;
      var hit := sch.Matches(t, s);
      if hit {
        NextRunFound(s, from, t);
        return Some(t);
      }
      t := t + 1;
    }
    r := None;
  }

  lemma NextRunFound(s: Schedule, from: nat, t: nat)
    requires s.Valid() && from / 60 < t <= from / 60 + HORIZON && s.Matches(t)
    requires forall u :: from / 60 < u < t ==> !s.Matches(u)
    ensures IsNextRun(s, from, Some(t))
  {
  }

  method NextRun(spec: string, from: nat) returns (r: Option<nat>)
    ensures match ParseSchedule(Fields(TrimSpace(spec)))
            case Some(s) => IsNextRun(s, from, r)
            case None => r == None
  {
    hide *;
    var ok, sch := CompileSchedule(Fields(TrimSpace(spec)));
    if !ok {
      return None;
    }
    r := FirstMatch(sch, ParseSchedule(Fields(TrimSpace(spec))).value, from);
  }

  // ---------------------------------------------------------------- the horizon

  /** Some date other than February 29 satisfies the day and month fields. */
  ghost predicate AdmitsOrdinaryDay(s: Schedule)
    requires s.Valid()
  {
    s.domRestricted && !s.dowRestricted ==>
      exists m: nat, d: nat :: 1 <= m <= 12 && 1 <= d <= MonthLength(false, m) && Covers(s.month, m) && Covers(s.dom, d)
  }

  lemma FieldHasValue(es: seq<Element>, base: int, max: int) returns (v: int)
    requires ValidField(es, base, max)
    ensures base <= v <= max && Covers(es, v)
  {
    var e := es[0];
    v := e.lo;
    assert e in es && e.Valid(base, max);
    ModOfMultiple(0, e.step);
    assert e.Has(v);
  }

  /** A day with the wanted month and day fields among any 366 days. */
  lemma DayWithin366(s: Schedule, n: nat) returns (k: nat)
    requires s.Valid() && AdmitsOrdinaryDay(s)
    ensures n <= k <= n + 365 && s.MatchesDay(k)
  {
    hide CivilDate, Covers;
    if s.domRestricted && !s.dowRestricted {
      var m: nat, d: nat :| 1 <= m <= 12 && 1 <= d <= MonthLength(false, m) && Covers(s.month, m) && Covers(s.dom, d);
      k := EveryDateWithin366(n, m, d);
    } else {
      var m: nat := FieldHasValue(s.month, 1, 12);
      var w: nat := FieldHasValue(s.dow, 0, 6);
      k := EveryWeekdayWithin366(n, m, w);
    }
  }

  /** The horizon of the search is enough for every schedule that admits an ordinary day. */
  lemma HorizonSuffices(s: Schedule, from: nat) returns (t: nat)
    requires s.Valid() && AdmitsOrdinaryDay(s)
    ensures from < t <= from + 366 * 24 * 60 && s.Matches(t)
  {
    var mi: nat := FieldHasValue(s.minute, 0, 59);
    var h: nat := FieldHasValue(s.hour, 0, 23);
    hide CivilDate, Covers;
    var day := DayOf(from);
    // The first day whose h:mi lies after `from`.
    var first := if At(day, h, mi) > from then day else day + 1;
    var k := DayWithin366(s, first);
    t := At(k, h, mi);
    AtParts(k, h, mi);
  }

  /** And it is only there that the search can fail for good: a schedule that admits no ordinary
      day fires on February 29 or never. */
  lemma OnlyLeapDays(s: Schedule, t: nat)
    requires s.Valid() && !AdmitsOrdinaryDay(s) && s.Matches(t)
    ensures CivilDate(DayOf(t)).month == 2 && CivilDate(DayOf(t)).day == 29
  {
    hide Covers;
    var d := CivilDate(DayOf(t));
    assert Covers(s.month, d.month) && Covers(s.dom, d.day);
    assert !(d.day <= MonthLength(false, d.month));
  }
}
