/** One field of a cron expression (fillField in background/scheduler.go): comma-separated
    elements, each a range with a step.

    Beside the compiler into bits stands the notation itself, as terms that are written out, and what
    each of them means. */
module CronField {
  import opened Options
  import opened Numerals
  import opened Blanks

  /** v is a whole number of steps away from lo. */
  predicate OnGrid(lo: int, step: int, v: int)
    requires step > 0
  {
    (v - lo) % step == 0
  }

  /** The values lo, lo + step, lo + 2 * step, ... up to hi. */
  datatype Element = Element(lo: int, hi: int, step: int) {
    ghost predicate Valid(base: int, max: int) { base <= lo <= hi <= max && step > 0 }

    predicate Has(v: int)
      requires step > 0
    {
      lo <= v <= hi && OnGrid(lo, step, v)
    }
  }

  /** The range part of an element whose step has been cut off. */
  function ParseRange(part: string, step: int, base: int, max: int): Option<Element> {
    if part == "*" then Some(Element(base, max, step))
    else
      var i := Index(part, '-');
      if i < |part| then
        match (Atoi(TrimSpace(part[..i])), Atoi(TrimSpace(part[i + 1..])))
        case (Some(a), Some(b)) => Some(Element(a, b, step))
        case _ => None
      else
        match Atoi(part)
        case Some(n) => Some(Element(n, if step == 1 then n else max, step))
        case None => None
  }

  function ParseElement(raw: string, base: int, max: int): (r: Option<Element>)
    ensures r.Some? ==> r.value.Valid(base, max)
  {
    var part := TrimSpace(raw);
    if part == "" then None
    else
      var i := Index(part, '/');
      var step := if i < |part| then Atoi(part[i + 1..]) else Some(1);
      if step.None? || step.value <= 0 then None
      else
        match ParseRange(part[..i], step.value, base, max)
        case Some(e) => if e.lo < base || e.hi > max || e.lo > e.hi then None else Some(e)
        case None => None
  }

  /** The elements of a list of parts, if every part is one. */
  function ParseElements(parts: seq<string>, base: int, max: int): (r: Option<seq<Element>>)
    ensures r.Some? ==> |r.value| == |parts| && forall e :: e in r.value ==> e.Valid(base, max)
  {
    if parts == [] then Some([])
    else
      match (ParseElements(parts[..|parts| - 1], base, max), ParseElement(parts[|parts| - 1], base, max))
      case (Some(es), Some(e)) => Some(es + [e])
      case _ => None
  }

  function ParseField(field: string, base: int, max: int): (r: Option<seq<Element>>)
    ensures r.Some? ==> r.value != [] && forall e :: e in r.value ==> e.Valid(base, max)
  {
    ParseElements(Split(field, ','), base, max)
  }

  /** v belongs to the progression of some element. */
  predicate Covers(es: seq<Element>, v: int)
    requires forall e :: e in es ==> e.step > 0
  {
    exists e :: e in es && e.Has(v)
  }

  lemma ParseElementsPrefix(parts: seq<string>, k: nat, base: int, max: int)
    requires k <= |parts| && ParseElements(parts[..k], base, max).None?
    ensures ParseElements(parts, base, max).None?
    decreases |parts|
  {
    if k < |parts| {
      assert parts[..|parts| - 1][..k] == parts[..k];
      ParseElementsPrefix(parts[..|parts| - 1], k, base, max);
    } else {
      assert parts[..k] == parts;
    }
  }

  /** Stepping from one member reaches the next one, with no member in between. */
  lemma NextMember(lo: int, v: int, step: int)
    requires step > 0 && v >= lo && OnGrid(lo, step, v)
    ensures OnGrid(lo, step, v + step)
    ensures forall w :: v < w < v + step ==> !OnGrid(lo, step, w)
  {
    var k := (v - lo) / step;
    assert v - lo == k * step;
    assert OnGrid(lo, step, v + step) by {
      assert (k + 1) * step == k * step + step;
      ModOfMultiple(k + 1, step);
    }
    forall w | v < w < v + step ensures !OnGrid(lo, step, w) {
      RemainderIs(w - lo, step, k, w - v);
    }
  }

  lemma ModOfMultiple(k: int, step: int)
    requires step > 0
    ensures (k * step) % step == 0
  {
    RemainderIs(k * step, step, k, 0);
  }

  lemma RemainderIs(n: int, step: int, k: int, r: int)
    requires step > 0 && n == k * step + r && 0 <= r < step
    ensures n % step == r
  {
    var d := n / step - k;
    assert d * step == r - n % step;
    assert d >= 1 ==> d * step >= step;
    assert d <= -1 ==> d * step <= -step;
  }

  /** bits[off] stands for base. On success exactly the covered values have been added; a bad
      field is reported, whatever has been set by then. */
  method FillField(bits: array<bool>, off: nat, field: string, base: int) returns (ok: bool)
    requires off < bits.Length
    modifies bits
    ensures ok <==> ParseField(field, base, base + bits.Length - off - 1).Some?
    ensures ok ==> var es := ParseField(field, base, base + bits.Length - off - 1).value;
                   forall k :: off <= k < bits.Length ==> bits[k] == (old(bits[k]) || Covers(es, base + k - off))
    ensures forall k :: 0 <= k < off ==> bits[k] == old(bits[k])
  {
    hide ParseElement, Split, Covers;
    var max := base + bits.Length - off - 1;
    var parts := Split(field, ',');
    var i := 0;
    ghost var es: seq<Element> := [];
    CoversNothing();
    while i < |parts|
      invariant 0 <= i <= |parts| && ParseElements(parts[..i], base, max) == Some(es)
      invariant forall e :: e in es ==> e.Valid(base, max)
      invariant forall k :: off <= k < bits.Length ==> bits[k] == (old(bits[k]) || Covers(es, base + k - off))
      invariant forall k :: 0 <= k < off ==> bits[k] == old(bits[k])
    {
      assert parts[..i + 1][..i] == parts[..i];
      var e := ParseElement(parts[i], base, max);
      if e.None? {
        ParseElementsPrefix(parts, i + 1, base, max);
        return false;
      }
      SetElement(bits, off, base, e.value);
      CoversAppend(es, e.value);
      es := es + [e.value];
      i := i + 1;
    }
    assert parts[..i] == parts;
    ok := true;
  }

  lemma CoversNothing()
    ensures forall v :: !Covers([], v)
  {
  }

  lemma CoversAppend(es: seq<Element>, e: Element)
    requires e.step > 0 && forall x :: x in es ==> x.step > 0
    ensures forall v :: Covers(es + [e], v) <==> Covers(es, v) || e.Has(v)
  {
    forall v ensures Covers(es + [e], v) <==> Covers(es, v) || e.Has(v) {
      if Covers(es, v) {
        var x :| x in es && x.Has(v);
        assert x in es + [e];
      }
      if e.Has(v) {
        assert e in es + [e];
      }
    }
  }

  /** The inner loop: every step-th bit from lo to hi. */
  method SetElement(bits: array<bool>, off: nat, base: int, e: Element)
    requires off < bits.Length && e.Valid(base, base + bits.Length - off - 1)
    modifies bits
    ensures forall k :: off <= k < bits.Length ==> bits[k] == (old(bits[k]) || e.Has(base + k - off))
    ensures forall k :: 0 <= k < off ==> bits[k] == old(bits[k])
  {
    var v := e.lo;
    ModOfMultiple(0, e.step);
    assert OnGrid(e.lo, e.step, v);
    hide OnGrid;
    while v <= e.hi
      invariant e.lo <= v && OnGrid(e.lo, e.step, v)
      invariant forall k :: off <= k < bits.Length ==>
                              bits[k] == (old(bits[k]) || (base + k - off < v && e.Has(base + k - off)))
      invariant forall k :: 0 <= k < off ==> bits[k] == old(bits[k])
      decreases e.hi - v
    {
      NextMember(e.lo, v, e.step);
      bits[off + v - base] := true;
      v := v + e.step;
    }
  }

  // ---------------------------------------------------------------- the notation

  /** The notation of section INPUT FILES of the crontab utility (POSIX.1-2017), with steps. */
  datatype Item = Star | One(n: nat) | Span(a: nat, b: nat)

  datatype Term = Term(item: Item, step: Option<nat>)

  function PrintItem(i: Item): string {
    match i
    case Star => "*"
    case One(n) => Decimal(n)
    case Span(a, b) => Decimal(a) + "-" + Decimal(b)
  }

  function PrintTerm(t: Term): string {
    PrintItem(t.item) + if t.step.Some? then "/" + Decimal(t.step.value) else ""
  }

  function PrintTerms(ts: seq<Term>): string
    requires ts != []
  {
    if |ts| == 1 then PrintTerm(ts[0]) else PrintTerm(ts[0]) + "," + PrintTerms(ts[1..])
  }

  ghost predicate FitsInt(t: Term) {
    && (t.step.Some? ==> t.step.value <= MAX_INT)
    && (match t.item case Star => true case One(n) => n <= MAX_INT case Span(a, b) => a <= MAX_INT && b <= MAX_INT)
  }

  function StepOf(t: Term): nat { if t.step.Some? then t.step.value else 1 }

  /** What a term may say for a field with values base .. max. */
  predicate InRange(t: Term, base: int, max: int) {
    && StepOf(t) > 0 && base <= max
    && match t.item
       case Star => true
       case One(n) => base <= n <= max
       case Span(a, b) => base <= a <= b <= max
  }

  /** What it then means: a bare number is itself alone, and with a step above 1 everything from
      it to the end of the field in that step. */
  predicate Means(t: Term, base: int, max: int, v: int)
    requires InRange(t, base, max)
  {
    match t.item
    case Star => base <= v <= max && OnGrid(base, StepOf(t), v)
    case One(n) => if StepOf(t) == 1 then v == n else n <= v <= max && OnGrid(n, StepOf(t), v)
    case Span(a, b) => a <= v <= b && OnGrid(a, StepOf(t), v)
  }

  lemma PrintItemAlphabet(i: Item)
    ensures PrintItem(i) != "" && NoBlank(PrintItem(i))
    ensures !HasChar(PrintItem(i), '/') && !HasChar(PrintItem(i), ',')
  {
  }

  lemma PrintTermAlphabet(t: Term)
    ensures PrintTerm(t) != "" && NoBlank(PrintTerm(t)) && !HasChar(PrintTerm(t), ',')
  {
    PrintItemAlphabet(t.item);
    var s := PrintItem(t.item);
    assert forall k :: 0 <= k < |s| ==> PrintTerm(t)[k] == s[k];
  }

  lemma TrimNoBlank(s: string)
    requires NoBlank(s)
    ensures TrimSpace(s) == s
  {
    TrimSpaceIs("", s, "");
    assert "" + s + "" == s;
  }

  lemma ParsePrintedSpan(a: nat, b: nat, step: int, base: int, max: int)
    requires a <= MAX_INT && b <= MAX_INT
    ensures ParseRange(PrintItem(Span(a, b)), step, base, max) == Some(Element(a, b, step))
  {
    hide Atoi, TrimSpace, Decimal, Index;
    AtoiOfDecimal(a);
    AtoiOfDecimal(b);
    var s := PrintItem(Span(a, b));
    IndexIs(s, '-', |Decimal(a)|);
    assert s[..|Decimal(a)|] == Decimal(a) && s[|Decimal(a)| + 1..] == Decimal(b);
    TrimNoBlank(Decimal(a));
    TrimNoBlank(Decimal(b));
    assert IsDigit(s[0]);
  }

  lemma ParsePrintedRange(i: Item, step: int, base: int, max: int)
    requires FitsInt(Term(i, None))
    ensures ParseRange(PrintItem(i), step, base, max)
         == Some(match i
                 case Star => Element(base, max, step)
                 case One(n) => Element(n, if step == 1 then n else max, step)
                 case Span(a, b) => Element(a, b, step))
  {
    hide Atoi, TrimSpace, Decimal, Index;
    match i
    case Star =>
    case One(n) =>
      AtoiOfDecimal(n);
      IndexIs(Decimal(n), '-', |Decimal(n)|);
      assert IsDigit(Decimal(n)[0]);
    case Span(a, b) => ParsePrintedSpan(a, b, step, base, max);
  }

  lemma PrintedParts(t: Term)
    requires FitsInt(t)
    ensures var s, i := TrimSpace(PrintTerm(t)), |PrintItem(t.item)|;
            && s == PrintTerm(t) && i > 0 && Index(s, '/') == i && s[..i] == PrintItem(t.item)
            && (i < |s| <==> t.step.Some?)
            && (t.step.Some? ==> Atoi(s[i + 1..]) == Some(t.step.value))
  {
    hide Atoi, TrimSpace, Decimal, Index;
    var s, i := PrintTerm(t), |PrintItem(t.item)|;
    PrintTermAlphabet(t);
    PrintItemAlphabet(t.item);
    TrimNoBlank(s);
    assert forall k :: 0 <= k < i ==> s[k] == PrintItem(t.item)[k];
    IndexIs(s, '/', i);
    assert s[..i] == PrintItem(t.item);
    if t.step.Some? {
      assert s[i + 1..] == Decimal(t.step.value);
      AtoiOfDecimal(t.step.value);
    }
  }

  lemma ParsePrintedTerm(t: Term, base: int, max: int)
    requires FitsInt(t) && base <= max
    ensures ParseElement(PrintTerm(t), base, max).Some? <==> InRange(t, base, max)
    ensures InRange(t, base, max) ==>
              forall v :: ParseElement(PrintTerm(t), base, max).value.Has(v) <==> Means(t, base, max, v)
  {
    hide Atoi, TrimSpace, Decimal, Index, ParseRange, PrintTerm, PrintItem;
    PrintedParts(t);
    ParsePrintedRange(t.item, StepOf(t), base, max);
    if InRange(t, base, max) {
      SingleMember(t, max);
    }
  }

  lemma SingleMember(t: Term, max: int)
    ensures t.item.One? && StepOf(t) == 1 ==>
              forall v :: Element(t.item.n, t.item.n, 1).Has(v) <==> v == t.item.n
  {
  }

  lemma {:induction false} SplitPrinted(ts: seq<Term>)
    requires ts != []
    ensures |Split(PrintTerms(ts), ',')| == |ts|
    ensures forall k :: 0 <= k < |ts| ==> Split(PrintTerms(ts), ',')[k] == PrintTerm(ts[k])
  {
    PrintTermAlphabet(ts[0]);
    if |ts| == 1 {
      SplitJoin(PrintTerm(ts[0]), "", ',');
    } else {
      SplitPrinted(ts[1..]);
      SplitJoin(PrintTerm(ts[0]), PrintTerms(ts[1..]), ',');
      assert forall k :: 1 <= k < |ts| ==> ts[k] == ts[1..][k - 1];
    }
  }

  lemma {:induction false} ParseElementsEach(parts: seq<string>, base: int, max: int)
    ensures ParseElements(parts, base, max).Some?
            <==> forall k :: 0 <= k < |parts| ==> ParseElement(parts[k], base, max).Some?
    ensures ParseElements(parts, base, max).Some? ==>
              forall k :: 0 <= k < |parts| ==>
                    ParseElements(parts, base, max).value[k]
                    == ParseElement(parts[k], base, max).value
  {
    hide ParseElement;
    if parts != [] {
      var n := |parts| - 1;
      ParseElementsEach(parts[..n], base, max);
      assert forall k :: 0 <= k < n ==> parts[..n][k] == parts[k];
    }
  }

  /** The k-th part of a printed field. */
  lemma PrintedPart(ts: seq<Term>, base: int, max: int, k: nat)
    requires ts != [] && base <= max && k < |ts| && FitsInt(ts[k])
    ensures |Split(PrintTerms(ts), ',')| == |ts|
    ensures ParseElement(Split(PrintTerms(ts), ',')[k], base, max).Some? <==> InRange(ts[k], base, max)
    ensures InRange(ts[k], base, max) ==>
              forall v :: ParseElement(Split(PrintTerms(ts), ',')[k], base, max).value.Has(v)
                  <==> Means(ts[k], base, max, v)
  {
    hide *;
    SplitPrinted(ts);
    ParsePrintedTerm(ts[k], base, max);
  }

  /** A printed field is accepted exactly when every term is in range, and then covers exactly the
      values that some term means. */
  lemma ParsePrintedField(ts: seq<Term>, base: int, max: int)
    requires ts != [] && base <= max && forall k :: 0 <= k < |ts| ==> FitsInt(ts[k])
    ensures ParseField(PrintTerms(ts), base, max).Some? <==> forall k :: 0 <= k < |ts| ==> InRange(ts[k], base, max)
    ensures ParseField(PrintTerms(ts), base, max).Some? ==>
              forall v :: Covers(ParseField(PrintTerms(ts), base, max).value, v)
                          <==> exists k :: 0 <= k < |ts| && Means(ts[k], base, max, v)
  {
    hide ParseElement, ParseElements, Means, InRange, FitsInt, Split, PrintTerms, Covers, OnGrid;
    var parts := Split(PrintTerms(ts), ',');
    SplitPrinted(ts);
    ParseElementsEach(parts, base, max);
    forall k | 0 <= k < |ts| ensures ParseElement(parts[k], base, max).Some? <==> InRange(ts[k], base, max) {
      PrintedPart(ts, base, max, k);
    }
    if ParseElements(parts, base, max).Some? {
      forall v
        ensures Covers(ParseElements(parts, base, max).value, v)
                <==> exists k :: 0 <= k < |ts| && Means(ts[k], base, max, v)
      {
        PrintedFieldCovers(ts, base, max, v);
      }
    }
  }

  lemma PrintedFieldCovers(ts: seq<Term>, base: int, max: int, v: int)
    requires ts != [] && base <= max && forall k :: 0 <= k < |ts| ==> FitsInt(ts[k]) && InRange(ts[k], base, max)
    requires ParseElements(Split(PrintTerms(ts), ','), base, max).Some?
    ensures Covers(ParseElements(Split(PrintTerms(ts), ','), base, max).value, v)
            <==> exists k :: 0 <= k < |ts| && Means(ts[k], base, max, v)
  {
    hide ParseElement, ParseElements, Means, InRange, FitsInt, Split, PrintTerms, OnGrid;
    var parts := Split(PrintTerms(ts), ',');
    var es := ParseElements(parts, base, max).value;
    SplitPrinted(ts);
    ParseElementsEach(parts, base, max);
    forall k | 0 <= k < |ts| ensures es[k].Has(v) <==> Means(ts[k], base, max, v) {
      PrintedPart(ts, base, max, k);
    }
    if Covers(es, v) {
      var e :| e in es && e.Has(v);
      var k :| 0 <= k < |es| && es[k] == e;
      assert Means(ts[k], base, max, v);
    }
    if k :| 0 <= k < |ts| && Means(ts[k], base, max, v) {
      assert es[k] in es && es[k].Has(v);
    }
  }

  // ---------------------------------------------------------------- the alphabet

  predicate FieldChar(c: char) { IsDigit(c) || c in {'-', '+', '/', '*', ','} }

  /** Trimming keeps every character that is not a blank. */
  lemma TrimKeeps(s: string, i: nat) returns (k: nat)
    requires i < |s| && !IsBlank(s[i])
    ensures k < |TrimSpace(s)| && TrimSpace(s)[k] == s[i]
  {
    var a, b := TrimSpaceParts(s);
    hide TrimSpace;
    var t := TrimSpace(s);
    assert forall j :: 0 <= j < |a| ==> s[j] == a[j];
    assert forall j :: |a| + |t| <= j < |s| ==> s[j] == b[j - |a| - |t|];
    k := i - |a|;
  }

  lemma TrimmedNumeralAlphabet(s: string, i: nat)
    requires Atoi(TrimSpace(s)).Some? && i < |s| && !IsBlank(s[i])
    ensures FieldChar(s[i]) && s[i] != ','
  {
    hide Atoi, TrimSpace;
    var k := TrimKeeps(s, i);
    AtoiAlphabet(TrimSpace(s));
  }

  lemma RangeAlphabet(part: string, step: int, base: int, max: int, k: nat)
    requires ParseRange(part, step, base, max).Some? && k < |part| && !IsBlank(part[k])
    ensures FieldChar(part[k]) && part[k] != ','
  {
    hide Atoi, TrimSpace, Index;
    var i := Index(part, '-');
    if part == "*" {
    } else if i < |part| {
      if k < i {
        TrimmedNumeralAlphabet(part[..i], k);
      } else if k > i {
        TrimmedNumeralAlphabet(part[i + 1..], k - i - 1);
      }
    } else {
      AtoiAlphabet(part);
    }
  }

  /** The characters other than blanks of an accepted element. */
  lemma ElementAlphabet(s: string, base: int, max: int, i: nat)
    requires ParseElement(s, base, max).Some? && i < |s| && !IsBlank(s[i])
    ensures FieldChar(s[i]) && s[i] != ','
  {
    hide Atoi, TrimSpace, Index, ParseRange;
    var part := TrimSpace(s);
    var k := TrimKeeps(s, i);
    var j := Index(part, '/');
    if k < j {
      RangeAlphabet(part[..j], if j < |part| then Atoi(part[j + 1..]).value else 1, base, max, k);
    } else if k > j {
      AtoiAlphabet(part[j + 1..]);
      assert part[j + 1..][k - j - 1] == part[k];
    }
  }

  /** An accepted field without blanks is not empty and is written with digits and - + / * , only. */
  lemma FieldAlphabet(field: string, base: int, max: int)
    requires ParseField(field, base, max).Some? && NoBlank(field)
    ensures field != "" && forall j :: 0 <= j < |field| ==> FieldChar(field[j])
  {
    hide ParseElement;
    var parts := Split(field, ',');
    ParseElementsEach(parts, base, max);
    if field == "" {
      assert parts == [""];
      EmptyElement(base, max);
    }
    forall j | 0 <= j < |field| ensures FieldChar(field[j]) {
      if field[j] != ',' {
        var k, i := SplitCovers(field, ',', j);
        ElementAlphabet(parts[k], base, max, i);
      }
    }
  }

  lemma EmptyElement(base: int, max: int)
    ensures ParseElement("", base, max).None?
  {
  }
}
