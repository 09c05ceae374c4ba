/** The two laws of the crontab editor (background/crontabfile.go, background/scheduler.go). */
module CrontabLaws {
  import opened Options
  import opened Blanks
  import opened CronField
  import opened CronSchedule
  import opened JobLine
  import opened Crontab

  // Parsing what was printed changes nothing that matters, and the editor and the scheduler read every
  // file alike.

  // ---------------------------------------------------------------- one line

  /** The body of a job starts with a digit or a star and ends with its closing quote. */
  lemma ComposedEnds(l: Shape)
    requires Runnable(l) && l.tail == ""
    ensures var s := Compose(l); s != "" && !IsBlank(s[0]) && s[0] != '#' && !IsBlank(s[|s| - 1])
  {
    hide ParseSchedule, Join, JoinTrim;
    ScheduleAlphabet(l.fields);
    assert forall i :: 0 <= i < |l.fields| ==> IsField(l.fields[i]);
    JoinTrimEnds(l.fields);
    JoinIsTrimAndGap(l.fields);
    var s := Compose(l);
    assert s[0] == JoinTrim(l.fields)[0];
    var front := Join(l.fields) + (CURL + (l.curlGap + (Join(l.flags) + ([l.open] + l.url))));
    assert s == front + [l.close] by {
      assert [l.close] + "" == [l.close];
      assert s == Join(l.fields) + (CURL + (l.curlGap + (Join(l.flags) + ([l.open] + (l.url + [l.close])))));
    }
  }

  lemma LeadingSpaceOf(indent: string, s: string)
    requires AllPad(indent) && s != "" && !IsPad(s[0])
    ensures LeadingSpace(indent + s) == indent
  {
    PadsIs(indent + s, |indent|);
  }

  lemma PadsAreBlank(s: string)
    requires AllPad(s)
    ensures AllBlank(s)
  {
  }

  lemma BlankSum(a: string, b: string)
    requires AllBlank(a) && AllBlank(b)
    ensures AllBlank(a + b)
  {
  }

  /** Where the candidate of a job line stands: after the indent and after white space that is no pad. */
  lemma EnabledCandidate(indent: string, hard: string, body: string)
    requires AllPad(indent) && AllBlank(hard) && (hard != "" ==> !IsPad(hard[0]))
    requires body != "" && !IsBlank(body[0]) && body[0] != '#' && !IsBlank(body[|body| - 1])
    ensures var raw := indent + (hard + body); TrimSpace(raw) == body && LeadingSpace(raw) == indent
  {
    PadsAreBlank(indent);
    BlankSum(indent, hard);
    assert (hard + body)[0] == if hard == "" then body[0] else hard[0];
    LeadingSpaceOf(indent, hard + body);
    hide TrimSpace, LeadingSpace, AllBlank, AllPad;
    NothingIsBlank();
    TrimSpaceIs(indent + hard, body, "");
    Regroup(indent, hard, body);
    Regroup("", indent + hard + body, "");
    assert indent + hard + body + "" == indent + hard + body;
  }

  lemma NothingIsBlank()
    ensures AllBlank("") && AllPad("") && AllBlank(" ")
  {
  }

  lemma DisabledCandidate(indent: string, hard: string, body: string)
    requires AllPad(indent) && AllBlank(hard) && body != "" && !IsBlank(body[0]) && !IsBlank(body[|body| - 1])
    ensures var raw := "# " + (indent + (hard + body));
            TrimSpace(raw) == raw && TrimSpace(raw[1..]) == body && LeadingSpace(raw) == ""
  {
    var rest := indent + (hard + body);
    var raw := "# " + rest;
    PadsAreBlank(indent);
    assert raw[0] == '#' && raw[|raw| - 1] == body[|body| - 1] && raw[1..] == " " + rest;
    TrimOfTrimmed(raw);
    LeadingSpaceOf("", raw);
    hide TrimSpace, LeadingSpace, AllBlank, AllPad;
    NothingIsBlank();
    BlankSum(indent, hard);
    BlankSum(" ", indent + hard);
    TrimSpaceIs(" " + (indent + hard), body, "");
    Regroup(indent, hard, body);
    Regroup(" ", indent + hard, body);
    assert " " + (indent + hard) + body + "" == " " + (indent + hard) + body;
    assert "" + raw == raw;
  }

  /** What a printed entry is read as: the same entry, except that a disabled job loses its indent, a job
      without pads before its command gets four, and a text line loses a carriage return at its end. */
  function Reread(e: CrontabEntry, n: nat): CrontabEntry {
    match e
    case Text(_, t) => Text(n, DropReturn(t))
    case Job(_, spec, url, flags, disabled, indent, gap) =>
      Job(n, spec, url, flags, disabled, if disabled then "" else indent, if gap == "" then "    " else gap)
  }

  /** The entries that parsing produces. */
  ghost predicate Parsed(e: CrontabEntry) {
    match e
    case Text(_, t) => forall n :: ParseLine(n, t) == Text(n, t)
    case Job(_, spec, url, flags, _, indent, gap) =>
      AllPad(indent) && exists l :: Runnable(l) && PartsOf(l) == JobParts(spec, url, flags, gap)
  }

  lemma LeadingSpacePads(s: string)
    ensures AllPad(LeadingSpace(s))
  {
  }

  lemma ParseLineParsed(n: nat, raw: string)
    ensures Parsed(ParseLine(n, raw)) && ParseLine(n, raw).line == n
  {
    hide ParseJobLine, LeadingSpace, TrimSpace, Runnable;
    var body := TrimSpace(raw);
    var candidate := if body != "" && body[0] == '#' then TrimSpace(body[1..]) else body;
    LeadingSpacePads(raw);
    if ParseJobLine(candidate).Some? {
      var l := ParseJobLineMeans(candidate);
      assert Runnable(l) && PartsOf(l) == ParseJobLine(candidate).value;
    }
  }

  function JobEntry(n: nat, j: JobParts, disabled: bool, indent: string): CrontabEntry {
    Job(n, j.spec, j.url, j.flags, disabled, indent, j.gap)
  }

  lemma Placed(disabled: bool, indent: string, hard: string, body: string)
    ensures (if disabled then "# " else "") + indent + hard + body
         == if disabled then "# " + (indent + (hard + body)) else indent + (hard + body)
  {
    Regroup(indent, hard, body);
    Regroup("# ", indent, hard + body);
    Regroup("# " + indent, hard, body);
  }

  /** A line is read by its candidate. */
  lemma ParseLineBy(n: nat, raw: string, candidate: string, disabled: bool, indent: string)
    requires TrimSpace(raw) != "" && disabled == (TrimSpace(raw)[0] == '#') && indent == LeadingSpace(raw)
    requires candidate == if disabled then TrimSpace(TrimSpace(raw)[1..]) else TrimSpace(raw)
    ensures ParseLine(n, raw) == match ParseJobLine(candidate)
                                 case Some(j) => JobEntry(n, j, disabled, indent)
                                 case None => Text(n, raw)
  {
    hide ParseJobLine, TrimSpace, LeadingSpace;
  }

  lemma ParsePlacedBody(n: nat, indent: string, hard: string, body: string, disabled: bool)
    requires AllPad(indent) && AllBlank(hard) && (hard != "" ==> !IsPad(hard[0]))
    requires body != "" && !IsBlank(body[0]) && body[0] != '#' && !IsBlank(body[|body| - 1])
    ensures var raw := (if disabled then "# " else "") + indent + hard + body;
            ParseLine(n, raw) == match ParseJobLine(body)
                                 case Some(j) => JobEntry(n, j, disabled, if disabled then "" else indent)
                                 case None => Text(n, raw)
  {
    hide ParseJobLine, ParseLine, TrimSpace, LeadingSpace, JobEntry;
    Placed(disabled, indent, hard, body);
    var raw := (if disabled then "# " else "") + indent + hard + body;
    if disabled {
      DisabledCandidate(indent, hard, body);
      assert raw[0] == '#';
      ParseLineBy(n, raw, body, true, "");
    } else {
      EnabledCandidate(indent, hard, body);
      ParseLineBy(n, raw, body, false, indent);
    }
  }

  /** A line that begins with the job's own schedule. */
  lemma ParseComposedLine(n: nat, indent: string, l: Shape, disabled: bool)
    requires Runnable(l) && l.fields != [] && l.tail == "" && AllPad(indent)
    ensures ParseLine(n, (if disabled then "# " else "") + indent + Compose(l))
         == JobEntry(n, PartsOf(l), disabled, if disabled then "" else indent)
  {
    hide *;
    ComposedEnds(l);
    ParseComposed(l);
    NothingIsBlank();
    ParsePlacedBody(n, indent, "", Compose(l), disabled);
    assert (if disabled then "# " else "") + indent + "" == (if disabled then "# " else "") + indent;
  }

  lemma RenderedJobParses(l: Shape, e: CrontabEntry, n: nat)
    requires Runnable(l) && l.fields != [] && e.Job? && AllPad(e.indent)
    requires PartsOf(l) == JobParts(e.spec, e.url, e.flags, e.gap)
    ensures ParseLine(n, RenderLine(e)) == Reread(e, n)
  {
    hide ParseLine, ParseJobLine, RenderBody, Compose, Runnable, PartsOf;
    RenderComposes(l);
    PrintedIsRunnable(l);
    assert Printed(l).tail == "";
    hide Printed;
    ParseComposedLine(n, e.indent, Printed(l), e.disabled);
  }

  /** A carriage return at the end of a line does not change what the line is read as. */
  lemma DropReturnTrims(t: string)
    ensures TrimSpace(DropReturn(t)) == TrimSpace(t)
  {
    var d := DropReturn(t);
    var a, b := TrimSpaceParts(d);
    if d != t {
      assert t == d + "\r" && AllBlank("\r");
      hide TrimSpace, DropReturn, AllBlank;
      BlankSum(b, "\r");
      TrimSpaceIs(a, TrimSpace(d), b + "\r");
      Regroup(a + TrimSpace(d), b, "\r");
    }
  }

  lemma ParseDropped(n: nat, t: string)
    requires ParseLine(n, t).Text?
    ensures ParseLine(n, DropReturn(t)) == Text(n, DropReturn(t))
  {
    DropReturnTrims(t);
    hide TrimSpace, DropReturn, ParseJobLine, LeadingSpace;
  }

  /** A printed job ends with a quote. */
  lemma PrintedEnd(e: CrontabEntry)
    requires e.Job?
    ensures DropReturn(RenderLine(e)) == RenderLine(e)
  {
    var body := RenderBody(JobParts(e.spec, e.url, e.flags, e.gap));
    assert body[|body| - 1] == '"';
    hide RenderBody;
    assert RenderLine(e)[|RenderLine(e)| - 1] == body[|body| - 1];
  }

  /** Parsing a printed entry gives the entry back. */
  lemma RenderedLineParses(e: CrontabEntry, n: nat)
    requires Parsed(e)
    ensures ParseLine(n, DropReturn(RenderLine(e))) == Reread(e, n)
  {
    if e.Job? {
      var l :| Runnable(l) && PartsOf(l) == JobParts(e.spec, e.url, e.flags, e.gap);
      hide *;
      PrintedEnd(e);
      RenderedJobParses(l, e, n);
    } else {
      assert ParseLine(n, e.text) == Text(n, e.text);
      hide ParseLine, DropReturn;
      ParseDropped(n, e.text);
    }
  }

  /** A job line that stands as the printer writes it: the curl command in the printer's form with
      nothing after it, and when disabled a hash and one blank before it. */
  ghost predicate Canonical(raw: string, disabled: bool) {
    exists l :: Runnable(l) && l.fields != [] && Printed(l) == l
        && raw == (if disabled then "# " else LeadingSpace(raw)) + Compose(l)
  }

  /** A job line is printed exactly as it stood when, and only when, it was canonical. */
  lemma PrintedUnchanged(n: nat, raw: string)
    requires ParseLine(n, raw).Job?
    ensures RenderLine(ParseLine(n, raw)) == raw <==> Canonical(raw, ParseLine(n, raw).disabled)
  {
    hide *;
    var disabled := ParseLine(n, raw).disabled;
    if RenderLine(ParseLine(n, raw)) == raw {
      UnchangedIsCanonical(n, raw);
    }
    if Canonical(raw, disabled) {
      var l := CanonicalShape(raw, disabled);
      CanonicalUnchanged(n, raw, disabled, l);
    }
  }

  lemma CanonicalShape(raw: string, disabled: bool) returns (l: Shape)
    requires Canonical(raw, disabled)
    ensures Runnable(l) && l.fields != [] && Printed(l) == l
            && raw == (if disabled then "# " else LeadingSpace(raw)) + Compose(l)
  {
    hide Runnable, Printed, LeadingSpace, Compose;
    l :| Runnable(l) && l.fields != [] && Printed(l) == l
        && raw == (if disabled then "# " else LeadingSpace(raw)) + Compose(l);
  }

  /** The shape of the candidate of a job line. */
  lemma JobLineShape(n: nat, raw: string) returns (m: Shape)
    requires ParseLine(n, raw).Job?
    ensures Runnable(m) && m.fields != []
    ensures ParseLine(n, raw) == JobEntry(n, PartsOf(m), ParseLine(n, raw).disabled, LeadingSpace(raw))
  {
    hide ParseJobLine, LeadingSpace, Compose, Runnable, TrimSpace, PartsOf;
    var body := TrimSpace(raw);
    m := ParseJobLineMeans(if ParseLine(n, raw).disabled then TrimSpace(body[1..]) else body);
  }

  lemma UnchangedIsCanonical(n: nat, raw: string)
    requires ParseLine(n, raw).Job? && RenderLine(ParseLine(n, raw)) == raw
    ensures Canonical(raw, ParseLine(n, raw).disabled)
  {
    hide ParseLine, RenderLine, RenderBody, LeadingSpace, Compose, Runnable, JobEntry, Printed, PartsOf;
    var disabled, indent := ParseLine(n, raw).disabled, LeadingSpace(raw);
    var m := JobLineShape(n, raw);
    RenderComposes(m);
    PrintedIsRunnable(m);
    RenderedEntry(n, m, disabled, indent);
    if disabled {
      assert raw[0] == '#';
      NothingIsBlank();
      LeadingSpaceOf("", raw);
      assert "" + raw == raw;
    }
    PrefixAndIndent(raw, indent, Compose(Printed(m)), disabled);
  }

  lemma CanonicalUnchanged(n: nat, raw: string, disabled: bool, l: Shape)
    requires ParseLine(n, raw).Job? && ParseLine(n, raw).disabled == disabled
    requires Runnable(l) && l.fields != [] && Printed(l) == l
             && raw == (if disabled then "# " else LeadingSpace(raw)) + Compose(l)
    ensures RenderLine(ParseLine(n, raw)) == raw
  {
    assert l.tail == "";
    hide *;
    RenderComposes(l);
    LeadingSpacePads(raw);
    NothingIsBlank();
    var indent := if disabled then "" else LeadingSpace(raw);
    PrefixAndIndent(raw, LeadingSpace(raw), Compose(l), disabled);
    ParseComposedLine(n, indent, l, disabled);
    RenderedEntry(n, l, disabled, indent);
  }

  lemma PrefixAndIndent(raw: string, indent: string, body: string, disabled: bool)
    ensures (if disabled then "# " else indent) + body
         == (if disabled then "# " else "") + (if disabled then "" else indent) + body
  {
    assert "" + indent == indent && "# " + "" == "# ";
  }

  lemma RenderedEntry(n: nat, l: Shape, disabled: bool, indent: string)
    requires l.fields != []
    ensures RenderLine(JobEntry(n, PartsOf(l), disabled, indent))
         == (if disabled then "# " else "") + indent + RenderBody(PartsOf(l))
  {
    hide RenderBody;
  }

  // ---------------------------------------------------------------- whole files

  predicate OneLine(s: string) { forall i :: 0 <= i < |s| ==> s[i] != '\n' }

  lemma {:induction false} LinesAreLines(text: string)
    ensures forall i :: 0 <= i < |Lines(text)| ==> OneLine(Lines(text)[i])
    decreases |text|
  {
    if text != "" {
      var i := Index(text, '\n');
      DroppedOneLine(text[..i]);
      if i < |text| {
        LinesAreLines(text[i + 1..]);
      } else {
        assert text[..i] == text;
      }
    }
  }

  lemma DroppedOneLine(l: string)
    ensures OneLine(DropReturn(l)) <==> OneLine(l)
  {
    if l != "" && l[|l| - 1] == '\r' {
      assert l == DropReturn(l) + "\r";
      assert forall i :: 0 <= i < |l| - 1 ==> DropReturn(l)[i] == l[i];
    }
  }

  function Unlines(ls: seq<string>): string {
    if ls == [] then "" else ls[0] + "\n" + Unlines(ls[1..])
  }

  lemma LinesStep(l: string, rest: string)
    requires OneLine(l)
    ensures Lines(l + "\n" + rest) == [DropReturn(l)] + Lines(rest)
  {
    var text := l + "\n" + rest;
    IndexIs(text, '\n', |l|);
    assert text[..|l|] == l && text[|l| + 1..] == rest;
  }

  function DropEach(ls: seq<string>): seq<string> { seq(|ls|, i requires 0 <= i < |ls| => DropReturn(ls[i])) }

  lemma {:induction false} LinesOfUnlines(ls: seq<string>)
    requires forall i :: 0 <= i < |ls| ==> OneLine(ls[i])
    ensures Lines(Unlines(ls)) == DropEach(ls)
  {
    hide OneLine;
    if ls != [] {
      hide Lines;
      assert forall i :: 0 <= i < |ls[1..]| ==> ls[1..][i] == ls[i + 1];
      LinesOfUnlines(ls[1..]);
      LinesStep(ls[0], Unlines(ls[1..]));
      assert DropEach(ls) == [DropReturn(ls[0])] + DropEach(ls[1..]);
    }
  }

  lemma {:induction false} UnlinesAppend(ls: seq<string>, l: string)
    ensures Unlines(ls + [l]) == Unlines(ls) + l + "\n"
  {
    if ls == [] {
      assert ls + [l] == [l] && [l][1..] == [];
    } else {
      assert (ls + [l])[0] == ls[0] && (ls + [l])[1..] == ls[1..] + [l];
      UnlinesAppend(ls[1..], l);
    }
  }

  function RenderEach(es: seq<CrontabEntry>): seq<string> {
    seq(|es|, i requires 0 <= i < |es| => RenderLine(es[i]))
  }

  lemma {:induction false} RenderLinesIsUnlines(es: seq<CrontabEntry>)
    ensures RenderLines(es) == Unlines(RenderEach(es))
  {
    hide RenderLine;
    if es != [] {
      var n := |es| - 1;
      RenderLinesIsUnlines(es[..n]);
      assert RenderEach(es) == RenderEach(es[..n]) + [RenderLine(es[n])];
      UnlinesAppend(RenderEach(es[..n]), RenderLine(es[n]));
    }
  }

  lemma OneLineParts(a: string, b: string)
    ensures OneLine(a + b) <==> OneLine(a) && OneLine(b)
  {
    if OneLine(a + b) {
      assert forall i :: 0 <= i < |a| ==> a[i] == (a + b)[i];
      assert forall i :: 0 <= i < |b| ==> b[i] == (a + b)[|a| + i];
    }
  }

  lemma TrimSpaceOneLine(s: string)
    requires OneLine(s)
    ensures OneLine(TrimSpace(s))
  {
    var a, b := TrimSpaceParts(s);
    OneLineParts(a + TrimSpace(s), b);
    OneLineParts(a, TrimSpace(s));
  }

  lemma ShapeOneLine(l: Shape)
    ensures OneLine(Compose(l)) <==>
              OneLine(Join(l.fields)) && OneLine(l.curlGap) && OneLine(Join(l.flags)) && l.open != '\n'
                  && OneLine(l.url)
              && l.close != '\n' && OneLine(l.tail)
  {
    hide Join, OneLine;
    var t1 := [l.close] + l.tail;
    var t2 := l.url + t1;
    var t3 := [l.open] + t2;
    var t4 := Join(l.flags) + t3;
    var t5 := l.curlGap + t4;
    OneLineParts(Join(l.fields), CURL + t5);
    OneLineParts(CURL, t5);
    OneLineParts(l.curlGap, t4);
    OneLineParts(Join(l.flags), t3);
    OneLineParts([l.open], t2);
    OneLineParts(l.url, t1);
    OneLineParts([l.close], l.tail);
    OneLineChar(l.open);
    OneLineChar(l.close);
    assert OneLine(CURL) by { CurlIsOneLine(); }
  }

  lemma OneLineChar(c: char)
    ensures OneLine([c]) <==> c != '\n'
  {
    assert [c][0] == c;
  }

  lemma CurlIsOneLine()
    ensures OneLine(CURL) && OneLine("") && OneLine(" ") && OneLine("# ") && OneLine(DEFAULT_GAP)
  {
  }

  lemma PrintedOneLine(l: Shape)
    requires Runnable(l) && OneLine(Compose(l))
    ensures l.fields != [] && OneLine(Compose(Printed(l)))
  {
    ShapeOneLine(l);
    ShapeOneLine(Printed(l));
    CurlIsOneLine();
    PrintedFieldsAre(l.fields);
    SpecTrimmed(l);
    OneLineParts(SpecOf(l.fields), PartsOf(l).gap);
    OneLineParts(SpecOf(l.fields), Gapped(PartsOf(l)).gap);
    assert OneLine(Join(Printed(l).fields));
    hide ParseSchedule, Join, JoinTrim, OneLine, WellShaped, PrintedFields, SpecOf;
    if l.flags != [] {
      JoinIsTrimAndGap(l.flags);
      JoinIsTrimAndGap(Printed(l).flags);
      JoinTrimIgnoresLastGap(l.flags, " ");
      OneLineParts(JoinTrim(l.flags), LastGap(l.flags));
      OneLineParts(JoinTrim(l.flags), " ");
    }
  }

  lemma PadsOneLine(s: string)
    requires AllPad(s)
    ensures OneLine(s)
  {
  }

  /** A parsed line is printed on one line. */
  lemma RenderedOneLine(n: nat, raw: string)
    requires OneLine(raw)
    ensures OneLine(RenderLine(ParseLine(n, raw)))
  {
    hide ParseJobLine, RenderBody, LeadingSpace, Compose, Runnable, TrimSpace, OneLine;
    var e := ParseLine(n, raw);
    if e.Job? {
      var body := TrimSpace(raw);
      TrimSpaceOneLine(raw);
      if e.disabled {
        assert body == body[..1] + body[1..];
        OneLineParts(body[..1], body[1..]);
        TrimSpaceOneLine(body[1..]);
      }
      var l := ParseJobLineMeans(if e.disabled then TrimSpace(body[1..]) else body);
      PrintedOneLine(l);
      RenderComposes(l);
      LeadingSpacePads(raw);
      PadsOneLine(e.indent);
      CurlIsOneLine();
      var prefix := if e.disabled then "# " else "";
      OneLineParts(prefix, e.indent);
      OneLineParts(prefix + e.indent, Compose(Printed(l)));
      assert RenderLine(e) == prefix + e.indent + Compose(Printed(l));
    }
  }

  /** For every file: parsing, printing and parsing again gives the same entries, line by line, but for
      what `Reread` says. */
  lemma CrontabRoundTrip(text: string)
    ensures var es := ParseLines(Lines(text));
            var again := ParseLines(Lines(RenderLines(es)));
            |again| == |es| && forall i :: 0 <= i < |es| ==>
                  again[i] == Reread(es[i], es[i].line) && es[i].line == i + 1
  {
    hide ParseLine, RenderLine, Lines, Parsed, DropReturn;
    var lines := Lines(text);
    var es := ParseLines(lines);
    LinesAreLines(text);
    RenderLinesIsUnlines(es);
    forall i | 0 <= i < |es|
      ensures OneLine(RenderEach(es)[i]) && es[i].line == i + 1
      ensures ParseLine(i + 1, DropReturn(RenderEach(es)[i])) == Reread(es[i], i + 1)
    {
      RenderedOneLine(i + 1, lines[i]);
      ParseLineParsed(i + 1, lines[i]);
      RenderedLineParses(es[i], i + 1);
    }
    LinesOfUnlines(RenderEach(es));
  }

  predicate Ended(text: string) { text == "" || text[|text| - 1] == '\n' }

  /** No carriage return stands at the end of a line. */
  predicate NoReturns(text: string) { forall i :: 0 <= i < |text| - 1 && text[i] == '\r' ==> text[i + 1] != '\n' }

  /** Putting the lines of a text together gives the text. */
  lemma {:induction false} UnlinesOfLines(text: string)
    requires Ended(text) && NoReturns(text)
    ensures Unlines(Lines(text)) == text
    decreases |text|
  {
    if text != "" {
      var i := Index(text, '\n');
      assert i < |text|;
      var rest := text[i + 1..];
      assert Lines(text) == [DropReturn(text[..i])] + Lines(rest);
      CutLine(text, i);
      hide *;
      UnlinesOfLines(rest);
      UnlinesCons(text[..i], Lines(rest));
    }
  }

  lemma CutLine(text: string, i: nat)
    requires i < |text| && text[i] == '\n' && NoReturns(text)
    ensures text == text[..i] + "\n" + text[i + 1..] && (Ended(text) <==> Ended(text[i + 1..]))
    ensures NoReturns(text[i + 1..]) && DropReturn(text[..i]) == text[..i]
  {
    CutAt(text, i);
    NoReturnsAfter(text, i + 1);
    if i > 0 {
      assert text[..i][i - 1] == text[i - 1] != '\r';
    }
    hide NoReturns;
  }

  lemma CutAt(text: string, i: nat)
    requires i < |text| && text[i] == '\n'
    ensures text == text[..i] + "\n" + text[i + 1..]
  {
    assert text == text[..i] + (text[i..i + 1] + text[i + 1..]);
    assert text[i..i + 1] == "\n";
    Regroup(text[..i], "\n", text[i + 1..]);
  }

  lemma NoReturnsAfter(text: string, n: nat)
    requires n <= |text| && NoReturns(text)
    ensures NoReturns(text[n..])
  {
    var rest := text[n..];
    forall k | 0 <= k < |rest| - 1 && rest[k] == '\r' ensures rest[k + 1] != '\n' {
      assert rest[k] == text[n + k] && rest[k + 1] == text[n + k + 1];
    }
  }

  lemma {:induction false} UnlinesNoReturns(ls: seq<string>)
    requires forall i :: 0 <= i < |ls| ==> OneLine(ls[i]) && DropReturn(ls[i]) == ls[i]
    ensures NoReturns(Unlines(ls))
  {
    if ls != [] {
      assert forall i :: 0 <= i < |ls[1..]| ==> ls[1..][i] == ls[i + 1];
      UnlinesNoReturns(ls[1..]);
      JoinedNoReturns(ls[0], Unlines(ls[1..]));
    }
  }

  lemma JoinedNoReturns(l: string, rest: string)
    requires OneLine(l) && DropReturn(l) == l && NoReturns(rest)
    ensures NoReturns(l + "\n" + rest)
  {
    var text := l + "\n" + rest;
    forall i | 0 <= i < |text| - 1 && text[i] == '\r' ensures text[i + 1] != '\n' {
      if i < |l| {
        assert text[i] == l[i];
        if i + 1 < |l| { assert text[i + 1] == l[i + 1]; }
      } else if i > |l| {
        assert text[i] == rest[i - |l| - 1] && text[i + 1] == rest[i - |l|];
      }
    }
  }

  lemma UnlinesCons(l: string, ls: seq<string>)
    ensures Unlines([l] + ls) == l + "\n" + Unlines(ls)
  {
    assert ([l] + ls)[1..] == ls;
  }

  lemma {:induction false} UnlinesEnded(ls: seq<string>)
    ensures Ended(Unlines(ls))
  {
    if ls != [] {
      UnlinesEnded(ls[1..]);
    }
  }

  /** A whole file is printed as it stood when, and only when, it is empty or ends with a line feed, no
      line of it ends with a carriage return, and every job line in it is canonical. */
  lemma PrintedFileUnchanged(text: string)
    ensures RenderLines(ParseLines(Lines(text))) == text
            <==> Ended(text) && NoReturns(text)
                 && forall i :: 0 <= i < |Lines(text)| ==>
                      var e := ParseLine(i + 1, Lines(text)[i]); e.Job? ==> Canonical(Lines(text)[i], e.disabled)
  {
    hide ParseLine, RenderLine, Lines, Canonical, Ended, NoReturns, OneLine, Unlines, DropReturn;
    var lines := Lines(text);
    var es := ParseLines(lines);
    var each := RenderEach(es);
    LinesAreLines(text);
    RenderLinesIsUnlines(es);
    UnlinesEnded(each);
    forall i | 0 <= i < |es|
      ensures OneLine(each[i])
      ensures each[i] == lines[i] <==> (es[i].Job? ==> Canonical(lines[i], es[i].disabled))
      ensures DropReturn(each[i]) == lines[i] ==> each[i] == lines[i] && DropReturn(each[i]) == each[i]
    {
      RenderedOneLine(i + 1, lines[i]);
      LineUnchanged(i + 1, lines[i]);
      LineStands(i + 1, lines[i]);
    }
    LinesOfUnlines(each);
    if RenderLines(es) == text {
      assert lines == DropEach(each);
      assert forall i :: 0 <= i < |es| ==> DropReturn(each[i]) == lines[i];
      UnlinesNoReturns(each);
    }
    assert each == lines <==> forall i :: 0 <= i < |es| ==> each[i] == lines[i];
    if Ended(text) && NoReturns(text) {
      UnlinesOfLines(text);
    }
  }

  lemma LineStands(n: nat, raw: string)
    ensures var l := RenderLine(ParseLine(n, raw)); DropReturn(l) == raw ==> l == raw && DropReturn(l) == l
  {
    var e := ParseLine(n, raw);
    if e.Job? {
      hide *;
      PrintedEnd(e);
    } else {
      assert RenderLine(e) == raw by { hide ParseJobLine, TrimSpace; }
      hide ParseLine, RenderLine;
    }
  }

  lemma LineUnchanged(n: nat, raw: string)
    ensures var e := ParseLine(n, raw); RenderLine(e) == raw <==> (e.Job? ==> Canonical(raw, e.disabled))
  {
    if ParseLine(n, raw).Job? {
      hide *;
      PrintedUnchanged(n, raw);
    } else {
      hide ParseJobLine, TrimSpace, Canonical;
    }
  }

  // ---------------------------------------------------------------- the scheduler's parser

  datatype LoadedJob = LoadedJob(line: nat, spec: string, url: string, schedule: Schedule)

  /** What the scheduler makes of one line. */
  function LoadLine(n: nat, raw: string): Option<LoadedJob> {
    var line := TrimSpace(raw);
    if line == "" || line[0] == '#' then None
    else
      match MatchJob(line)
      case None => None
      case Some(l) =>
        match ParseSchedule(Texts(l.fields))
        case None => None
        case Some(sch) => Some(LoadedJob(n, JoinSpaces(Texts(l.fields)), l.url, sch))
  }

  function LoadLines(lines: seq<string>): seq<LoadedJob> {
    if lines == [] then []
    else
      var before := LoadLines(lines[..|lines| - 1]);
      match LoadLine(|lines|, lines[|lines| - 1])
      case Some(j) => before + [j]
      case None => before
  }

  method ParseCrontab(text: string) returns (jobs: seq<LoadedJob>)
    ensures jobs == LoadLines(Lines(text))
  {
    hide MatchJob, ParseSchedule, Lines;
    var lines := Lines(text);
    jobs := [];
    var n := 1;
    while n <= |lines|
      invariant 1 <= n <= |lines| + 1 && jobs == LoadLines(lines[..n - 1])
    {
      assert lines[..n][..n - 1] == lines[..n - 1];
      var line := TrimSpace(lines[n - 1]);
      if line != "" && line[0] != '#' {
        var m := MatchJob(line);
        if m.Some? {
          var sch := ParseSchedule(Texts(m.value.fields));
          if sch.Some? {
            jobs := jobs + [LoadedJob(n, JoinSpaces(Texts(m.value.fields)), m.value.url, sch.value)];
          }
        }
      }
      n := n + 1;
    }
    assert lines[..|lines|] == lines;
  }

  function EnabledJobs(es: seq<CrontabEntry>): seq<CrontabEntry> {
    if es == [] then []
    else
      var before := EnabledJobs(es[..|es| - 1]);
      if es[|es| - 1].Job? && !es[|es| - 1].disabled then before + [es[|es| - 1]] else before
  }

  /** The entry and the loaded job are one job: the same line, URL and schedule, and the same five
      fields, however they are spaced. */
  ghost predicate SameJob(e: CrontabEntry, j: LoadedJob) {
    && e.Job? && e.line == j.line && e.url == j.url
    && Fields(e.spec) == Fields(j.spec)
    && ParseSchedule(Fields(TrimSpace(e.spec))) == Some(j.schedule)
  }

  lemma {:induction false} FieldsOfJoinSpaces(fs: seq<string>)
    requires fs != [] && forall i :: 0 <= i < |fs| ==> fs[i] != "" && NoBlank(fs[i])
    ensures Fields(JoinSpaces(fs)) == fs
  {
    var ps := seq(|fs|, i requires 0 <= i < |fs| => Piece(fs[i], " "));
    JoinSpacesIsJoinTrim(fs, ps);
    FieldsOfJoinTrim(ps, "");
    assert JoinTrim(ps) + "" == JoinTrim(ps);
    assert Texts(ps) == fs;
  }

  lemma {:induction false} JoinSpacesIsJoinTrim(fs: seq<string>, ps: seq<Piece>)
    requires fs != [] && |ps| == |fs| && forall i :: 0 <= i < |fs| ==> ps[i] == Piece(fs[i], " ")
    ensures JoinSpaces(fs) == JoinTrim(ps)
  {
    if |fs| > 1 {
      assert forall i :: 0 <= i < |fs[1..]| ==> ps[1..][i] == ps[i + 1] && fs[1..][i] == fs[i + 1];
      JoinSpacesIsJoinTrim(fs[1..], ps[1..]);
    }
  }

  lemma LineAgreement(n: nat, raw: string)
    ensures var e := ParseLine(n, raw);
            match LoadLine(n, raw)
            case Some(j) => e.Job? && !e.disabled && SameJob(e, j)
            case None => !(e.Job? && !e.disabled)
  {
    hide ParseJobLine, Compose, Fields, JoinTrim, JoinSpaces, TrimSpace, MatchJob, ParseSchedule, LeadingSpace, SpecOf;
    var body := TrimSpace(raw);
    EmptyIsNoJob();
    if body != "" && body[0] != '#' {
      CandidateAgreement(body);
      if ParseJobLine(body).Some? {
        var l := ParseJobLineMeans(body);
        MatchJobExact(body, l);
        SpecFields(l);
      }
    }
  }

  lemma EmptyIsNoJob()
    ensures ParseJobLine("").None?
  {
    assert RunEnd("", 0, false) == 0;
    assert ReadFields("", 5).None?;
  }

  lemma CandidateAgreement(s: string)
    ensures ParseJobLine(s).Some? <==> MatchJob(s).Some? && ParseSchedule(Texts(MatchJob(s).value.fields)).Some?
  {
    hide MatchJob, ParseSchedule;
  }

  lemma NoTail(s: string)
    ensures s + "" == s
  {
  }

  lemma SpecFields(l: Shape)
    requires Runnable(l)
    ensures l.fields != [] && TrimSpace(SpecOf(l.fields)) == JoinTrim(l.fields)
    ensures Fields(JoinTrim(l.fields)) == Texts(l.fields) == Fields(JoinSpaces(Texts(l.fields)))
    ensures Fields(SpecOf(l.fields)) == Texts(l.fields)
  {
    hide ParseSchedule, Fields;
    assert forall i :: 0 <= i < |l.fields| ==> IsField(l.fields[i]);
    assert |Texts(l.fields)| == 5 && forall i :: 0 <= i < 5 ==> Texts(l.fields)[i] != "" && NoBlank(Texts(l.fields)[i]);
    assert AllFields(l.fields) && l.fields != [];
    hide JoinTrim, SpecOf, TrimSpace, JoinSpaces, IsField, AllFields, Texts, NoBlank;
    SpecTrimmed(l);
    var hard := SpecParts(l.fields);
    NothingIsBlank();
    FieldsOfJoinTrim(l.fields, hard);
    FieldsOfJoinTrim(l.fields, "");
    NoTail(JoinTrim(l.fields));
    FieldsOfJoinSpaces(Texts(l.fields));
  }

  /** For every file the enabled jobs of the editor are exactly, and in the same order, the jobs
      that the scheduler loads. */
  lemma {:induction false} EditorAndSchedulerAgree(lines: seq<string>)
    ensures |EnabledJobs(ParseLines(lines))| == |LoadLines(lines)|
    ensures forall k :: 0 <= k < |LoadLines(lines)| ==> SameJob(EnabledJobs(ParseLines(lines))[k], LoadLines(lines)[k])
  {
    hide ParseLine, LoadLine, SameJob;
    if lines != [] {
      var n := |lines| - 1;
      EditorAndSchedulerAgree(lines[..n]);
      assert ParseLines(lines)[..n] == ParseLines(lines[..n]);
      LineAgreement(|lines|, lines[n]);
    }
  }
}
