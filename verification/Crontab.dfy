/** The crontab file: the editor's parser and printer (background/crontabfile.go), line by line and
    as methods over the file.

    A job line is parsed to the pieces it is put together from, and printing puts the same pieces
    together the printer's way. */
module Crontab {
  import opened Options
  import opened Blanks
  import opened CronField
  import opened CronSchedule
  import opened JobLine

  datatype CrontabEntry =
    | Text(line: nat, text: string)
    | Job(line: nat, spec: string, url: string, flags: string, disabled: bool, indent: string, gap: string)

  /** The parts of a job that do not depend on where it stands. */
  datatype JobParts = JobParts(spec: string, url: string, flags: string, gap: string)

  function Texts(ps: seq<Piece>): seq<string> { seq(|ps|, i requires 0 <= i < |ps| => ps[i].text) }

  function JoinSpaces(fs: seq<string>): string {
    if fs == [] then "" else if |fs| == 1 then fs[0] else fs[0] + " " + JoinSpaces(fs[1..])
  }

  /** The first position at which the command name stands, or the end. */
  function CurlIndex(s: string): (i: nat)
    ensures i <= |s|
  {
    if s == "" || CURL <= s then 0 else 1 + CurlIndex(s[1..])
  }

  const DEFAULT_GAP: string := "    "

  /** The two characters the editor pads its columns with; it takes no other white space off a schedule. */
  predicate IsPad(c: char) { c == ' ' || c == '\t' }

  predicate AllPad(s: string) { forall i :: 0 <= i < |s| ==> IsPad(s[i]) }

  /** How many pads s begins with. */
  function Pads(s: string): (n: nat)
    ensures n <= |s| && (forall k :: 0 <= k < n ==> IsPad(s[k])) && (n < |s| ==> !IsPad(s[n]))
  {
    if s == "" || !IsPad(s[0]) then 0
    else
      var n := Pads(s[1..]);
      assert forall k :: 0 < k < n + 1 ==> s[k] == s[1..][k - 1];
      n + 1
  }

  function TrimPadLeft(s: string): string { s[Pads(s)..] }

  function TrimPadRight(s: string): (t: string)
    ensures t <= s && (forall i :: |t| <= i < |s| ==> IsPad(s[i])) && (t != "" ==> !IsPad(t[|t| - 1]))
  {
    if s == "" || !IsPad(s[|s| - 1]) then s else TrimPadRight(s[..|s| - 1])
  }

  function ParseJobLine(s: string): Option<JobParts> {
    match MatchJob(s)
    case None => None
    case Some(l) =>
      if ParseSchedule(Texts(l.fields)).None? then None
      else
        var i := CurlIndex(s);
        var spec := if 0 < i < |s| then TrimPadRight(s[..i]) else JoinSpaces(Texts(l.fields));
        var gap := if 0 < i < |s| then s[..i][|spec|..] else DEFAULT_GAP;
        Some(JobParts(spec, l.url, TrimSpace(Join(l.flags)), gap))
  }

  function LeadingSpace(s: string): string { s[..Pads(s)] }

  function ParseLine(n: nat, raw: string): CrontabEntry {
    var body := TrimSpace(raw);
    var disabled := body != "" && body[0] == '#';
    var candidate := if disabled then TrimSpace(body[1..]) else body;
    match ParseJobLine(candidate)
    case Some(j) => Job(n, j.spec, j.url, j.flags, disabled, LeadingSpace(raw), j.gap)
    case None => Text(n, raw)
  }

  function RenderBody(j: JobParts): string {
    var f := TrimSpace(j.flags);
    TrimPadRight(TrimPadLeft(j.spec)) + (if j.gap == "" then DEFAULT_GAP else j.gap) + CURL
    + (if f != "" then " " + f else "") + " \"" + j.url + "\""
  }

  function RenderLine(e: CrontabEntry): string {
    match e
    case Text(_, text) => text
    case Job(_, spec, url, flags, disabled, indent, gap) =>
      (if disabled then "# " else "") + indent + RenderBody(JobParts(spec, url, flags, gap))
  }

  /** A carriage return at the end of a line is not part of it. */
  function DropReturn(line: string): string {
    if line != "" && line[|line| - 1] == '\r' then line[..|line| - 1] else line
  }

  /** The lines of a text: what stands between line feeds, without a last empty piece. */
  function Lines(text: string): seq<string>
    decreases |text|
  {
    if text == "" then []
    else
      var i := Index(text, '\n');
      if i == |text| then [DropReturn(text)] else [DropReturn(text[..i])] + Lines(text[i + 1..])
  }

  function ParseLines(lines: seq<string>): (es: seq<CrontabEntry>)
    ensures |es| == |lines|
  {
    seq(|lines|, i requires 0 <= i < |lines| => ParseLine(i + 1, lines[i]))
  }

  function RenderLines(es: seq<CrontabEntry>): string {
    if es == [] then "" else RenderLines(es[..|es| - 1]) + RenderLine(es[|es| - 1]) + "\n"
  }

  lemma NumberedFromOne(lines: seq<string>)
    ensures forall i :: 0 <= i < |lines| ==> ParseLines(lines)[i].line == i + 1
  {
    hide ParseLine;
    forall i | 0 <= i < |lines| ensures ParseLines(lines)[i].line == i + 1 {
      OwnNumber(i + 1, lines[i]);
    }
  }

  lemma OwnNumber(n: nat, raw: string)
    ensures ParseLine(n, raw).line == n
  {
    hide ParseJobLine, TrimSpace, LeadingSpace;
  }

  method ParseCrontabEntries(text: string) returns (entries: seq<CrontabEntry>)
    ensures entries == ParseLines(Lines(text))
    ensures |entries| == |Lines(text)| && forall i :: 0 <= i < |entries| ==> entries[i].line == i + 1
  {
    NumberedFromOne(Lines(text));
    hide ParseLine, Lines;
    var lines := Lines(text);
    entries := [];
    var n := 1;
    while n <= |lines|
      invariant 1 <= n <= |lines| + 1 && entries == ParseLines(lines)[..n - 1]
    {
      entries := entries + [ParseLine(n, lines[n - 1])];
      n := n + 1;
    }
  }

  method RenderCrontabEntries(entries: seq<CrontabEntry>) returns (text: string)
    ensures text == RenderLines(entries)
  {
    hide RenderLine;
    text := "";
    for i := 0 to |entries|
      invariant text == RenderLines(entries[..i])
    {
      assert entries[..i + 1][..i] == entries[..i];
      text := text + RenderLine(entries[i]) + "\n";
    }
    assert entries[..|entries|] == entries;
  }

  // ---------------------------------------------------------------- pieces without the last gap

  function LastGap(ps: seq<Piece>): string
    requires ps != []
  {
    ps[|ps| - 1].gap
  }

  /** The pieces in order, without the blanks after the last of them. */
  function JoinTrim(ps: seq<Piece>): string
    requires ps != []
  {
    if |ps| == 1 then ps[0].text else ps[0].text + ps[0].gap + JoinTrim(ps[1..])
  }

  lemma {:induction false} JoinIsTrimAndGap(ps: seq<Piece>)
    requires ps != []
    ensures Join(ps) == JoinTrim(ps) + LastGap(ps)
  {
    if |ps| > 1 {
      JoinIsTrimAndGap(ps[1..]);
      assert LastGap(ps) == LastGap(ps[1..]);
      Regroup(ps[0].text + ps[0].gap, JoinTrim(ps[1..]), LastGap(ps));
      assert Join(ps) == ps[0].text + ps[0].gap + Join(ps[1..]);
      hide *;
    } else {
      assert Join(ps[1..]) == "";
    }
  }

  lemma {:induction false} JoinTrimEnds(ps: seq<Piece>)
    requires ps != [] && forall i :: 0 <= i < |ps| ==> ps[i].text != "" && NoBlank(ps[i].text)
    ensures JoinTrim(ps) != "" && JoinTrim(ps)[0] == ps[0].text[0] && !IsBlank(JoinTrim(ps)[0])
    ensures !IsBlank(JoinTrim(ps)[|JoinTrim(ps)| - 1])
  {
    if |ps| > 1 {
      assert forall i :: 0 <= i < |ps[1..]| ==> ps[1..][i] == ps[i + 1];
      JoinTrimEnds(ps[1..]);
    }
  }

  lemma PadsIs(s: string, n: nat)
    requires n <= |s| && (forall k :: 0 <= k < n ==> IsPad(s[k])) && (n < |s| ==> !IsPad(s[n]))
    ensures Pads(s) == n
  {
  }

  lemma TrimPadRightIs(s: string, t: string)
    requires t <= s && (forall i :: |t| <= i < |s| ==> IsPad(s[i])) && (t != "" ==> !IsPad(t[|t| - 1]))
    ensures TrimPadRight(s) == t
  {
    var u := TrimPadRight(s);
    assert t != "" ==> s[|t| - 1] == t[|t| - 1];
    assert u != "" ==> s[|u| - 1] == u[|u| - 1];
    assert u == s[..|u|] && t == s[..|t|];
  }

  /** A string whose ends are no pads is its own trimming. */
  lemma TrimPadsOff(t: string)
    requires t != "" ==> !IsPad(t[0]) && !IsPad(t[|t| - 1])
    ensures TrimPadRight(TrimPadLeft(t)) == t
  {
    PadsIs(t, 0);
    assert t[0..] == t;
    TrimPadRightIs(t, t);
  }

  lemma TrimOfTrimmed(t: string)
    requires t != "" ==> !IsBlank(t[0]) && !IsBlank(t[|t| - 1])
    ensures TrimSpace(t) == t
  {
    TrimSpaceIs("", t, "");
    assert "" + t + "" == t;
  }

  lemma {:induction false} FieldsOfJoinTrim(ps: seq<Piece>, tail: string)
    requires ps != [] && AllFields(ps) && AllBlank(tail)
    ensures Fields(JoinTrim(ps) + tail) == Texts(ps)
  {
    assert forall i :: 0 <= i < |ps| ==> IsField(ps[i]);
    if |ps| == 1 {
      hide Fields;
      FieldsStep("", ps[0].text, tail);
      Regroup("", ps[0].text, tail);
      FieldsOfBlanks(tail);
      assert Texts(ps) == [ps[0].text];
    } else {
      var rest := ps[1..];
      assert forall i :: 0 <= i < |rest| ==> rest[i] == ps[i + 1];
      FieldsOfJoinTrim(rest, tail);
      JoinTrimEnds(rest);
      assert (JoinTrim(rest) + tail)[0] == JoinTrim(rest)[0];
      FieldThenRest(ps[0], JoinTrim(rest) + tail);
      Regroup(ps[0].text + ps[0].gap, JoinTrim(rest), tail);
      assert ps[0].text + ps[0].gap + JoinTrim(rest) == JoinTrim(ps);
      hide *;
      assert Texts(ps) == [ps[0].text] + Texts(rest) by { TextsStep(ps); }
    }
  }

  lemma TextsStep(ps: seq<Piece>)
    requires ps != []
    ensures Texts(ps) == [ps[0].text] + Texts(ps[1..])
  {
  }

  lemma FieldThenRest(p: Piece, s: string)
    requires IsField(p) && s != "" && !IsBlank(s[0])
    ensures Fields(p.text + p.gap + s) == [p.text] + Fields(s)
  {
    assert IsBlank((p.gap + s)[0]) && NoBlank(p.text) && p.text != "" && AllBlank(p.gap);
    hide *;
    BlankNothing();
    FieldsStep("", p.text, p.gap + s);
    Regroup("", p.text, p.gap + s);
    Regroup(p.text, p.gap, s);
    FieldsSkipBlanks(p.gap, s);
  }

  lemma FieldsSkipBlanks(gap: string, s: string)
    requires AllBlank(gap) && s != "" && !IsBlank(s[0])
    ensures Fields(gap + s) == Fields(s)
  {
    var f, rest := FirstRun(s);
    hide *;
    BlankNothing();
    FieldsStep("", f, rest);
    FieldsStep(gap, f, rest);
    Regroup(gap, f, rest);
  }

  lemma FirstRun(s: string) returns (f: string, rest: string)
    requires s != "" && !IsBlank(s[0])
    ensures s == f + rest && f != "" && NoBlank(f) && (rest != "" ==> IsBlank(rest[0]))
  {
    var j := RunEnd(s, 0, false);
    f, rest := s[..j], s[j..];
  }

  lemma BlankNothing()
    ensures AllBlank("")
  {
  }

  // ---------------------------------------------------------------- schedules are written without letters

  lemma ScheduleAlphabet(ps: seq<Piece>)
    requires |ps| == 5 && AllFields(ps) && ParseSchedule(Texts(ps)).Some?
    ensures forall i :: 0 <= i < 5 ==>
              ps[i].text != ""
              && forall j :: 0 <= j < |ps[i].text| ==> FieldChar(ps[i].text[j])
  {
    hide ParseField, Covers;
    var f := Texts(ps);
    assert forall i :: 0 <= i < 5 ==> IsField(ps[i]) && f[i] == ps[i].text;
    FieldAlphabet(f[0], 0, 59);
    FieldAlphabet(f[1], 0, 23);
    FieldAlphabet(f[2], 1, 31);
    FieldAlphabet(f[3], 1, 12);
    FieldAlphabet(f[4], 0, 6);
  }

  lemma {:induction false} JoinWithoutC(ps: seq<Piece>)
    requires AllFields(ps)
    requires forall i :: 0 <= i < |ps| ==> forall j :: 0 <= j < |ps[i].text| ==> FieldChar(ps[i].text[j])
    ensures forall k :: 0 <= k < |Join(ps)| ==> Join(ps)[k] != 'c'
  {
    if ps != [] {
      assert forall i :: 0 <= i < |ps[1..]| ==> ps[1..][i] == ps[i + 1];
      JoinWithoutC(ps[1..]);
      assert IsField(ps[0]);
    }
  }

  lemma {:induction false} CurlIndexIs(a: string, rest: string)
    requires (forall k :: 0 <= k < |a| ==> a[k] != 'c') && CURL <= rest
    ensures CurlIndex(a + rest) == |a|
  {
    if a == "" {
      assert a + rest == rest;
    } else {
      assert (a + rest)[0] != 'c';
      assert (a + rest)[1..] == a[1..] + rest;
      CurlIndexIs(a[1..], rest);
    }
  }

  // ---------------------------------------------------------------- parsing a composed job

  /** The line is a job the scheduler can run. */
  predicate Runnable(l: Shape) { WellShaped(l) && ParseSchedule(Texts(l.fields)).Some? }

  function FlagsOf(l: Shape): string { if l.flags == [] then "" else JoinTrim(l.flags) }

  /** The schedule as it stands before the pads in front of the command. */
  function SpecOf(ps: seq<Piece>): string { TrimPadRight(Join(ps)) }

  function PartsOf(l: Shape): JobParts
    requires l.fields != []
  {
    JobParts(SpecOf(l.fields), l.url, FlagsOf(l), Join(l.fields)[|SpecOf(l.fields)|..])
  }

  lemma FlagTexts(ps: seq<Piece>)
    requires AllFlags(ps)
    ensures forall i :: 0 <= i < |ps| ==> ps[i].text != "" && NoBlank(ps[i].text) && Gap(ps[i].gap)
  {
    assert forall i :: 0 <= i < |ps| ==> IsFlag(ps[i]);
  }

  lemma FlagsTrimmed(l: Shape)
    requires WellShaped(l)
    ensures TrimSpace(Join(l.flags)) == FlagsOf(l)
    ensures FlagsOf(l) != "" <==> l.flags != []
    ensures TrimSpace(FlagsOf(l)) == FlagsOf(l)
  {
    hide TrimSpace, TrimRight, TrimLeft, AllFields, IsUrl, AllFlags, RunEnd;
    FlagTexts(l.flags);
    if l.flags == [] {
      TrimOfTrimmed("");
    } else {
      hide Join, JoinTrim;
      JoinTrimEnds(l.flags);
      JoinIsTrimAndGap(l.flags);
      TrimSpaceIs("", JoinTrim(l.flags), LastGap(l.flags));
      assert "" + JoinTrim(l.flags) + LastGap(l.flags) == Join(l.flags);
      TrimOfTrimmed(FlagsOf(l));
    }
  }

  /** The schedule is its fields, and what is left of the white space after the last of them once the
      pads are taken off. */
  lemma FieldsArePieces(ps: seq<Piece>)
    requires ps != [] && AllFields(ps)
    ensures (forall i :: 0 <= i < |ps| ==> ps[i].text != "" && NoBlank(ps[i].text)) && AllBlank(LastGap(ps))
  {
    hide NoBlank, AllBlank;
    assert forall i :: 0 <= i < |ps| ==> IsField(ps[i]);
  }

  lemma SpecParts(ps: seq<Piece>) returns (hard: string)
    requires ps != [] && AllFields(ps)
    ensures SpecOf(ps) == JoinTrim(ps) + hard && AllBlank(hard) && (hard != "" ==> !IsPad(hard[|hard| - 1]))
    ensures Join(ps) == SpecOf(ps) + Join(ps)[|SpecOf(ps)|..] && AllPad(Join(ps)[|SpecOf(ps)|..])
    ensures LastGap(ps) == hard + Join(ps)[|SpecOf(ps)|..]
    ensures JoinTrim(ps) != "" && !IsBlank(JoinTrim(ps)[0]) && !IsBlank(JoinTrim(ps)[|JoinTrim(ps)| - 1])
  {
    assert SpecOf(ps) == TrimPadRight(Join(ps));
    hide *;
    FieldsArePieces(ps);
    JoinTrimEnds(ps);
    JoinIsTrimAndGap(ps);
    hard := CutSpec(JoinTrim(ps), LastGap(ps));
  }

  lemma CutSpec(t: string, gap: string) returns (hard: string)
    requires t != "" && !IsBlank(t[|t| - 1]) && AllBlank(gap)
    ensures var s := TrimPadRight(t + gap); var pads := (t + gap)[|s|..];
            && s == t + hard && AllBlank(hard) && (hard != "" ==> !IsPad(hard[|hard| - 1]))
            && t + gap == s + pads && AllPad(pads) && gap == hard + pads
  {
    var s := TrimPadRight(t + gap);
    assert (t + gap)[|t| - 1] == t[|t| - 1];
    assert forall i :: |s| <= i < |t + gap| ==> IsPad((t + gap)[i]);
    assert s == (t + gap)[..|s|] && |s| >= |t| && (|s| > |t| ==> !IsPad((t + gap)[|s| - 1]));
    var m := |s| - |t|;
    hide *;
    PadsFrom(t + gap, |s|);
    BlankPrefix(gap, m);
    CutSum(t, gap, m);
    hard := gap[..m];
  }

  lemma BlankPrefix(gap: string, m: nat)
    requires m <= |gap| && AllBlank(gap)
    ensures AllBlank(gap[..m])
  {
  }

  lemma PadsFrom(s: string, n: nat)
    requires n <= |s| && forall i :: n <= i < |s| ==> IsPad(s[i])
    ensures AllPad(s[n..])
  {
  }

  lemma CutSum(t: string, gap: string, m: nat)
    requires m <= |gap|
    ensures (t + gap)[..|t| + m] == t + gap[..m] && (t + gap)[|t| + m..] == gap[m..] && gap == gap[..m] + gap[m..]
    ensures t + gap == t + gap[..m] + gap[m..] && (m > 0 ==> (t + gap)[|t| + m - 1] == gap[..m][m - 1])
  {
  }

  lemma SpecTrimmed(l: Shape)
    requires WellShaped(l)
    ensures TrimPadRight(TrimPadLeft(SpecOf(l.fields))) == SpecOf(l.fields) != ""
    ensures TrimSpace(SpecOf(l.fields)) == JoinTrim(l.fields)
    ensures Join(l.fields) == SpecOf(l.fields) + PartsOf(l).gap && AllPad(PartsOf(l).gap) && |Join(l.fields)| > 0
  {
    var hard := SpecParts(l.fields);
    var t := JoinTrim(l.fields);
    hide Join, JoinTrim, TrimPadRight, TrimPadLeft, TrimSpace;
    TrimPadsOff(t + hard);
    TrimSpaceIs("", t, hard);
    Regroup("", t, hard);
  }

  lemma ParseComposed(l: Shape)
    requires Runnable(l)
    ensures ParseJobLine(Compose(l)) == Some(PartsOf(l))
  {
    hide MatchJob, ParseSchedule, TrimSpace, TrimPadRight, Join, JoinTrim, AllFields, AllFlags;
    MatchJobExact(Compose(l), l);
    ScheduleAlphabet(l.fields);
    JoinWithoutC(l.fields);
    var command := CURL + (l.curlGap + (Join(l.flags) + ([l.open] + (l.url + ([l.close] + l.tail)))));
    CurlIndexIs(Join(l.fields), command);
    SpecTrimmed(l);
    FlagsTrimmed(l);
    assert Compose(l)[..|Join(l.fields)|] == Join(l.fields);
  }

  lemma ParseJobLineMeans(s: string) returns (l: Shape)
    requires ParseJobLine(s).Some?
    ensures Runnable(l) && l.fields != [] && s == Compose(l) && ParseJobLine(s) == Some(PartsOf(l))
  {
    hide MatchJob, Compose;
    l := MatchJob(s).value;
    MatchJobExact(s, l);
    ParseComposed(l);
  }

  // ---------------------------------------------------------------- printing

  function OneSpaceAfterLast(ps: seq<Piece>): seq<Piece> {
    if ps == [] then [] else ps[|ps| - 1 := Piece(ps[|ps| - 1].text, " ")]
  }

  /** A job without pads before its command gets the usual four. */
  function Gapped(j: JobParts): JobParts { if j.gap == "" then j.(gap := DEFAULT_GAP) else j }

  function PrintedFields(ps: seq<Piece>): seq<Piece>
    requires ps != []
  {
    if SpecOf(ps) == Join(ps) then ps[|ps| - 1 := Piece(ps[|ps| - 1].text, LastGap(ps) + DEFAULT_GAP)] else ps
  }

  /** The job as it is printed: one blank before the flags and before the URL, double quotes,
      nothing after them. */
  function Printed(l: Shape): Shape
    requires l.fields != []
  {
    Shape(PrintedFields(l.fields), " ", OneSpaceAfterLast(l.flags), '"', l.url, '"', "")
  }

  lemma {:induction false} JoinTrimIgnoresLastGap(ps: seq<Piece>, gap: string)
    requires ps != []
    ensures JoinTrim(ps[|ps| - 1 := Piece(ps[|ps| - 1].text, gap)]) == JoinTrim(ps)
  {
    if |ps| > 1 {
      var qs := ps[|ps| - 1 := Piece(ps[|ps| - 1].text, gap)];
      JoinTrimIgnoresLastGap(ps[1..], gap);
      assert qs[1..] == ps[1..][|ps[1..]| - 1 := Piece(ps[1..][|ps[1..]| - 1].text, gap)];
    }
  }

  lemma PrintedFieldsAre(ps: seq<Piece>)
    requires ps != [] && AllFields(ps)
    ensures var qs := PrintedFields(ps); var gap := Join(ps)[|SpecOf(ps)|..];
            && |qs| == |ps| && AllFields(qs) && Texts(qs) == Texts(ps) && JoinTrim(qs) == JoinTrim(ps)
            && Join(qs) == SpecOf(ps) + (if gap == "" then DEFAULT_GAP else gap)
            && SpecOf(qs) == SpecOf(ps) && Join(qs)[|SpecOf(qs)|..] == (if gap == "" then DEFAULT_GAP else gap)
            && PrintedFields(qs) == qs
  {
    var hard := SpecParts(ps);
    var gap := Join(ps)[|SpecOf(ps)|..];
    assert forall i :: 0 <= i < |ps| ==> IsField(ps[i]);
    if SpecOf(ps) == Join(ps) {
      var qs := PrintedFields(ps);
      JoinTrimIgnoresLastGap(ps, LastGap(ps) + DEFAULT_GAP);
      JoinIsTrimAndGap(ps);
      JoinIsTrimAndGap(qs);
      WiderGap(ps);
      hide Join, JoinTrim, TrimPadRight;
      assert Join(qs) == SpecOf(ps) + DEFAULT_GAP by { Regroup(JoinTrim(ps), LastGap(ps), DEFAULT_GAP); }
      TrimPadRightIs(Join(qs), SpecOf(ps));
      assert Join(qs)[|SpecOf(qs)|..] == DEFAULT_GAP;
    } else {
      hide Join, JoinTrim, TrimPadRight;
    }
  }

  lemma WiderGap(ps: seq<Piece>)
    requires ps != [] && AllFields(ps)
    ensures var qs := ps[|ps| - 1 := Piece(ps[|ps| - 1].text, LastGap(ps) + DEFAULT_GAP)];
            AllFields(qs) && Texts(qs) == Texts(ps) && LastGap(qs) == LastGap(ps) + DEFAULT_GAP
  {
    var qs := ps[|ps| - 1 := Piece(ps[|ps| - 1].text, LastGap(ps) + DEFAULT_GAP)];
    var g := LastGap(ps);
    assert IsField(ps[|ps| - 1]);
    assert forall i :: 0 <= i < |g + DEFAULT_GAP| ==> (g + DEFAULT_GAP)[i] == if i < |g| then g[i] else ' ';
    forall i | 0 <= i < |qs| ensures IsField(qs[i]) {
      assert IsField(ps[i]);
    }
  }

  lemma PrintedFlags(l: Shape)
    requires WellShaped(l)
    ensures AllFlags(Printed(l).flags) && FlagsOf(Printed(l)) == FlagsOf(l)
    ensures " " + Join(Printed(l).flags) == (if FlagsOf(l) != "" then " " + FlagsOf(l) else "") + " "
  {
    hide PrintedFields;
    FlagsTrimmed(l);
    if l.flags != [] {
      JoinTrimIgnoresLastGap(l.flags, " ");
      JoinIsTrimAndGap(Printed(l).flags);
    }
  }

  lemma PrintedTwice(l: Shape)
    requires l.fields != [] && AllFields(l.fields)
    ensures PrintedFields(l.fields) != [] && Printed(Printed(l)) == Printed(l)
  {
    PrintedFieldsAre(l.fields);
    hide PrintedFields;
    assert OneSpaceAfterLast(OneSpaceAfterLast(l.flags)) == OneSpaceAfterLast(l.flags);
  }

  lemma PartsAre(l: Shape, spec: string, gap: string)
    requires l.fields != [] && SpecOf(l.fields) == spec && Join(l.fields)[|spec|..] == gap
    ensures PartsOf(l) == JobParts(spec, l.url, FlagsOf(l), gap)
  {
  }

  lemma PrintedShape(l: Shape)
    requires l.fields != []
    ensures Printed(l).fields == PrintedFields(l.fields) && Printed(l).url == l.url
    ensures WellShaped(l) && |PrintedFields(l.fields)| == 5 && AllFields(PrintedFields(l.fields))
            && AllFlags(Printed(l).flags)
            ==> WellShaped(Printed(l))
  {
    hide PrintedFields, OneSpaceAfterLast, AllFields, AllFlags;
  }

  lemma PrintedIsRunnable(l: Shape)
    requires Runnable(l)
    ensures Runnable(Printed(l)) && Printed(l).fields != [] && PartsOf(Printed(l)) == Gapped(PartsOf(l))
    ensures Printed(Printed(l)) == Printed(l)
  {
    assert l.fields != [] && |l.fields| == 5 && AllFields(l.fields) && WellShaped(l);
    assert ParseSchedule(Texts(l.fields)).Some?;
    hide ParseSchedule, Join, JoinTrim, PrintedFields, SpecOf, AllFields, AllFlags, OneSpaceAfterLast, FlagsOf,
         WellShaped;
    hide PartsOf, Texts, Printed;
    var spec, gap := SpecOf(l.fields), Join(l.fields)[|SpecOf(l.fields)|..];
    PrintedFieldsAre(l.fields);
    PrintedFlags(l);
    PrintedTwice(l);
    PrintedShape(l);
    PartsAre(l, spec, gap);
    PartsAre(Printed(l), spec, if gap == "" then DEFAULT_GAP else gap);
  }

  /** The printed body, taken apart the way a job line is. */
  lemma BodyRegrouped(spec: string, gap: string, mid: string, flags: string, url: string)
    requires " " + flags == mid + " "
    ensures spec + gap + CURL + mid + " \"" + url + "\""
         == (spec + gap) + (CURL + (" " + (flags + (['"'] + (url + (['"'] + ""))))))
  {
    var tail := url + "\"";
    assert mid + (" \"" + tail) == (mid + " ") + ("\"" + tail);
    assert (" " + flags) + ("\"" + tail) == " " + (flags + ("\"" + tail));
    assert spec + gap + CURL + mid + " \"" + url + "\"" == (spec + gap) + (CURL + (mid + (" \"" + tail)));
    assert ['"'] + (url + (['"'] + "")) == "\"" + tail;
  }

  lemma RenderComposes(l: Shape)
    requires Runnable(l)
    ensures l.fields != [] && RenderBody(PartsOf(l)) == Compose(Printed(l))
  {
    SpecTrimmed(l);
    FlagsTrimmed(l);
    PrintedFlags(l);
    PrintedFieldsAre(l.fields);
    hide ParseSchedule, Join, JoinTrim, TrimPadRight, TrimPadLeft, TrimSpace, AllFields, AllFlags, SpecOf,
         PrintedFields;
    hide OneSpaceAfterLast;
    var spec, gap, flags := SpecOf(l.fields), Gapped(PartsOf(l)).gap, FlagsOf(l);
    BodyRegrouped(spec, gap, if flags != "" then " " + flags else "", Join(Printed(l).flags), l.url);
  }

  /** Printing the parts of a job and parsing the line again gives the same parts, with pads before the
      command if there were none. */
  lemma RenderedBodyParses(l: Shape)
    requires Runnable(l)
    ensures ParseJobLine(RenderBody(PartsOf(l))) == Some(Gapped(PartsOf(l)))
  {
    hide *;
    RenderComposes(l);
    PrintedIsRunnable(l);
    ParseComposed(Printed(l));
  }
}
