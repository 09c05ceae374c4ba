/** Saving the crontab from the editor (ValidateCrontabEntries and WriteCrontabEntries in
    background/crontabfile.go).

    What is refused, what is written, and that the scheduler then runs what was entered. */
module CrontabWrite {
  import opened Options
  import opened Blanks
  import opened CronField
  import opened CronSchedule
  import opened JobLine
  import opened Crontab
  import opened CrontabLaws

  /** What can be wrong with an entry. */
  datatype Complaint =
    | LineBreak | NotFiveFields(got: nat) | BadSchedule | EmptyUrl | UrlCharacters | UrlStart | NotAFlag(part: string)

  predicate HasAny(s: string, chars: string) { exists i :: 0 <= i < |s| && s[i] in chars }

  predicate AddressStart(u: string) { "http://" <= u || "https://" <= u || "/" <= u }

  function SpecComplaints(spec: string): seq<Complaint> {
    var fields := Fields(TrimSpace(spec));
    if |fields| != 5 then [NotFiveFields(|fields|)]
    else if ParseSchedule(fields).None? then [BadSchedule]
    else []
  }

  function UrlComplaints(url: string): seq<Complaint> {
    var u := TrimSpace(url);
    if u == "" then [EmptyUrl]
    else if HasAny(u, "\"'\n\r \t") then [UrlCharacters]
    else if !AddressStart(u) then [UrlStart]
    else []
  }

  predicate FlagLike(part: string) { "-" <= part && !HasAny(part, "\"'") }

  function FlagComplaints(parts: seq<string>): seq<Complaint> {
    if parts == [] then []
    else FlagComplaints(parts[..|parts| - 1]) + if FlagLike(parts[|parts| - 1]) then []
        else [NotAFlag(parts[|parts| - 1])]
  }

  function Complaints(e: CrontabEntry): seq<Complaint> {
    match e
    case Text(_, text) => if HasAny(text, "\n\r") then [LineBreak] else []
    case Job(_, spec, url, flags, _, _, _) =>
      SpecComplaints(spec) + UrlComplaints(url) + FlagComplaints(Fields(TrimSpace(flags)))
  }

  function AllComplaints(es: seq<CrontabEntry>): seq<Complaint> {
    if es == [] then [] else AllComplaints(es[..|es| - 1]) + Complaints(es[|es| - 1])
  }

  function CountJobs(es: seq<CrontabEntry>): nat {
    if es == [] then 0 else CountJobs(es[..|es| - 1]) + if es[|es| - 1].Job? then 1 else 0
  }

  method CheckFlags(parts: seq<string>) returns (errs: seq<Complaint>)
    ensures errs == FlagComplaints(parts)
  {
    errs := [];
    for k := 0 to |parts|
      invariant errs == FlagComplaints(parts[..k])
    {
      assert parts[..k + 1][..k] == parts[..k];
      if !FlagLike(parts[k]) {
        errs := errs + [NotAFlag(parts[k])];
      }
    }
    assert parts[..|parts|] == parts;
  }

  method ValidateCrontabEntries(entries: seq<CrontabEntry>) returns (errs: seq<Complaint>)
    ensures errs == AllComplaints(entries)
  {
    errs := [];
    hide Fields, TrimSpace, ParseSchedule, FlagComplaints, HasAny, SpecComplaints, UrlComplaints;
    for i := 0 to |entries|
      invariant errs == AllComplaints(entries[..i])
    {
      assert entries[..i + 1][..i] == entries[..i];
      var e := entries[i];
      if e.Text? {
        errs := errs + if HasAny(e.text, "\n\r") then [LineBreak] else [];
      } else {
        var flagErrs := CheckFlags(Fields(TrimSpace(e.flags)));
        errs := errs + (SpecComplaints(e.spec) + UrlComplaints(e.url) + flagErrs);
      }
    }
    assert entries[..|entries|] == entries;
  }

  method CountEntries(entries: seq<CrontabEntry>) returns (n: nat)
    ensures n == CountJobs(entries)
  {
    n := 0;
    for i := 0 to |entries|
      invariant n == CountJobs(entries[..i])
    {
      assert entries[..i + 1][..i] == entries[..i];
      if entries[i].Job? {
        n := n + 1;
      }
    }
    assert entries[..|entries|] == entries;
  }

  /** Nothing is written when an entry is wrong, or when the file would hold another number of jobs. */
  method WriteCrontabEntries(entries: seq<CrontabEntry>) returns (written: Option<string>)
    ensures written.Some? <==> AllComplaints(entries) == []
                               && CountJobs(ParseLines(Lines(RenderLines(entries)))) == CountJobs(entries)
    ensures written.Some? ==> written.value == RenderLines(entries)
  {
    hide *;
    var errs := ValidateCrontabEntries(entries);
    if errs != [] {
      return None;
    }
    var body := RenderCrontabEntries(entries);
    var back := ParseCrontabEntries(body);
    var got := CountEntries(back);
    var want := CountEntries(entries);
    if got != want {
      return None;
    }
    written := Some(body);
  }

  // ---------------------------------------------------------------- an accepted job reads back

  predicate Trimmed(s: string) { s != "" && !IsBlank(s[0]) && !IsBlank(s[|s| - 1]) }

  /** The first field of a trimmed string, the blanks after it, and the rest. */
  lemma CutField(s: string) returns (f: string, gap: string, tail: string)
    requires Trimmed(s)
    ensures s == f + gap + tail && f != "" && NoBlank(f)
            && (if tail == "" then gap == "" else Gap(gap) && Trimmed(tail))
    ensures Fields(s) == [f] + if tail == "" then [] else Fields(tail)
  {
    hide Fields, RunEnd;
    var j := RunEnd(s, 0, false);
    assert j > 0;
    f := s[..j];
    var rest := s[j..];
    FieldsStep("", f, rest);
    assert "" + f + rest == s;
    var k := RunEnd(rest, 0, true);
    gap, tail := rest[..k], rest[k..];
    assert rest == gap + tail;
    if rest == "" {
      FieldsOfBlanks(rest);
    } else {
      assert rest[|rest| - 1] == s[|s| - 1];
      FieldsSkipBlanks(gap, tail);
    }
  }

  /** The pieces of a trimmed string, with a last gap of our own. */
  lemma {:induction false} PiecesOf(s: string, last: string) returns (ps: seq<Piece>)
    requires Trimmed(s) && Gap(last)
    ensures ps != [] && JoinTrim(ps) == s && Texts(ps) == Fields(s) && AllFields(ps) && LastGap(ps) == last
    decreases |s|
  {
    hide Fields;
    var f, gap, tail := CutField(s);
    if tail == "" {
      ps := [Piece(f, last)];
      assert Texts(ps) == [f];
    } else {
      var more := PiecesOf(tail, last);
      ps := [Piece(f, gap)] + more;
      assert ps[1..] == more;
      assert Texts(ps) == [f] + Texts(more);
    }
  }

  /** Flags the job pattern knows: a dash and letters. */
  predicate LetterFlag(part: string) {
    |part| >= 2 && part[0] == '-' && forall i :: 1 <= i < |part| ==> IsLetter(part[i])
  }

  predicate LetterFlags(flags: string) { forall p :: p in Fields(TrimSpace(flags)) ==> LetterFlag(p) }

  lemma TrimmedEnds(s: string)
    ensures TrimSpace(s) != "" ==> Trimmed(TrimSpace(s))
    ensures TrimSpace(TrimSpace(s)) == TrimSpace(s)
  {
    var a, b := TrimSpaceParts(s);
    TrimOfTrimmed(TrimSpace(s));
  }

  function GapOf(e: CrontabEntry): string
    requires e.Job?
  {
    if e.gap == "" then DEFAULT_GAP else e.gap
  }

  /** The schedule as it is printed: pads taken off both ends, other white space not. */
  function PrintedSpec(spec: string): string { TrimPadRight(TrimPadLeft(spec)) }

  /** The entry as it will be read back: no white space around the flags, none before the schedule and no
      pads after it. */
  function Tidied(e: CrontabEntry): CrontabEntry
    requires e.Job?
  {
    Job(e.line, TrimLeft(PrintedSpec(e.spec)), e.url, TrimSpace(e.flags), e.disabled, e.indent, GapOf(e))
  }

  lemma LastChar(a: string, b: string)
    requires b != ""
    ensures (a + b)[|a + b| - 1] == b[|b| - 1]
  {
  }

  lemma PadsOffFront(a: string, core: string, b: string) returns (w: string)
    requires AllBlank(a) && Trimmed(core)
    ensures TrimPadLeft(a + core + b) == w + core + b && AllBlank(w) && (w != "" ==> !IsPad(w[0]))
  {
    var n := Pads(a);
    w := a[n..];
    var s := a + core + b;
    assert forall k :: 0 <= k < |a| ==> s[k] == a[k];
    assert n == |a| ==> s[n] == core[0];
    PadsIs(s, n);
    assert s[n..] == w + core + b;
  }

  /** The printed schedule: its fields as they stand, with white space that is no pad at either end. */
  lemma SpecCut(spec: string) returns (w: string, hard: string)
    requires TrimSpace(spec) != ""
    ensures PrintedSpec(spec) == w + TrimSpace(spec) + hard && TrimLeft(PrintedSpec(spec)) == TrimSpace(spec) + hard
    ensures AllBlank(w) && (w != "" ==> !IsPad(w[0])) && AllBlank(hard) && (hard != "" ==> !IsPad(hard[|hard| - 1]))
  {
    var a, b := TrimSpaceParts(spec);
    var core := TrimSpace(spec);
    hide TrimSpace, TrimLeft, TrimPadLeft, TrimPadRight, AllBlank;
    w := PadsOffFront(a, core, b);
    LastChar(w, core);
    hard := CutSpec(w + core, b);
    Regroup(w, core, hard);
    LeftOff(w, core, hard);
  }

  lemma LeftOff(w: string, core: string, hard: string)
    requires AllBlank(w) && Trimmed(core)
    ensures TrimLeft(w + core + hard) == core + hard
  {
    var s := w + core + hard;
    assert forall k :: 0 <= k < |w| ==> s[k] == w[k];
    assert s[|w|] == core[0];
    TrimLeftIs(s, |w|);
    assert s[|w|..] == core + hard;
  }

  lemma UrlIsUrl(url: string)
    requires UrlComplaints(url) == []
    ensures IsUrl(url)
  {
    var a, b := TrimSpaceParts(url);
    var u := TrimSpace(url);
    assert TrimSpace("") == "";
    hide TrimSpace;
    forall i | 0 <= i < |url| ensures !IsQuote(url[i]) {
      assert forall k :: 0 <= k < |u| ==> u[k] !in "\"'\n\r \t";
      if |a| <= i < |a| + |u| {
        assert url[i] == u[i - |a|];
      } else if i < |a| {
        assert url[i] == a[i];
      } else {
        assert url[i] == b[i - |a| - |u|];
      }
    }
  }

  lemma FlagPieces(flags: string) returns (ps: seq<Piece>)
    requires LetterFlags(flags)
    ensures AllFlags(ps) && (if ps == [] then "" else JoinTrim(ps)) == TrimSpace(flags)
    ensures " " + Join(ps) == (if TrimSpace(flags) != "" then " " + TrimSpace(flags) else "") + " "
  {
    TrimmedEnds(flags);
    var f := TrimSpace(flags);
    assert forall p :: p in Fields(f) ==> LetterFlag(p);
    hide TrimSpace, Fields, LetterFlags;
    ps := [];
    if f != "" {
      ps := PiecesOf(f, " ");
      forall i | 0 <= i < |ps| ensures IsFlag(ps[i]) {
        assert Texts(ps)[i] in Fields(f);
        assert IsField(ps[i]);
      }
      JoinIsTrimAndGap(ps);
      hide Join, JoinTrim;
      Regroup(" ", f, " ");
    }
  }

  function JobShape(fields: seq<Piece>, flags: seq<Piece>, url: string): Shape {
    Shape(fields, " ", flags, '"', url, '"', "")
  }

  lemma JobShapeRuns(fields: seq<Piece>, flags: seq<Piece>, url: string)
    requires |fields| == 5 && AllFields(fields) && AllFlags(flags) && IsUrl(url) && ParseSchedule(Texts(fields)).Some?
    ensures var l := JobShape(fields, flags, url);
            Runnable(l) && l.fields == fields && l.url == url && l.tail == "" && FlagsOf(l) == if flags == [] then ""
                else JoinTrim(flags)
  {
    hide ParseSchedule, JoinTrim, AllFields, AllFlags, IsUrl, Texts;
  }

  lemma FivePieces(spec: string, last: string) returns (ps: seq<Piece>)
    requires SpecComplaints(spec) == [] && Gap(last)
    ensures |ps| == 5 && AllFields(ps) && JoinTrim(ps) == TrimSpace(spec) && LastGap(ps) == last
            && ParseSchedule(Texts(ps)).Some? && TrimSpace(spec) != ""
  {
    TrimmedEnds(spec);
    var s := TrimSpace(spec);
    assert |Fields(s)| == 5 && ParseSchedule(Fields(s)).Some?;
    hide TrimSpace, ParseSchedule, SpecComplaints;
    FieldsOfBlanks("");
    hide Fields;
    ps := PiecesOf(s, last);
    assert |Texts(ps)| == 5;
  }

  /** What stands in front of the command: the fields as they were entered, and the gap. */
  lemma SpecPieces(spec: string, gap: string) returns (ps: seq<Piece>, w: string)
    requires SpecComplaints(spec) == [] && AllPad(gap) && gap != ""
    ensures |ps| == 5 && AllFields(ps) && ParseSchedule(Texts(ps)).Some?
    ensures AllBlank(w) && (w != "" ==> !IsPad(w[0])) && PrintedSpec(spec) + gap == w + Join(ps)
    ensures SpecOf(ps) == TrimLeft(PrintedSpec(spec)) && Join(ps)[|SpecOf(ps)|..] == gap
  {
    hide *;
    SpecNotBlank(spec);
    var core := TrimSpace(spec);
    var hard;
    w, hard := SpecCut(spec);
    GapAfter(hard, gap);
    ps := FivePieces(spec, hard + gap);
    SpecEnd(spec, hard);
    JoinIsTrimAndGap(ps);
    PadsAfter(core + hard, gap);
    Regroup(core, hard, gap);
    Regroup(w, core, hard);
    Regroup(w, core + hard, gap);
    SpecOfIs(ps, core + hard + gap);
  }

  lemma SpecNotBlank(spec: string)
    requires SpecComplaints(spec) == []
    ensures TrimSpace(spec) != ""
  {
    FieldsOfBlanks("");
  }

  lemma SpecEnd(spec: string, hard: string)
    requires TrimSpace(spec) != "" && (hard != "" ==> !IsPad(hard[|hard| - 1]))
    ensures var s := TrimSpace(spec) + hard; s != "" && !IsPad(s[|s| - 1])
  {
    TrimmedEnds(spec);
  }

  lemma SpecOfIs(ps: seq<Piece>, whole: string)
    requires Join(ps) == whole
    ensures SpecOf(ps) == TrimPadRight(whole)
  {
  }

  lemma GapAfter(hard: string, gap: string)
    requires AllBlank(hard) && AllPad(gap) && gap != ""
    ensures Gap(hard + gap)
  {
  }

  lemma PadsAfter(s: string, gap: string)
    requires s != "" && !IsPad(s[|s| - 1]) && AllPad(gap)
    ensures TrimPadRight(s + gap) == s && (s + gap)[|s|..] == gap
  {
    assert forall i :: |s| <= i < |s + gap| ==> (s + gap)[i] == gap[i - |s|];
    TrimPadRightIs(s + gap, s);
  }

  lemma GapIsGap(e: CrontabEntry)
    requires e.Job? && AllPad(e.gap)
    ensures AllPad(GapOf(e)) && GapOf(e) != ""
  {
  }

  lemma AcceptedParts(e: CrontabEntry)
    requires e.Job? && Complaints(e) == []
    ensures SpecComplaints(e.spec) == [] && UrlComplaints(e.url) == []
  {
    hide SpecComplaints, UrlComplaints, FlagComplaints, Fields, TrimSpace;
  }

  /** The printed entry: after the prefix and the indent white space that is no pad, and then the body. */
  lemma BodyIs(e: CrontabEntry) returns (fields: seq<Piece>, w: string)
    requires e.Job? && SpecComplaints(e.spec) == [] && AllPad(e.gap)
    ensures |fields| == 5 && AllFields(fields) && ParseSchedule(Texts(fields)).Some?
    ensures SpecOf(fields) == TrimLeft(PrintedSpec(e.spec)) && Join(fields)[|SpecOf(fields)|..] == GapOf(e)
    ensures AllBlank(w) && (w != "" ==> !IsPad(w[0]))
    ensures RenderLine(e) == (if e.disabled then "# " else "") + e.indent + w
                             + (Join(fields) + (CURL + AfterCurl(TrimSpace(e.flags), e.url)))
  {
    hide *;
    GapIsGap(e);
    fields, w := SpecPieces(e.spec, GapOf(e));
    RenderLineIs(e);
    var prefix, command := (if e.disabled then "# " else "") + e.indent, CURL + AfterCurl(TrimSpace(e.flags), e.url);
    Regroup(w, Join(fields), command);
    Regroup(prefix, w, Join(fields) + command);
  }

  lemma RenderLineIs(e: CrontabEntry)
    requires e.Job?
    ensures RenderLine(e) == (if e.disabled then "# " else "") + e.indent
                             + (PrintedSpec(e.spec) + GapOf(e) + (CURL + AfterCurl(TrimSpace(e.flags), e.url)))
  {
    hide TrimPadLeft, TrimPadRight, TrimSpace;
    var f, head := TrimSpace(e.flags), PrintedSpec(e.spec) + GapOf(e);
    var mid := if f != "" then " " + f else "";
    hide PrintedSpec;
    AfterHead(head, mid, e.url);
  }

  lemma AfterHead(head: string, mid: string, url: string)
    ensures head + CURL + mid + " \"" + url + "\"" == head + (CURL + (mid + " \"" + url + "\""))
  {
  }

  /** A job that is not complained of, whose flags are dashes and letters and whose indent and gap are
      pads, is read back as it was entered. */
  lemma AcceptedJobReadsBack(e: CrontabEntry, n: nat)
    requires e.Job? && Complaints(e) == [] && LetterFlags(e.flags) && AllPad(e.gap) && AllPad(e.indent)
    ensures ParseLine(n, RenderLine(e)) == Reread(Tidied(e), n)
  {
    hide *;
    AcceptedParts(e);
    UrlIsUrl(e.url);
    var fields, w := BodyIs(e);
    var flags := FlagPieces(e.flags);
    JobShapeRuns(fields, flags, e.url);
    var l := JobShape(fields, flags, e.url);
    ShapeComposes(fields, flags, e.url, TrimSpace(e.flags));
    ComposedEnds(l);
    ParseComposed(l);
    ParsePlacedBody(n, e.indent, w, Compose(l), e.disabled);
    PartsAre(l, TrimLeft(PrintedSpec(e.spec)), GapOf(e));
    GapIsGap(e);
    TidiedIs(e, l, n);
  }

  lemma TidiedIs(e: CrontabEntry, l: Shape, n: nat)
    requires e.Job? && GapOf(e) != "" && l.fields != []
    requires PartsOf(l) == JobParts(TrimLeft(PrintedSpec(e.spec)), e.url, TrimSpace(e.flags), GapOf(e))
    ensures JobEntry(n, PartsOf(l), e.disabled, if e.disabled then "" else e.indent) == Reread(Tidied(e), n)
  {
    hide PartsOf, PrintedSpec, TrimLeft, TrimSpace, GapOf;
  }

  lemma ShapeComposes(fields: seq<Piece>, flags: seq<Piece>, url: string, f: string)
    requires " " + Join(flags) == (if f != "" then " " + f else "") + " "
    ensures Compose(JobShape(fields, flags, url)) == Join(fields) + (CURL + AfterCurl(f, url))
  {
    hide Join;
    var mid := if f != "" then " " + f else "";
    assert mid + (" \"" + (url + "\"")) == (mid + " ") + ("\"" + (url + "\""));
    assert (" " + Join(flags)) + ("\"" + (url + "\"")) == " " + (Join(flags) + ("\"" + (url + "\"")));
    assert ['"'] + (url + (['"'] + "")) == "\"" + (url + "\"");
    assert AfterCurl(f, url) == mid + (" \"" + (url + "\""));
  }

  // ---------------------------------------------------------------- and no other does

  lemma {:induction false} FlagLikeParts(parts: seq<string>, p: string)
    requires FlagComplaints(parts) == [] && p in parts
    ensures FlagLike(p)
  {
    var n := |parts| - 1;
    if p != parts[n] {
      FlagLikeParts(parts[..n], p);
    }
  }

  predicate NoQuote(s: string) { forall i :: 0 <= i < |s| ==> !IsQuote(s[i]) }

  lemma {:induction false} JoinNoQuote(ps: seq<Piece>)
    requires forall i :: 0 <= i < |ps| ==> NoQuote(ps[i].text) && AllBlank(ps[i].gap)
    ensures NoQuote(Join(ps))
  {
    if ps != [] {
      assert forall i :: 0 <= i < |ps[1..]| ==> ps[1..][i] == ps[i + 1];
      JoinNoQuote(ps[1..]);
    }
  }

  /** Flags that are not complained of hold no quotes. */
  lemma FlagsNoQuote(flags: string)
    requires FlagComplaints(Fields(TrimSpace(flags))) == []
    ensures NoQuote(TrimSpace(flags))
  {
    var f := TrimSpace(flags);
    TrimmedEnds(flags);
    hide TrimSpace, Fields, FlagComplaints, Join, JoinTrim;
    if f != "" {
      var ps := PiecesOf(f, " ");
      forall i | 0 <= i < |ps| ensures NoQuote(ps[i].text) && AllBlank(ps[i].gap) {
        assert IsField(ps[i]) && Texts(ps)[i] == ps[i].text;
        FlagLikeParts(Fields(f), ps[i].text);
      }
      JoinNoQuote(ps);
      JoinIsTrimAndGap(ps);
      assert forall i :: 0 <= i < |f| ==> f[i] == Join(ps)[i];
    }
  }

  lemma FlagsNoQuoteJoin(ps: seq<Piece>)
    requires AllFlags(ps)
    ensures NoQuote(Join(ps))
  {
    hide Join;
    forall i | 0 <= i < |ps| ensures NoQuote(ps[i].text) && AllBlank(ps[i].gap) {
      assert IsFlag(ps[i]);
    }
    JoinNoQuote(ps);
  }

  /** What follows the name of the command in a printed job. */
  function AfterCurl(f: string, url: string): string { (if f != "" then " " + f else "") + " \"" + url + "\"" }

  /** ... and in a line read as a job. */
  function CommandOf(l: Shape): string { l.curlGap + (Join(l.flags) + ([l.open] + (l.url + ([l.close] + l.tail)))) }

  /** Neither the fields nor the blanks around them hold the first letter of the command, so it stands at
      the same place in both readings. */
  lemma SameCommand(fields: seq<Piece>, after: string, l: Shape)
    requires |fields| == 5 && AllFields(fields) && ParseSchedule(Texts(fields)).Some? && Runnable(l)
    requires Join(fields) + (CURL + after) == Compose(l)
    ensures after == CommandOf(l)
  {
    hide Join, ParseSchedule, AllFields;
    ScheduleAlphabet(fields);
    JoinWithoutC(fields);
    ScheduleAlphabet(l.fields);
    JoinWithoutC(l.fields);
    CurlIndexIs(Join(fields), CURL + after);
    CurlIndexIs(Join(l.fields), CURL + CommandOf(l));
    SameTail(Join(fields), CURL + after, Join(l.fields), CURL + CommandOf(l));
    SameTail(CURL, after, CURL, CommandOf(l));
  }

  lemma SameTail(a: string, x: string, b: string, y: string)
    requires a + x == b + y && |a| == |b|
    ensures a == b && x == y
  {
    assert a == (a + x)[..|a|] && b == (b + y)[..|b|];
    assert x == (a + x)[|a|..] && y == (b + y)[|b|..];
  }

  /** Both readings have their first quote at the same place, and before it stand the flags. */
  lemma SameFlags(f: string, url: string, l: Shape)
    requires Trimmed(f) && NoQuote(f) && WellShaped(l) && AfterCurl(f, url) == CommandOf(l)
    ensures l.flags != [] && JoinTrim(l.flags) == f
  {
    hide Join, JoinTrim, AllFields, IsUrl, QuoteIndex;
    FlagsNoQuoteJoin(l.flags);
    var url1, url2 := "\"" + url + "\"", [l.open] + (l.url + ([l.close] + l.tail));
    assert AfterCurl(f, url) == (" " + f + " ") + url1;
    assert CommandOf(l) == (l.curlGap + Join(l.flags)) + url2;
    QuoteIndexIs((" " + f + " ") + url1, |" " + f + " "|);
    QuoteIndexIs((l.curlGap + Join(l.flags)) + url2, |l.curlGap + Join(l.flags)|);
    SameTail(" " + f + " ", url1, l.curlGap + Join(l.flags), url2);
    SameMiddle(f, l);
  }

  lemma SameMiddle(f: string, l: Shape)
    requires Trimmed(f) && WellShaped(l) && " " + f + " " == l.curlGap + Join(l.flags)
    ensures l.flags != [] && JoinTrim(l.flags) == f
  {
    hide Join, JoinTrim, TrimRight, TrimLeft, AllFields;
    var whole := " " + f + " ";
    TrimSpaceIs(" ", f, " ");
    FlagsTrimmed(l);
    FlagTexts(l.flags);
    JoinNothing("");
    NotBlank(f, l.curlGap);
    assert l.flags == [] ==> l.curlGap + Join(l.flags) == l.curlGap;
    JoinTrimEnds(l.flags);
    JoinIsTrimAndGap(l.flags);
    TrimSpaceIs(l.curlGap, JoinTrim(l.flags), LastGap(l.flags));
    assert l.curlGap + JoinTrim(l.flags) + LastGap(l.flags) == whole;
  }

  lemma NotBlank(f: string, gap: string)
    requires Trimmed(f) && AllBlank(gap)
    ensures " " + f + " " != gap
  {
    assert (" " + f + " ")[1] == f[0];
  }

  lemma FlagsAreLetters(ps: seq<Piece>, f: string)
    requires ps != [] && AllFlags(ps) && JoinTrim(ps) == f == TrimSpace(f)
    ensures LetterFlags(f)
  {
    hide Fields, JoinTrim, TrimSpace;
    forall i | 0 <= i < |ps| ensures IsField(ps[i]) && LetterFlag(ps[i].text) {
      assert IsFlag(ps[i]);
    }
    FieldsOfJoinTrim(ps, "");
    NoTail(f);
    forall p | p in Fields(f) ensures LetterFlag(p) {
      var i :| 0 <= i < |Texts(ps)| && Texts(ps)[i] == p;
    }
  }

  /** A printed body that is read as a job had flags that are dashes and letters. */
  lemma ReadBodyHasLetterFlags(e: CrontabEntry, fields: seq<Piece>)
    requires e.Job? && NoQuote(TrimSpace(e.flags)) && |fields| == 5 && AllFields(fields)
    requires ParseSchedule(Texts(fields)).Some?
    requires ParseJobLine(Join(fields) + (CURL + AfterCurl(TrimSpace(e.flags), e.url))).Some?
    ensures LetterFlags(e.flags)
  {
    var f := TrimSpace(e.flags);
    TrimmedEnds(e.flags);
    if f == "" {
      FieldsOfBlanks("");
    } else {
      hide *;
      var l := ParseJobLineMeans(Join(fields) + (CURL + AfterCurl(f, e.url)));
      SameCommand(fields, AfterCurl(f, e.url), l);
      RunnableMeans(l);
      SameFlags(f, e.url, l);
      FlagsAreLetters(l.flags, f);
      SameLetterFlags(e.flags);
    }
  }

  lemma RunnableMeans(l: Shape)
    requires Runnable(l)
    ensures WellShaped(l) && AllFlags(l.flags)
  {
  }

  lemma SameLetterFlags(flags: string)
    ensures LetterFlags(flags) <==> LetterFlags(TrimSpace(flags))
  {
    TrimmedEnds(flags);
  }

  /** The body of an entry that is not complained of begins with its schedule and ends with a quote. */
  lemma BodyEnds(fields: seq<Piece>, f: string, url: string)
    requires |fields| == 5 && AllFields(fields) && ParseSchedule(Texts(fields)).Some?
    ensures var s := Join(fields) + (CURL + AfterCurl(f, url));
            s != "" && !IsBlank(s[0]) && s[0] != '#' && !IsBlank(s[|s| - 1])
  {
    ScheduleAlphabet(fields);
    assert IsField(fields[0]);
    hide ParseSchedule, AllFields;
    var s := Join(fields) + (CURL + AfterCurl(f, url));
    assert s[0] == fields[0].text[0];
    assert s[|s| - 1] == AfterCurl(f, url)[|AfterCurl(f, url)| - 1] == '"';
  }

  lemma ReadAsJob(e: CrontabEntry, n: nat)
    requires e.Job? && Complaints(e) == [] && AllPad(e.gap) && AllPad(e.indent) && ParseLine(n, RenderLine(e)).Job?
    ensures LetterFlags(e.flags)
  {
    assert FlagComplaints(Fields(TrimSpace(e.flags))) == [];
    AcceptedParts(e);
    hide *;
    FlagsNoQuote(e.flags);
    var fields, w := BodyIs(e);
    BodyEnds(fields, TrimSpace(e.flags), e.url);
    ParsePlacedBody(n, e.indent, w, Join(fields) + (CURL + AfterCurl(TrimSpace(e.flags), e.url)), e.disabled);
    ReadBodyHasLetterFlags(e, fields);
  }

  /** Taken as one line, a job that is not complained of and whose indent and gap are pads is read back as
      it was entered when, and only when, its flags are dashes and letters; otherwise it is not read as a
      job at all. */
  lemma LineReadsBackIff(e: CrontabEntry, n: nat)
    requires e.Job? && Complaints(e) == [] && AllPad(e.gap) && AllPad(e.indent)
    ensures ParseLine(n, RenderLine(e)) == Reread(Tidied(e), n) <==> LetterFlags(e.flags)
    ensures ParseLine(n, RenderLine(e)).Job? <==> LetterFlags(e.flags)
  {
    assert Reread(Tidied(e), n).Job?;
    hide *;
    if LetterFlags(e.flags) {
      AcceptedJobReadsBack(e, n);
    }
    if ParseLine(n, RenderLine(e)).Job? {
      ReadAsJob(e, n);
    }
  }

  /** What is expected of the i-th line after a save. */
  function Expected(e: CrontabEntry, n: nat): CrontabEntry { if e.Job? then Reread(Tidied(e), n) else Text(n, e.text) }

  /** What the editor can send: it has no say over the indent and the gap of a job. */
  predicate Sent(e: CrontabEntry) { e.Job? ==> AllPad(e.indent) && AllPad(e.gap) }

  /** No line feed in what is printed of a job; those around its flags are trimmed off. */
  predicate Unbroken(e: CrontabEntry)
    requires e.Job?
  {
    OneLine(e.spec) && OneLine(e.url) && OneLine(TrimSpace(e.flags))
  }

  /** A job without line feeds whose flags the pattern knows, or a text line that is no job line. */
  predicate Faithful(e: CrontabEntry) {
    match e
    case Text(_, text) => ParseLine(0, text).Text?
    case Job(_, _, _, flags, _, _, _) => Unbroken(e) && LetterFlags(flags)
  }

  lemma LineNumber(m: nat, n: nat, raw: string)
    ensures ParseLine(m, raw).Text? <==> ParseLine(n, raw).Text?
    ensures ParseLine(n, raw).Text? ==> ParseLine(n, raw) == Text(n, raw)
  {
    hide ParseJobLine, TrimSpace, LeadingSpace;
  }

  /** Nothing is dropped at the end of a line that is printed of an accepted entry. */
  lemma AcceptedEnd(e: CrontabEntry)
    requires Complaints(e) == []
    ensures DropReturn(RenderLine(e)) == RenderLine(e)
  {
    if e.Job? {
      hide *;
      PrintedEnd(e);
    } else {
      var t := e.text;
      assert t != "" && t[|t| - 1] == '\r' ==> HasAny(t, "\n\r");
    }
  }

  // ---------------------------------------------------------------- whole files

  lemma OneLineSpec(spec: string)
    ensures OneLine(PrintedSpec(spec)) <==> OneLine(spec)
  {
    var l := TrimPadLeft(spec);
    var r := TrimPadRight(l);
    assert spec == spec[..Pads(spec)] + l && l == r + l[|r|..];
    assert AllPad(spec[..Pads(spec)]) && AllPad(l[|r|..]);
    hide TrimPadLeft, TrimPadRight, OneLine, AllPad;
    PadsOneLine(spec[..Pads(spec)]);
    PadsOneLine(l[|r|..]);
    OneLineParts(spec[..Pads(spec)], l);
    OneLineParts(r, l[|r|..]);
  }

  lemma AfterCurlOneLine(f: string, url: string)
    ensures OneLine(AfterCurl(f, url)) <==> OneLine(f) && OneLine(url)
  {
    hide OneLine;
    var mid := if f != "" then " " + f else "";
    CurlIsOneLine();
    OneLineQuotes();
    OneLineParts(" ", f);
    OneLineParts(mid, " \"");
    OneLineParts(mid + " \"", url);
    OneLineParts(mid + " \"" + url, "\"");
  }

  lemma OneLineQuotes()
    ensures OneLine("\"") && OneLine(" \"")
  {
  }

  /** A job is printed on one line when, and only when, it has no line feed. */
  lemma JobOneLineIff(e: CrontabEntry)
    requires e.Job? && AllPad(e.gap) && AllPad(e.indent)
    ensures OneLine(RenderLine(e)) <==> Unbroken(e)
  {
    hide OneLine, PrintedSpec, TrimSpace, AfterCurl, RenderLine;
    var prefix, command := if e.disabled then "# " else "", CURL + AfterCurl(TrimSpace(e.flags), e.url);
    GapIsGap(e);
    RenderLineIs(e);
    CurlIsOneLine();
    OneLineSpec(e.spec);
    PadsOneLine(e.indent);
    PadsOneLine(GapOf(e));
    AfterCurlOneLine(TrimSpace(e.flags), e.url);
    OneLineParts(prefix, e.indent);
    OneLineParts(prefix + e.indent, PrintedSpec(e.spec) + GapOf(e) + command);
    OneLineParts(PrintedSpec(e.spec) + GapOf(e), command);
    OneLineParts(PrintedSpec(e.spec), GapOf(e));
    OneLineParts(CURL, AfterCurl(TrimSpace(e.flags), e.url));
  }

  lemma NoLineBreak(s: string, chars: string)
    requires !HasAny(s, chars) && '\n' in chars
    ensures OneLine(s)
  {
  }

  lemma {:induction false} NoComplaints(es: seq<CrontabEntry>, i: nat)
    requires AllComplaints(es) == [] && i < |es|
    ensures Complaints(es[i]) == []
  {
    hide Complaints;
    if i < |es| - 1 {
      NoComplaints(es[..|es| - 1], i);
    }
  }

  lemma {:induction false} SameCount(a: seq<CrontabEntry>, b: seq<CrontabEntry>)
    requires |a| == |b| && forall i :: 0 <= i < |a| ==> (a[i].Job? <==> b[i].Job?)
    ensures CountJobs(a) == CountJobs(b)
  {
    if a != [] {
      SameCount(a[..|a| - 1], b[..|b| - 1]);
    }
  }

  /** A line that is no single line makes more lines of the file. */
  lemma {:induction false} LineCount(ls: seq<string>)
    ensures |Lines(Unlines(ls))| >= |ls|
    ensures |Lines(Unlines(ls))| == |ls| <==> forall i :: 0 <= i < |ls| ==> OneLine(ls[i])
  {
    hide OneLine;
    if ls != [] {
      LineCount(ls[1..]);
      assert forall i :: 0 <= i < |ls[1..]| ==> ls[1..][i] == ls[i + 1];
      FirstLines(ls[0], Unlines(ls[1..]));
    }
  }

  lemma {:induction false} FirstLines(l: string, rest: string)
    ensures |Lines(l + "\n" + rest)| >= |Lines(rest)| + 1
    ensures |Lines(l + "\n" + rest)| == |Lines(rest)| + 1 <==> OneLine(l)
    decreases |l|
  {
    var i := Index(l, '\n');
    var text := l + "\n" + rest;
    if i == |l| {
      LinesStep(l, rest);
    } else {
      var m := l[i + 1..];
      IndexIs(text, '\n', i);
      assert !OneLine(l);
      hide OneLine, Index;
      FirstLines(m, rest);
      assert text[i + 1..] == m + "\n" + rest;
    }
  }

  ghost predicate ReadBack(es: seq<CrontabEntry>, back: seq<CrontabEntry>) {
    |back| == |es| && forall i :: 0 <= i < |es| ==> back[i] == Expected(es[i], i + 1)
  }

  /** An entry is read back when, and only when, it is printed on one line and read back from that. */
  lemma EntryReadsBack(e: CrontabEntry, n: nat)
    requires Complaints(e) == [] && Sent(e)
    ensures OneLine(RenderLine(e)) && ParseLine(n, DropReturn(RenderLine(e))) == Expected(e, n) <==> Faithful(e)
    ensures Faithful(e) ==> OneLine(RenderLine(e))
  {
    AcceptedEnd(e);
    if e.Job? {
      hide ParseLine, RenderLine, DropReturn, Complaints, LetterFlags, TrimSpace, Unbroken, OneLine;
      LineReadsBackIff(e, n);
      JobOneLineIff(e);
    } else {
      assert RenderLine(e) == e.text;
      NoLineBreak(e.text, "\n\r");
      hide ParseLine, OneLine, DropReturn;
      LineNumber(0, n, e.text);
    }
  }

  /** What is read back, when every entry is printed on one line; otherwise there are more lines. */
  lemma LinesReadBack(es: seq<CrontabEntry>)
    ensures var back := ParseLines(Lines(RenderLines(es)));
            |back| == |es| <==> forall i :: 0 <= i < |es| ==> OneLine(RenderLine(es[i]))
    ensures var back := ParseLines(Lines(RenderLines(es)));
            |back| == |es| ==>
              forall i :: 0 <= i < |es| ==> back[i] == ParseLine(i + 1, DropReturn(RenderLine(es[i])))
  {
    hide ParseLine, RenderLine, RenderLines, Lines, OneLine, DropReturn;
    RenderLinesIsUnlines(es);
    var each := RenderEach(es);
    assert forall i :: 0 <= i < |es| ==> each[i] == RenderLine(es[i]);
    LineCount(each);
    if |Lines(RenderLines(es))| == |es| {
      LinesOfUnlines(each);
    }
  }

  /** A file that is not complained of is read back entry by entry as it was entered when, and only
      when, every job has no line feed and flags that are dashes and letters, and no text line is a job
      line. */
  lemma SavedFileReadsBackIff(es: seq<CrontabEntry>)
    requires AllComplaints(es) == [] && forall i :: 0 <= i < |es| ==> Sent(es[i])
    ensures ReadBack(es, ParseLines(Lines(RenderLines(es)))) <==> forall i :: 0 <= i < |es| ==> Faithful(es[i])
  {
    hide ParseLine, RenderLine, RenderLines, ParseLines, Lines, Complaints, AllComplaints, OneLine, Expected, Sent;
    hide Faithful, DropReturn;
    LinesReadBack(es);
    forall i | 0 <= i < |es|
      ensures OneLine(RenderLine(es[i])) && ParseLine(i + 1, DropReturn(RenderLine(es[i]))) == Expected(es[i], i + 1)
              <==> Faithful(es[i])
      ensures Faithful(es[i]) ==> OneLine(RenderLine(es[i]))
    {
      NoComplaints(es, i);
      EntryReadsBack(es[i], i + 1);
    }
  }

  lemma OneComplains(e: CrontabEntry)
    ensures AllComplaints([e]) == Complaints(e)
  {
    hide Complaints;
    assert [e][..0] == [];
  }

  /** The same for a file of one job. */
  lemma JobReadsBackIff(e: CrontabEntry, es: seq<CrontabEntry>)
    requires e.Job? && Complaints(e) == [] && Sent(e) && es == [e]
    ensures ReadBack(es, ParseLines(Lines(RenderLines(es)))) <==> Unbroken(e) && LetterFlags(e.flags)
  {
    assert Faithful(e) <==> Unbroken(e) && LetterFlags(e.flags);
    OneComplains(e);
    hide *;
    SavedFileReadsBackIff(es);
    assert Faithful(es[0]) <==> Faithful(e);
  }

  /** ... and then the count that is taken before writing agrees, so it is written. */
  lemma FaithfulIsWritten(es: seq<CrontabEntry>)
    requires AllComplaints(es) == [] && forall i :: 0 <= i < |es| ==> Sent(es[i]) && Faithful(es[i])
    ensures CountJobs(ParseLines(Lines(RenderLines(es)))) == CountJobs(es)
  {
    hide *;
    SavedFileReadsBackIff(es);
    SameJobs(es, ParseLines(Lines(RenderLines(es))));
  }

  lemma SameKind(e: CrontabEntry, n: nat)
    ensures Expected(e, n).Job? <==> e.Job?
  {
  }

  lemma SameJobs(es: seq<CrontabEntry>, back: seq<CrontabEntry>)
    requires ReadBack(es, back)
    ensures CountJobs(back) == CountJobs(es)
  {
    forall i | 0 <= i < |es| ensures back[i].Job? <==> es[i].Job? {
      SameKind(es[i], i + 1);
    }
    hide CountJobs, Expected;
    SameCount(back, es);
  }

  // ---------------------------------------------------------------- what is accepted

  /** An entry nothing is wrong with: text without line breaks, or five fields that are a schedule, an
      address without quotes and blanks, and flags that begin with a dash and have no quotes. */
  ghost predicate Proper(e: CrontabEntry) {
    match e
    case Text(_, text) => forall c :: c in text ==> c != '\n' && c != '\r'
    case Job(_, spec, url, flags, _, _, _) =>
      var u := TrimSpace(url);
      && |Fields(TrimSpace(spec))| == 5 && ParseSchedule(Fields(TrimSpace(spec))).Some?
      && u != "" && ("http://" <= u || "https://" <= u || u[0] == '/')
      && (forall c :: c in u ==> c != '"' && c != '\'' && c != ' ' && c != '\t' && c != '\n' && c != '\r')
      && forall p :: p in Fields(TrimSpace(flags)) ==>
           p != "" && p[0] == '-' && forall c :: c in p ==> c != '"' && c != '\''
  }

  lemma {:induction false} FlagsAccepted(parts: seq<string>)
    ensures FlagComplaints(parts) == [] <==> forall p :: p in parts ==> FlagLike(p)
  {
    hide FlagLike;
    if parts != [] {
      var n := |parts| - 1;
      FlagsAccepted(parts[..n]);
      assert parts == parts[..n] + [parts[n]];
    }
  }

  lemma FlagLikeMeans(p: string)
    ensures FlagLike(p) <==> p != "" && p[0] == '-' && forall c :: c in p ==> c != '"' && c != '\''
  {
    NoSuchChar(p, "\"'");
    assert "-" <= p <==> p != "" && p[0] == '-';
  }

  lemma NoSuchChar(s: string, chars: string)
    ensures HasAny(s, chars) <==> exists c :: c in s && c in chars
  {
  }

  lemma UrlAccepted(url: string)
    ensures var u := TrimSpace(url);
            UrlComplaints(url) == []
            <==> u != "" && ("http://" <= u || "https://" <= u || u[0] == '/')
                 && forall c :: c in u ==> c != '"' && c != '\'' && c != ' ' && c != '\t' && c != '\n' && c != '\r'
  {
    var u := TrimSpace(url);
    hide TrimSpace;
    NoSuchChar(u, "\"'\n\r \t");
    assert "/" <= u <==> u != "" && u[0] == '/';
  }

  lemma SpecAccepted(spec: string)
    ensures SpecComplaints(spec) == []
            <==> |Fields(TrimSpace(spec))| == 5 && ParseSchedule(Fields(TrimSpace(spec))).Some?
  {
    hide Fields, TrimSpace, ParseSchedule;
  }

  lemma FlagPartsAccepted(parts: seq<string>)
    ensures FlagComplaints(parts) == []
            <==> forall p :: p in parts ==> p != "" && p[0] == '-' && forall c :: c in p ==> c != '"' && c != '\''
  {
    FlagsAccepted(parts);
    forall p ensures FlagLike(p) <==> p != "" && p[0] == '-' && forall c :: c in p ==> c != '"' && c != '\'' {
      FlagLikeMeans(p);
    }
    hide FlagLike, FlagComplaints;
  }

  lemma EntryAccepted(e: CrontabEntry)
    ensures Complaints(e) == [] <==> Proper(e)
  {
    hide TrimSpace, Fields, ParseSchedule, UrlComplaints, FlagComplaints, SpecComplaints, HasAny;
    match e
    case Text(_, text) => NoSuchChar(text, "\n\r");
    case Job(_, spec, url, flags, _, _, _) =>
      SpecAccepted(spec);
      UrlAccepted(url);
      FlagPartsAccepted(Fields(TrimSpace(flags)));
  }

  /** There is no complaint exactly when every entry is proper. */
  lemma {:induction false} AcceptedIff(es: seq<CrontabEntry>)
    ensures AllComplaints(es) == [] <==> forall e :: e in es ==> Proper(e)
  {
    hide Complaints, Proper;
    if es != [] {
      var n := |es| - 1;
      AcceptedIff(es[..n]);
      EntryAccepted(es[n]);
      assert es == es[..n] + [es[n]];
    }
  }

  ghost predicate BadUrlChar(c: char) { c == '"' || c == '\'' || c == ' ' || c == '\t' || c == '\n' || c == '\r' }

  ghost predicate Flag(p: string) { p != "" && p[0] == '-' && forall c :: c in p ==> c != '"' && c != '\'' }

  /** What each complaint says. Of an address only the first is made. */
  ghost predicate Says(c: Complaint, e: CrontabEntry) {
    match c
    case LineBreak => e.Text? && exists x :: x in e.text && (x == '\n' || x == '\r')
    case NotFiveFields(n) => e.Job? && n == |Fields(TrimSpace(e.spec))| && n != 5
    case BadSchedule => e.Job? && |Fields(TrimSpace(e.spec))| == 5 && ParseSchedule(Fields(TrimSpace(e.spec))).None?
    case EmptyUrl => e.Job? && TrimSpace(e.url) == ""
    case UrlCharacters => e.Job? && exists x :: x in TrimSpace(e.url) && BadUrlChar(x)
    case UrlStart =>
      e.Job? && TrimSpace(e.url) != "" && (forall x :: x in TrimSpace(e.url) ==> !BadUrlChar(x))
      && !("http://" <= TrimSpace(e.url) || "https://" <= TrimSpace(e.url) || TrimSpace(e.url)[0] == '/')
    case NotAFlag(p) => e.Job? && p in Fields(TrimSpace(e.flags)) && !Flag(p)
  }

  lemma {:induction false} FlagComplaintsAre(parts: seq<string>, c: Complaint)
    ensures c in FlagComplaints(parts) <==> c.NotAFlag? && c.part in parts && !Flag(c.part)
  {
    hide FlagLike, Flag;
    if parts != [] {
      var n := |parts| - 1;
      FlagComplaintsAre(parts[..n], c);
      assert parts == parts[..n] + [parts[n]];
      FlagIsFlagLike(parts[n]);
    }
  }

  lemma FlagIsFlagLike(p: string)
    ensures FlagLike(p) <==> Flag(p)
  {
    FlagLikeMeans(p);
  }

  lemma UrlComplaintsAre(url: string, c: Complaint)
    ensures var u := TrimSpace(url);
            c in UrlComplaints(url) <==>
              || (c == EmptyUrl && u == "")
              || (c == UrlCharacters && exists x :: x in u && BadUrlChar(x))
              || (c == UrlStart && u != "" && (forall x :: x in u ==> !BadUrlChar(x))
                  && !("http://" <= u || "https://" <= u || u[0] == '/'))
  {
    var u := TrimSpace(url);
    hide TrimSpace;
    NoSuchChar(u, "\"'\n\r \t");
    assert "/" <= u <==> u != "" && u[0] == '/';
  }

  lemma TextComplaintsAre(e: CrontabEntry, c: Complaint)
    requires e.Text?
    ensures c in Complaints(e) <==> c == LineBreak && exists x :: x in e.text && (x == '\n' || x == '\r')
  {
    NoSuchChar(e.text, "\n\r");
    hide HasAny;
  }

  lemma SpecComplaintsAre(spec: string, c: Complaint)
    ensures var n := |Fields(TrimSpace(spec))|;
            c in SpecComplaints(spec) <==>
              || (c == NotFiveFields(n) && n != 5)
              || (c == BadSchedule && n == 5 && ParseSchedule(Fields(TrimSpace(spec))).None?)
  {
    hide TrimSpace, Fields, ParseSchedule;
  }

  /** An entry is complained of exactly for what is wrong with it. */
  lemma ComplaintMeans(e: CrontabEntry, c: Complaint)
    ensures c in Complaints(e) <==> Says(c, e)
  {
    if e.Text? {
      TextComplaintsAre(e, c);
      hide Complaints;
    } else {
      SpecComplaintsAre(e.spec, c);
      UrlComplaintsAre(e.url, c);
      FlagComplaintsAre(Fields(TrimSpace(e.flags)), c);
      hide TrimSpace, Fields, ParseSchedule, SpecComplaints, FlagComplaints, UrlComplaints, Flag, BadUrlChar;
      assert c in Complaints(e) <==>
        c in SpecComplaints(e.spec) || c in UrlComplaints(e.url) || c in FlagComplaints(Fields(TrimSpace(e.flags)));
      hide Complaints;
    }
  }

  /** Complaints come in the order of the entries. */
  lemma {:induction false} ComplaintsInOrder(a: seq<CrontabEntry>, b: seq<CrontabEntry>)
    ensures AllComplaints(a + b) == AllComplaints(a) + AllComplaints(b)
  {
    hide Complaints;
    if b == [] {
      assert a + b == a;
    } else {
      var n := |b| - 1;
      assert (a + b)[..|a + b| - 1] == a + b[..n];
      ComplaintsInOrder(a, b[..n]);
    }
  }

  ghost function JobPlaces(es: seq<CrontabEntry>): set<nat> { set i: nat | i < |es| && es[i].Job? }

  /** What is compared before a file is written are the numbers of job entries. */
  lemma {:induction false} JobsCounted(es: seq<CrontabEntry>)
    ensures CountJobs(es) == |JobPlaces(es)|
  {
    if es != [] {
      var n := |es| - 1;
      JobsCounted(es[..n]);
      assert JobPlaces(es) == JobPlaces(es[..n]) + if es[n].Job? then {n} else {};
    }
  }
}
