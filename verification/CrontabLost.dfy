/** Two files that the editor saves without a word and that lose a job (ValidateCrontabEntries and
    WriteCrontabEntries in background/crontabfile.go).

    Both have a text line that is itself a job line, so that the counts of jobs agree. */
module CrontabLost {
  import opened Options
  import opened Blanks
  import opened CronField
  import opened CronSchedule
  import opened JobLine
  import opened Crontab
  import opened CrontabLaws
  import opened CrontabWrite

  lemma TwoEntries(a: CrontabEntry, b: CrontabEntry)
    ensures CountJobs([a, b]) == (if a.Job? then 1 else 0) + (if b.Job? then 1 else 0)
    ensures AllComplaints([a, b]) == Complaints(a) + Complaints(b)
  {
    hide Complaints;
    assert [a, b][..1] == [a] && [a][..0] == [];
    assert CountJobs([a]) == if a.Job? then 1 else 0;
    assert AllComplaints([a]) == Complaints(a);
  }

  /** A job whose flags are accepted but not known to the pattern, beside a text line that is a job line:
      nothing is complained of, the counts agree, the file is written, and the job is gone. */
  lemma JobIsLost(t: CrontabEntry, e: CrontabEntry)
    requires t.Text? && Complaints(t) == [] && !Faithful(t)
    requires e.Job? && Complaints(e) == [] && Sent(e) && Unbroken(e) && !Faithful(e)
    ensures var es := [t, e];
            var back := ParseLines(Lines(RenderLines(es)));
            AllComplaints(es) == [] && CountJobs(back) == CountJobs(es) && |back| == 2 && back[1].Text?
  {
    LostFacts(t, e);
    hide *;
    JobOneLineIff(e);
    TwoLines(t, e);
    AcceptedEnd(t);
    AcceptedEnd(e);
    LineNumber(0, 1, t.text);
    LineReadsBackIff(e, 2);
    CountsAgree(t, e, ParseLine(1, t.text), ParseLine(2, RenderLine(e)));
  }

  lemma LostFacts(t: CrontabEntry, e: CrontabEntry)
    requires t.Text? && Complaints(t) == [] && !Faithful(t) && e.Job? && Sent(e) && Unbroken(e) && !Faithful(e)
    ensures OneLine(RenderLine(t)) && RenderLine(t) == t.text && ParseLine(0, t.text).Job?
    ensures !LetterFlags(e.flags) && AllPad(e.gap) && AllPad(e.indent)
  {
    NoLineBreak(t.text, "\n\r");
    hide ParseLine, LetterFlags, AllPad, OneLine;
  }

  lemma CountsAgree(t: CrontabEntry, e: CrontabEntry, a: CrontabEntry, b: CrontabEntry)
    requires t.Text? && e.Job? && a.Job? && b.Text? && Complaints(t) == Complaints(e) == []
    ensures AllComplaints([t, e]) == [] && CountJobs([a, b]) == CountJobs([t, e]) && |[a, b]| == 2
  {
    hide *;
    TwoEntries(t, e);
    TwoEntries(a, b);
  }

  lemma TwoLines(a: CrontabEntry, b: CrontabEntry)
    requires OneLine(RenderLine(a)) && OneLine(RenderLine(b))
    ensures ParseLines(Lines(RenderLines([a, b])))
         == [ParseLine(1, DropReturn(RenderLine(a))), ParseLine(2, DropReturn(RenderLine(b)))]
  {
    hide *;
    LinesReadBack([a, b]);
  }

  // ---------------------------------------------------------------- flags that are no letters

  // A job of every minute for the address "/", as the editor sends it.

  const STARS: string := "* * * * *"

  function Every(flags: string): CrontabEntry { Job(0, STARS, "/", flags, false, "", "") }

  const EVERY_LINE: string := "* * * * *    curl \"/\""

  lemma StarSchedule(fs: seq<string>)
    requires |fs| == 5 && forall i :: 0 <= i < 5 ==> fs[i] == "*"
    ensures ParseSchedule(fs).Some?
  {
    hide ParseField;
    StarIsField(0, 59);
    StarIsField(0, 23);
    StarIsField(1, 31);
    StarIsField(1, 12);
    StarIsField(0, 6);
  }

  lemma StarIsField(base: int, max: int)
    requires base <= max
    ensures ParseField("*", base, max).Some?
  {
    hide ParseField;
    var t := Term(Star, None);
    assert PrintTerms([t]) == "*" && InRange(t, base, max);
    ParsePrintedField([t], base, max);
  }

  lemma StarPieces(ps: seq<Piece>)
    requires |ps| == 5 && forall i :: 0 <= i < 5 ==> ps[i] == Piece("*", " ")
    ensures AllFields(ps) && JoinTrim(ps) == STARS
    ensures |Texts(ps)| == 5 && forall i :: 0 <= i < 5 ==> Texts(ps)[i] == "*"
  {
    assert JoinTrim(ps[4..]) == "*";
    assert ps[3..][1..] == ps[4..] && ps[2..][1..] == ps[3..] && ps[1..][1..] == ps[2..];
    assert JoinTrim(ps[3..]) == "* *";
    assert JoinTrim(ps[2..]) == "* * *";
    assert JoinTrim(ps[1..]) == "* * * *";
  }

  lemma StarFields()
    ensures TrimSpace(STARS) == STARS && |Fields(STARS)| == 5
            && ParseSchedule(Fields(STARS)).Some?
  {
    hide *;
    var p := Piece("*", " ");
    var ps := [p, p, p, p, p];
    StarPieces(ps);
    NothingIsBlank();
    FieldsOfJoinTrim(ps, "");
    NoTail(JoinTrim(ps));
    JoinTrimTrimmed(ps);
    StarSchedule(Texts(ps));
  }

  lemma JoinTrimTrimmed(ps: seq<Piece>)
    requires ps != [] && AllFields(ps)
    ensures TrimSpace(JoinTrim(ps)) == JoinTrim(ps)
  {
    hide JoinTrim, TrimSpace;
    assert forall i :: 0 <= i < |ps| ==> IsField(ps[i]);
    JoinTrimEnds(ps);
    TrimOfTrimmed(JoinTrim(ps));
  }

  lemma SpecAccepted(spec: string)
    requires |Fields(TrimSpace(spec))| == 5 && ParseSchedule(Fields(TrimSpace(spec))).Some?
    ensures SpecComplaints(spec) == []
  {
  }

  lemma UrlAccepted(url: string)
    requires TrimSpace(url) == url && url != "" && !HasAny(url, "\"'\n\r \t") && AddressStart(url)
    ensures UrlComplaints(url) == []
  {
  }

  lemma RootAddress()
    ensures !HasAny("/", "\"'\n\r \t") && AddressStart("/") && !IsBlank("/"[0])
  {
  }

  lemma OneFlag(f: string)
    requires f == "-4"
    ensures TrimSpace(f) == f && Fields(f) == [f] && FlagComplaints([f]) == [] && !LetterFlag(f)
  {
    hide TrimSpace, Fields;
    TrimOfTrimmed(f);
    FieldsOfBlanks("");
    FieldsStep("", f, "");
    assert "" + f + "" == f;
    assert [f][..0] == [];
  }

  lemma NoFlag()
    ensures TrimSpace("") == "" && Fields("") == [] && FlagComplaints([]) == []
  {
    FieldsOfBlanks("");
  }

  lemma EveryAccepted(f: string)
    requires f == "" || f == "-4"
    ensures Complaints(Every(f)) == [] && Every(f).Job? && (LetterFlags(Every(f).flags) <==> f == "")
    ensures Sent(Every(f)) && AllPad(Every(f).gap) && AllPad(Every(f).indent)
  {
    hide TrimSpace, Fields, SpecComplaints, UrlComplaints, FlagComplaints, ParseSchedule, HasAny, LetterFlag;
    StarFields();
    SpecAccepted(STARS);
    RootAddress();
    TrimOfTrimmed("/");
    UrlAccepted("/");
    if f == "" {
      NoFlag();
    } else {
      OneFlag(f);
      assert f in Fields(TrimSpace(f));
    }
  }

  lemma RenderedJob(e: CrontabEntry, line: string)
    requires e.Job? && PrintedSpec(e.spec) == e.spec && TrimSpace(e.flags) == e.flags
    requires !e.disabled && e.indent == "" && e.gap == ""
    requires line == e.spec + DEFAULT_GAP + CURL + (if e.flags == "" then "" else " " + e.flags) + " \"" + e.url + "\""
    ensures RenderLine(e) == line
  {
    hide TrimSpace, TrimPadRight, TrimPadLeft, DEFAULT_GAP, CURL;
    EmptyPrefix(RenderBody(JobParts(e.spec, e.url, e.flags, e.gap)));
  }

  lemma EmptyPrefix(s: string)
    ensures "" + "" + s == s
  {
  }

  lemma StarsPrinted()
    ensures PrintedSpec(STARS) == STARS
  {
    TrimPadsOff(STARS);
  }

  lemma EveryRendered()
    ensures RenderLine(Every("")) == EVERY_LINE && RenderLine(Every("-4")) == "* * * * *    curl -4 \"/\""
  {
    hide TrimSpace, PrintedSpec, Fields, ParseSchedule, RenderLine, FlagComplaints, LetterFlag;
    StarsPrinted();
    NoFlag();
    OneFlag("-4");
    RenderedJob(Every(""), EVERY_LINE);
    RenderedJob(Every("-4"), "* * * * *    curl -4 \"/\"");
  }

  lemma EveryLineIsText()
    ensures Complaints(Text(0, EVERY_LINE)) == []
  {
  }

  lemma DashFourUnbroken()
    requires TrimSpace("-4") == "-4"
    ensures Unbroken(Every("-4"))
  {
    hide TrimSpace;
  }

  lemma NeitherIsFaithful()
    requires ParseLine(0, EVERY_LINE).Job? && !LetterFlags(Every("-4").flags)
    ensures !Faithful(Text(0, EVERY_LINE)) && !Faithful(Every("-4")) && Text(0, EVERY_LINE).Text? && Every("-4").Job?
  {
    hide ParseLine, LetterFlags;
  }

  /** The same at a concrete file. */
  lemma DashFourIsLost()
    ensures var es := [Text(0, EVERY_LINE), Every("-4")];
            var back := ParseLines(Lines(RenderLines(es)));
            AllComplaints(es) == [] && CountJobs(back) == CountJobs(es) && |back| == 2 && back[1].Text?
  {
    hide *;
    EveryAccepted("");
    EveryAccepted("-4");
    StarFields();
    NoFlag();
    OneFlag("-4");
    EveryRendered();
    DashFourUnbroken();
    EveryLineIsText();
    LineReadsBackIff(Every(""), 0);
    NeitherIsFaithful();
    JobIsLost(Text(0, EVERY_LINE), Every("-4"));
  }

  // ---------------------------------------------------------------- a line feed in the schedule

  /** The same job with a line feed at the end of its schedule. */
  function Broken(): CrontabEntry { Job(0, STARS + "\n", "/", "", false, "", "") }

  const COMMAND_LINE: string := "    curl \"/\""

  lemma NoLetterC(s: string)
    requires forall i :: 0 <= i < |s| ==> s[i] != 'c'
    ensures ParseJobLine(s).None?
  {
    hide ParseJobLine;
    if ParseJobLine(s).Some? {
      var l := ParseJobLineMeans(s);
      CommandAt(l);
    }
  }

  lemma CommandAt(l: Shape)
    ensures |Join(l.fields)| < |Compose(l)| && Compose(l)[|Join(l.fields)|] == 'c'
  {
  }

  lemma BeginsWithC(s: string)
    requires s != "" && s[0] == 'c'
    ensures ParseJobLine(s).None?
  {
    hide ParseJobLine;
    if ParseJobLine(s).Some? {
      var l := ParseJobLineMeans(s);
      ScheduleAlphabet(l.fields);
      BeginsWithField(l);
    }
  }

  lemma BeginsWithField(l: Shape)
    requires l.fields != [] && l.fields[0].text != ""
    ensures Compose(l) != "" && Compose(l)[0] == l.fields[0].text[0]
  {
  }

  lemma NoJobLine(n: nat, raw: string, body: string)
    requires TrimSpace(raw) == body != "" && body[0] != '#' && ParseJobLine(body).None?
    ensures ParseLine(n, raw) == Text(n, raw)
  {
    hide TrimSpace, ParseJobLine, LeadingSpace;
  }

  lemma StarsAreText(n: nat)
    ensures ParseLine(n, STARS).Text?
  {
    hide TrimSpace, ParseJobLine, ParseLine;
    NoLetterC(STARS);
    TrimOfTrimmed(STARS);
    NoJobLine(n, STARS, STARS);
  }

  lemma CommandIsText(n: nat)
    ensures ParseLine(n, COMMAND_LINE).Text?
  {
    var body := "curl \"/\"";
    hide TrimSpace, ParseJobLine, ParseLine;
    BeginsWithC(body);
    TrimSpaceIs("    ", body, "");
    assert "    " + body + "" == COMMAND_LINE;
    NoJobLine(n, COMMAND_LINE, body);
  }

  lemma BrokenAccepted()
    ensures Complaints(Broken()) == [] && Sent(Broken()) && !Faithful(Broken()) && Broken().Job?
  {
    hide TrimSpace, Fields, SpecComplaints, UrlComplaints, FlagComplaints, ParseSchedule, HasAny, LetterFlags;
    StarFields();
    TrimSpaceIs("", STARS, "\n");
    assert "" + STARS + "\n" == STARS + "\n";
    SpecAccepted(STARS + "\n");
    RootAddress();
    TrimOfTrimmed("/");
    UrlAccepted("/");
    NoFlag();
    assert (STARS + "\n")[|STARS|] == '\n';
    assert !OneLine(STARS + "\n");
  }

  /** It is printed over two lines. */
  lemma BrokenRendered()
    ensures RenderLine(Broken()) == STARS + "\n" + COMMAND_LINE
  {
    hide TrimSpace, PrintedSpec, RenderLine, Fields, FlagComplaints;
    NoFlag();
    TrimPadsOff(STARS + "\n");
    BrokenPrinted();
    RenderedJob(Broken(), STARS + "\n" + COMMAND_LINE);
  }

  lemma BrokenPrinted()
    ensures PrintedSpec(STARS + "\n") == STARS + "\n"
  {
    TrimPadsOff(STARS + "\n");
  }

  lemma TwoLinesOfOne(a: string, b: string)
    ensures Unlines([EVERY_LINE, a + "\n" + b]) == Unlines([EVERY_LINE, a, b])
  {
    assert [EVERY_LINE, a + "\n" + b][1..] == [a + "\n" + b] && [EVERY_LINE, a, b][1..] == [a, b] && [a, b][1..] == [b];
    assert Unlines([b]) == b + "\n";
    assert Unlines([a + "\n" + b]) == a + "\n" + b + "\n";
    assert a + "\n" + b + "\n" == a + "\n" + (b + "\n");
  }

  lemma ThreeLines()
    ensures OneLine(EVERY_LINE) && OneLine(STARS) && OneLine(COMMAND_LINE)
    ensures DropEach([EVERY_LINE, STARS, COMMAND_LINE]) == [EVERY_LINE, STARS, COMMAND_LINE]
  {
  }

  lemma TwoRendered(a: CrontabEntry, b: CrontabEntry)
    ensures RenderEach([a, b]) == [RenderLine(a), RenderLine(b)]
  {
    hide RenderLine;
  }

  lemma TextRendered(t: string)
    ensures RenderLine(Text(0, t)) == t
  {
  }

  lemma BrokenLines()
    ensures Lines(RenderLines([Text(0, EVERY_LINE), Broken()])) == [EVERY_LINE, STARS, COMMAND_LINE]
  {
    hide *;
    var es := [Text(0, EVERY_LINE), Broken()];
    TwoRendered(Text(0, EVERY_LINE), Broken());
    TextRendered(EVERY_LINE);
    RenderLinesIsUnlines(es);
    BrokenRendered();
    TwoLinesOfOne(STARS, COMMAND_LINE);
    ThreeLines();
    LinesOfUnlines([EVERY_LINE, STARS, COMMAND_LINE]);
  }

  lemma ThreeEntries(a: string, b: string, c: string)
    ensures var back := ParseLines([a, b, c]);
            back == [ParseLine(1, a), ParseLine(2, b), ParseLine(3, c)]
  {
    hide ParseLine;
  }

  lemma CountThree(a: CrontabEntry, b: CrontabEntry, c: CrontabEntry)
    requires b.Text? && c.Text?
    ensures CountJobs([a, b, c]) == if a.Job? then 1 else 0
  {
    hide *;
    TwoEntries(a, b);
    CountAppend([a, b], c);
    assert [a, b, c] == [a, b] + [c];
  }

  lemma CountAppend(es: seq<CrontabEntry>, e: CrontabEntry)
    ensures CountJobs(es + [e]) == CountJobs(es) + if e.Job? then 1 else 0
  {
    assert (es + [e])[..|es + [e]| - 1] == es;
  }

  /** Nothing is complained of, the counts agree, the file is written, and only the text line is a job. */
  lemma LineFeedIsLost()
    ensures var es := [Text(0, EVERY_LINE), Broken()];
            var back := ParseLines(Lines(RenderLines(es)));
            AllComplaints(es) == [] && CountJobs(back) == CountJobs(es) == 1
            && |back| == 3 && back[1].Text? && back[2].Text?
  {
    hide *;
    BrokenAccepted();
    EveryLineIsText();
    TwoEntries(Text(0, EVERY_LINE), Broken());
    BrokenLines();
    ThreeEntries(EVERY_LINE, STARS, COMMAND_LINE);
    EveryAccepted("");
    NoFlag();
    EveryRendered();
    LineReadsBackIff(Every(""), 1);
    StarsAreText(2);
    CommandIsText(3);
    CountThree(ParseLine(1, EVERY_LINE), ParseLine(2, STARS), ParseLine(3, COMMAND_LINE));
  }
}
