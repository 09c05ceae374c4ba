/** The one shape of a crontab job: five schedule fields, curl, flags, and a quoted URL
    (jobLineRe in background/scheduler.go).

    `Compose` is the pattern read as concatenation; `MatchJob` finds the pieces from left to right,
    and is shown to decide it. */
module JobLine {
  import opened Options
  import opened Blanks

  /** A run of other characters followed by a run of blanks. */
  datatype Piece = Piece(text: string, gap: string)

  datatype Shape = Shape(fields: seq<Piece>, curlGap: string, flags: seq<Piece>, open: char, url: string, close: char,
                         tail: string)

  const CURL: string := "curl"

  function Join(ps: seq<Piece>): string {
    if ps == [] then "" else ps[0].text + ps[0].gap + Join(ps[1..])
  }

  function Compose(l: Shape): string {
    Join(l.fields) + (CURL + (l.curlGap + (Join(l.flags) + ([l.open] + (l.url + ([l.close] + l.tail))))))
  }

  predicate IsLetter(c: char) { 'a' <= c <= 'z' || 'A' <= c <= 'Z' }

  predicate IsQuote(c: char) { c == '"' || c == '\'' }

  predicate Gap(s: string) { s != "" && AllBlank(s) }

  predicate IsField(p: Piece) { p.text != "" && NoBlank(p.text) && Gap(p.gap) }

  predicate IsFlag(p: Piece) {
    && |p.text| >= 2 && p.text[0] == '-' && (forall i :: 1 <= i < |p.text| ==> IsLetter(p.text[i]))
    && Gap(p.gap)
  }

  predicate AllFields(ps: seq<Piece>) { forall i :: 0 <= i < |ps| ==> IsField(ps[i]) }

  predicate AllFlags(ps: seq<Piece>) { forall i :: 0 <= i < |ps| ==> IsFlag(ps[i]) }

  predicate IsUrl(s: string) { s != "" && forall i :: 0 <= i < |s| ==> !IsQuote(s[i]) }

  predicate WellShaped(l: Shape) {
    && |l.fields| == 5 && AllFields(l.fields) && Gap(l.curlGap) && AllFlags(l.flags)
    && IsQuote(l.open) && IsUrl(l.url) && IsQuote(l.close) && AllBlank(l.tail)
  }

  // ---------------------------------------------------------------- the matcher

  /** n fields, each with the blanks after it, and what follows. */
  function ReadFields(s: string, n: nat): Option<(seq<Piece>, string)> {
    if n == 0 then Some(([], s))
    else
      var i := RunEnd(s, 0, false);
      var j := RunEnd(s, i, true);
      if i == 0 || j == i then None
      else
        match ReadFields(s[j..], n - 1)
        case Some((ps, rest)) => Some(([Piece(s[..i], s[i..j])] + ps, rest))
        case None => None
  }

  function LettersEnd(s: string, i: nat): (j: nat)
    requires i <= |s|
    ensures i <= j <= |s| && (forall k :: i <= k < j ==> IsLetter(s[k])) && (j < |s| ==> !IsLetter(s[j]))
    decreases |s| - i
  {
    if i == |s| || !IsLetter(s[i]) then i else LettersEnd(s, i + 1)
  }

  /** As many flags as there are, and what follows. */
  function ReadFlags(s: string): (r: (seq<Piece>, string))
    decreases |s|
  {
    if s == "" || s[0] != '-' then ([], s)
    else
      var i := LettersEnd(s, 1);
      var j := RunEnd(s, i, true);
      if i == 1 || j == i then ([], s)
      else
        var (ps, rest) := ReadFlags(s[j..]);
        ([Piece(s[..i], s[i..j])] + ps, rest)
  }

  function QuoteIndex(s: string): (i: nat)
    ensures i <= |s| && (i < |s| ==> IsQuote(s[i])) && forall k :: 0 <= k < i ==> !IsQuote(s[k])
  {
    if s == "" || IsQuote(s[0]) then 0
    else
      var i := QuoteIndex(s[1..]);
      assert forall k :: 0 < k < i + 1 ==> s[k] == s[1..][k - 1];
      i + 1
  }

  /** The quoted URL and the end of the line. */
  function ReadUrl(s: string): Option<(char, string, char, string)> {
    if s == "" || !IsQuote(s[0]) then None
    else
      var i := QuoteIndex(s[1..]);
      if i == 0 || i == |s| - 1 || !AllBlank(s[i + 2..]) then None
      else Some((s[0], s[1..i + 1], s[i + 1], s[i + 2..]))
  }

  function ReadCommand(s: string): Option<(string, seq<Piece>, char, string, char, string)> {
    if !(CURL <= s) then None
    else
      var j := RunEnd(s, 4, true);
      var (flags, rest) := ReadFlags(s[j..]);
      if j == 4 then None
      else
        match ReadUrl(rest)
        case Some((a, url, b, tail)) => Some((s[4..j], flags, a, url, b, tail))
        case None => None
  }

  function MatchJob(s: string): Option<Shape> {
    match ReadFields(s, 5)
    case None => None
    case Some((fields, rest)) =>
      match ReadCommand(rest)
      case None => None
      case Some((gap, flags, a, url, b, tail)) => Some(Shape(fields, gap, flags, a, url, b, tail))
  }

  // ---------------------------------------------------------------- the matcher decides the pattern

  lemma GapsAndTexts(s: string, i: nat, j: nat)
    requires i <= j <= |s|
    ensures (forall k :: i <= k < j ==> IsBlank(s[k])) <==> AllBlank(s[i..j])
    ensures (forall k :: i <= k < j ==> !IsBlank(s[k])) <==> NoBlank(s[i..j])
  {
    assert forall k :: i <= k < j ==> s[i..j][k - i] == s[k];
    assert forall k :: 0 <= k < j - i ==> s[i..j][k] == s[i + k];
  }

  lemma TakeField(s: string)
    ensures var i := RunEnd(s, 0, false); var j := RunEnd(s, i, true);
            && (i > 0 && j > i ==> IsField(Piece(s[..i], s[i..j])))
            && s[..i] + s[i..j] == s[..j]
  {
    var i := RunEnd(s, 0, false);
    var j := RunEnd(s, i, true);
    GapsAndTexts(s, 0, i);
    GapsAndTexts(s, i, j);
    assert s[0..i] == s[..i];
  }

  lemma {:induction false} ReadFieldsSound(s: string, n: nat)
    ensures match ReadFields(s, n)
            case Some((ps, rest)) => |ps| == n && AllFields(ps) && s == Join(ps) + rest
            case None => true
    decreases n
  {
    hide IsField, Join, RunEnd;
    if n == 0 {
      JoinNothing(s);
    } else {
      var i := RunEnd(s, 0, false);
      var j := RunEnd(s, i, true);
      TakeField(s);
      ReadFieldsSound(s[j..], n - 1);
      if i > 0 && j > i && ReadFields(s[j..], n - 1).Some? {
        var (ps, rest) := ReadFields(s[j..], n - 1).value;
        PrependPiece(Piece(s[..i], s[i..j]), ps, rest, s);
      }
    }
  }

  lemma JoinNothing(s: string)
    ensures s == Join([]) + s
  {
  }

  lemma PrependPiece(p: Piece, ps: seq<Piece>, rest: string, s: string)
    requires |p.text + p.gap| <= |s| && p.text + p.gap == s[..|p.text + p.gap|]
    requires s[|p.text + p.gap|..] == Join(ps) + rest
    ensures s == Join([p] + ps) + rest
  {
    assert ([p] + ps)[1..] == ps;
    assert s == s[..|p.text + p.gap|] + s[|p.text + p.gap|..];
  }

  /** Cutting the first piece off a composed string. */
  lemma CutPiece(p: Piece, ps: seq<Piece>, rest: string)
    ensures Join([p] + ps) + rest == p.text + (p.gap + (Join(ps) + rest))
  {
    assert ([p] + ps)[1..] == ps;
  }

  lemma RunsOf(text: string, gap: string, rest: string)
    requires NoBlank(text) && AllBlank(gap) && gap != "" && (rest != "" ==> !IsBlank(rest[0]))
    ensures var s := text + (gap + rest);
            && RunEnd(s, 0, false) == |text| && RunEnd(s, |text|, true) == |text + gap|
            && s[..|text|] == text && s[|text|..|text + gap|] == gap && s[|text + gap|..] == rest
  {
    var s := text + (gap + rest);
    RunEndIs(s, 0, |text|, false);
    RunEndIs(s, |text|, |text + gap|, true);
  }

  lemma JoinStart(ps: seq<Piece>, rest: string)
    requires AllFields(ps) && (rest != "" ==> !IsBlank(rest[0]))
    ensures var s := Join(ps) + rest; s != "" ==> !IsBlank(s[0])
  {
    if ps != [] {
      CutPiece(ps[0], ps[1..], rest);
      assert [ps[0]] + ps[1..] == ps;
    }
  }

  lemma {:induction false} ReadFieldsComplete(ps: seq<Piece>, rest: string)
    requires AllFields(ps) && (rest != "" ==> !IsBlank(rest[0]))
    ensures ReadFields(Join(ps) + rest, |ps|) == Some((ps, rest))
    decreases |ps|
  {
    if ps == [] {
      assert "" + rest == rest;
    } else {
      var tail := ps[1..];
      assert ps == [ps[0]] + tail;
      CutPiece(ps[0], tail, rest);
      JoinStart(tail, rest);
      RunsOf(ps[0].text, ps[0].gap, Join(tail) + rest);
      ReadFieldsComplete(tail, rest);
    }
  }

  lemma TakeFlag(s: string)
    requires s != "" && s[0] == '-'
    ensures var i := LettersEnd(s, 1); var j := RunEnd(s, i, true);
            && (i > 1 && j > i ==> IsFlag(Piece(s[..i], s[i..j])))
            && s[..i] + s[i..j] == s[..j]
  {
    var i := LettersEnd(s, 1);
    GapsAndTexts(s, i, RunEnd(s, i, true));
  }

  lemma {:induction false} ReadFlagsSound(s: string)
    ensures AllFlags(ReadFlags(s).0) && s == Join(ReadFlags(s).0) + ReadFlags(s).1
    decreases |s|
  {
    hide IsFlag, Join, RunEnd, LettersEnd;
    JoinNothing(s);
    if s != "" && s[0] == '-' {
      var i := LettersEnd(s, 1);
      var j := RunEnd(s, i, true);
      TakeFlag(s);
      if i > 1 && j > i {
        ReadFlagsSound(s[j..]);
        PrependPiece(Piece(s[..i], s[i..j]), ReadFlags(s[j..]).0, ReadFlags(s[j..]).1, s);
      }
    }
  }

  lemma LettersEndIs(s: string, i: nat, j: nat)
    requires i <= j <= |s| && (forall k :: i <= k < j ==> IsLetter(s[k])) && (j < |s| ==> !IsLetter(s[j]))
    ensures LettersEnd(s, i) == j
  {
  }

  lemma FlagStart(ps: seq<Piece>, rest: string)
    requires AllFlags(ps) && rest != "" && IsQuote(rest[0])
    ensures var s := Join(ps) + rest; s != "" && !IsBlank(s[0])
  {
    if ps != [] {
      CutPiece(ps[0], ps[1..], rest);
      assert [ps[0]] + ps[1..] == ps;
    }
  }

  lemma FlagRuns(p: Piece, rest: string)
    requires IsFlag(p) && rest != "" && !IsBlank(rest[0])
    ensures var s := p.text + (p.gap + rest);
            && s[0] == '-' && LettersEnd(s, 1) == |p.text| && RunEnd(s, |p.text|, true) == |p.text + p.gap|
            && s[..|p.text|] == p.text && s[|p.text|..|p.text + p.gap|] == p.gap && s[|p.text + p.gap|..] == rest
  {
    var s := p.text + (p.gap + rest);
    assert s[|p.text|] == p.gap[0];
    LettersEndIs(s, 1, |p.text|);
    RunEndIs(s, |p.text|, |p.text + p.gap|, true);
  }

  lemma {:induction false} ReadFlagsComplete(ps: seq<Piece>, rest: string)
    requires AllFlags(ps) && rest != "" && IsQuote(rest[0])
    ensures ReadFlags(Join(ps) + rest) == (ps, rest)
    decreases |ps|
  {
    if ps == [] {
      assert "" + rest == rest;
    } else {
      var tail := ps[1..];
      assert ps == [ps[0]] + tail;
      CutPiece(ps[0], tail, rest);
      FlagStart(tail, rest);
      FlagRuns(ps[0], Join(tail) + rest);
      ReadFlagsComplete(tail, rest);
    }
  }

  lemma QuoteIndexIs(s: string, i: nat)
    requires i < |s| && IsQuote(s[i]) && forall k :: 0 <= k < i ==> !IsQuote(s[k])
    ensures QuoteIndex(s) == i
  {
  }

  lemma ReadUrlComplete(s: string, a: char, url: string, b: char, tail: string)
    requires s == [a] + (url + ([b] + tail)) && IsQuote(a) && IsUrl(url) && IsQuote(b) && AllBlank(tail)
    ensures ReadUrl(s) == Some((a, url, b, tail))
  {
    assert s[1..] == url + ([b] + tail);
    QuoteIndexIs(s[1..], |url|);
    hide QuoteIndex;
    assert s[1..|url| + 1] == url && s[|url| + 2..] == tail;
  }

  lemma ReadUrlSound(s: string, a: char, url: string, b: char, tail: string)
    requires ReadUrl(s) == Some((a, url, b, tail))
    ensures s == [a] + (url + ([b] + tail)) && IsQuote(a) && IsUrl(url) && IsQuote(b) && AllBlank(tail)
  {
    var i := QuoteIndex(s[1..]);
    hide QuoteIndex;
    assert forall k :: 0 <= k < i ==> url[k] == s[1..][k];
    assert b == s[1..][i];
    assert s == [s[0]] + (s[1..i + 1] + ([s[i + 1]] + s[i + 2..]));
  }

  lemma ReadUrlExact(s: string, a: char, url: string, b: char, tail: string)
    ensures ReadUrl(s) == Some((a, url, b, tail))
            <==> s == [a] + (url + ([b] + tail)) && IsQuote(a) && IsUrl(url) && IsQuote(b) && AllBlank(tail)
  {
    hide *;
    if s == [a] + (url + ([b] + tail)) && IsQuote(a) && IsUrl(url) && IsQuote(b) && AllBlank(tail) {
      ReadUrlComplete(s, a, url, b, tail);
    }
    if ReadUrl(s) == Some((a, url, b, tail)) {
      ReadUrlSound(s, a, url, b, tail);
    }
  }

  /** MatchJob finds the pieces exactly when the line is composed of them, so the pattern has at
      most one reading of any line. */
  lemma MatchJobExact(s: string, l: Shape)
    ensures MatchJob(s) == Some(l) <==> WellShaped(l) && s == Compose(l)
  {
    if WellShaped(l) && s == Compose(l) {
      MatchJobComplete(l);
    }
    if MatchJob(s) == Some(l) {
      MatchJobSound(s);
    }
  }

  lemma MatchJobComplete(l: Shape)
    requires WellShaped(l)
    ensures MatchJob(Compose(l)) == Some(l)
  {
    hide ReadFields, ReadFlags, ReadUrl, Join;
    var quoted := [l.open] + (l.url + ([l.close] + l.tail));
    var afterGap := Join(l.flags) + quoted;
    var command := CURL + (l.curlGap + afterGap);
    FlagStart(l.flags, quoted);
    assert command[0] == 'c';
    ReadFieldsComplete(l.fields, command);
    RunEndIs(command, 4, 4 + |l.curlGap|, true);
    assert command[4 + |l.curlGap|..] == afterGap && command[4..4 + |l.curlGap|] == l.curlGap;
    ReadFlagsComplete(l.flags, quoted);
    ReadUrlExact(quoted, l.open, l.url, l.close, l.tail);
  }

  lemma CommandSound(s: string)
    requires ReadCommand(s).Some?
    ensures var (gap, flags, a, url, b, tail) := ReadCommand(s).value;
            && s == CURL + (gap + (Join(flags) + ([a] + (url + ([b] + tail)))))
            && Gap(gap) && AllFlags(flags) && IsQuote(a) && IsUrl(url) && IsQuote(b) && AllBlank(tail)
  {
    hide ReadFlags, ReadUrl, Join;
    var j := RunEnd(s, 4, true);
    var (gap, flags, a, url, b, tail) := ReadCommand(s).value;
    var rest := ReadFlags(s[j..]).1;
    GapsAndTexts(s, 4, j);
    ReadFlagsSound(s[j..]);
    ReadUrlExact(rest, a, url, b, tail);
    assert s == s[..4] + (s[4..j] + s[j..]);
  }

  lemma MatchJobSound(s: string)
    requires MatchJob(s).Some?
    ensures WellShaped(MatchJob(s).value) && s == Compose(MatchJob(s).value)
  {
    hide ReadFields, ReadCommand, Join;
    ReadFieldsSound(s, 5);
    CommandSound(ReadFields(s, 5).value.1);
  }
}
