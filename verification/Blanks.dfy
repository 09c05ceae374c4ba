/** Splitting and trimming of strings, as the string functions of the source's language do it:
    strings.TrimSpace, TrimRight, Fields, Index and Split.

    White space is the space, the tab, the line feed, the form feed and the carriage return. The facts
    below say how a trimmed or split string is put together again. */
module Blanks {

  predicate IsBlank(c: char) { c == ' ' || c == '\t' || c == '\n' || c == '\U{000C}' || c == '\r' }

  predicate AllBlank(s: string) { forall i :: 0 <= i < |s| ==> IsBlank(s[i]) }

  predicate NoBlank(s: string) { forall i :: 0 <= i < |s| ==> !IsBlank(s[i]) }

  /** The first position from i on where a blank stands (or does not stand). */
  function RunEnd(s: string, i: nat, blank: bool): (j: nat)
    requires i <= |s|
    ensures i <= j <= |s|
    ensures forall k :: i <= k < j ==> IsBlank(s[k]) == blank
    ensures j < |s| ==> IsBlank(s[j]) != blank
    decreases |s| - i
  {
    if i == |s| || IsBlank(s[i]) != blank then i else RunEnd(s, i + 1, blank)
  }

  function TrimLeft(s: string): (t: string)
    ensures t != "" ==> !IsBlank(t[0])
  {
    s[RunEnd(s, 0, true)..]
  }

  /** s without its trailing blanks. */
  function TrimRight(s: string): (t: string)
    ensures t <= s && (forall i :: |t| <= i < |s| ==> IsBlank(s[i])) && (t != "" ==> !IsBlank(t[|t| - 1]))
  {
    if s == "" || !IsBlank(s[|s| - 1]) then s else TrimRight(s[..|s| - 1])
  }

  function TrimSpace(s: string): string { TrimRight(TrimLeft(s)) }

  /** The maximal runs of non-blanks, in order (strings.Fields). */
  function Fields(s: string): seq<string>
    decreases |s|
  {
    var i := RunEnd(s, 0, true);
    if i == |s| then []
    else
      var j := RunEnd(s, i, false);
      [s[i..j]] + Fields(s[j..])
  }

  predicate HasChar(s: string, c: char) { exists i :: 0 <= i < |s| && s[i] == c }

  function Index(s: string, c: char): (i: nat)
    ensures i <= |s| && (i < |s| ==> s[i] == c) && forall k :: 0 <= k < i ==> s[k] != c
  {
    if s == "" || s[0] == c then 0 else
      var i := Index(s[1..], c);
      assert forall k :: 0 < k < i + 1 ==> s[k] == s[1..][k - 1];
      i + 1
  }

  /** The pieces between separators (strings.Split): always at least one. */
  function Split(s: string, c: char): (parts: seq<string>)
    ensures parts != []
    decreases |s|
  {
    var i := Index(s, c);
    if i == |s| then [s] else [s[..i]] + Split(s[i + 1..], c)
  }

  // ---------------------------------------------------------------- facts

  lemma RunEndIs(s: string, i: nat, j: nat, blank: bool)
    requires i <= j <= |s| && (forall k :: i <= k < j ==> IsBlank(s[k]) == blank)
    requires j < |s| ==> IsBlank(s[j]) != blank
    ensures RunEnd(s, i, blank) == j
  {
  }

  lemma IndexIs(s: string, c: char, i: nat)
    requires i <= |s| && (i < |s| ==> s[i] == c) && forall k :: 0 <= k < i ==> s[k] != c
    ensures Index(s, c) == i
  {
  }

  lemma TrimRightIs(s: string, t: string)
    requires t <= s && (forall i :: |t| <= i < |s| ==> IsBlank(s[i])) && (t != "" ==> !IsBlank(t[|t| - 1]))
    ensures TrimRight(s) == t
  {
    var u := TrimRight(s);
    assert t != "" ==> s[|t| - 1] == t[|t| - 1];
    assert u != "" ==> s[|u| - 1] == u[|u| - 1];
    assert u == s[..|u|] && t == s[..|t|];
  }

  lemma TrimLeftIs(s: string, i: nat)
    requires i <= |s| && (forall k :: 0 <= k < i ==> IsBlank(s[k])) && (i < |s| ==> !IsBlank(s[i]))
    ensures TrimLeft(s) == s[i..]
  {
    RunEndIs(s, 0, i, true);
  }

  /** A string whose ends are not blank is its own trimming, with any blanks put around it. */
  lemma TrimSpaceIs(a: string, s: string, b: string)
    requires AllBlank(a) && AllBlank(b)
    requires s != "" ==> !IsBlank(s[0]) && !IsBlank(s[|s| - 1])
    ensures TrimSpace(a + s + b) == s
  {
    var whole := a + s + b;
    if s == "" {
      TrimLeftIs(whole, |whole|);
    } else {
      TrimLeftIs(whole, |a|);
      assert whole[|a|..] == s + b;
      assert forall i :: |s| <= i < |s + b| ==> (s + b)[i] == b[i - |s|];
      TrimRightIs(s + b, s);
    }
  }

  /** Trimming splits a string into blanks, the trimmed middle, and blanks. */
  lemma TrimSpaceParts(s: string) returns (a: string, b: string)
    ensures s == a + TrimSpace(s) + b && AllBlank(a) && AllBlank(b)
    ensures TrimSpace(s) != "" ==> !IsBlank(TrimSpace(s)[0]) && !IsBlank(TrimSpace(s)[|TrimSpace(s)| - 1])
  {
    var r := TrimLeft(s);
    a := TrimLeftParts(s);
    b := TrimRightParts(r);
    hide *;
    TrimSpaceDef(s);
    assert s == a + r && r == TrimSpace(s) + b;
    assert a + (TrimSpace(s) + b) == a + TrimSpace(s) + b;
  }

  lemma TrimSpaceDef(s: string)
    ensures TrimSpace(s) == TrimRight(TrimLeft(s))
  {
  }

  lemma TrimLeftParts(s: string) returns (a: string)
    ensures s == a + TrimLeft(s) && AllBlank(a)
  {
    a := s[..RunEnd(s, 0, true)];
  }

  lemma TrimRightParts(s: string) returns (b: string)
    ensures s == TrimRight(s) + b && AllBlank(b)
    ensures s != "" && !IsBlank(s[0]) ==> TrimRight(s) != "" && !IsBlank(TrimRight(s)[0])
  {
    b := s[|TrimRight(s)|..];
  }

  lemma {:induction false} SplitJoin(s: string, rest: string, c: char)
    requires !HasChar(s, c)
    ensures Split(s + [c] + rest, c) == [s] + Split(rest, c)
    ensures Split(s, c) == [s]
  {
    IndexIs(s + [c] + rest, c, |s|);
    IndexIs(s, c, |s|);
    assert (s + [c] + rest)[..|s|] == s;
    assert (s + [c] + rest)[|s| + 1..] == rest;
  }

  /** The pieces contain no characters that the whole does not. */
  lemma {:induction false} SplitAlphabet(s: string, c: char, k: nat, p: string, i: nat) returns (j: nat)
    requires k < |Split(s, c)| && p == Split(s, c)[k] && i < |p|
    ensures j < |s| && s[j] == p[i]
    decreases |s|
  {
    var n := Index(s, c);
    if n == |s| || k == 0 {
      j := i;
    } else {
      var m := SplitAlphabet(s[n + 1..], c, k - 1, p, i);
      j := n + 1 + m;
    }
  }

  /** Every character of s is a separator or stands in some piece. */
  lemma {:induction false} SplitCovers(s: string, c: char, j: nat) returns (k: nat, i: nat)
    requires j < |s| && s[j] != c
    ensures k < |Split(s, c)| && i < |Split(s, c)[k]| && Split(s, c)[k][i] == s[j]
    decreases |s|
  {
    var n := Index(s, c);
    if j < n {
      k, i := 0, j;
    } else {
      var k', i' := SplitCovers(s[n + 1..], c, j - n - 1);
      k, i := k' + 1, i';
    }
  }

  lemma Regroup(a: string, b: string, c: string)
    ensures a + b + c == a + (b + c) && "" + b + c == b + c && "" + b == b
  {
  }

  /** One leading field, then blanks, then the rest. */
  lemma FieldsStep(a: string, f: string, rest: string)
    requires AllBlank(a) && f != "" && NoBlank(f) && (rest != "" ==> IsBlank(rest[0]))
    ensures Fields(a + f + rest) == [f] + Fields(rest)
  {
    var s := a + f + rest;
    RunEndIs(s, 0, |a|, true);
    RunEndIs(s, |a|, |a| + |f|, false);
    assert s[|a|..|a| + |f|] == f && s[|a| + |f|..] == rest;
  }

  lemma FieldsOfBlanks(a: string)
    requires AllBlank(a)
    ensures Fields(a) == []
  {
    RunEndIs(a, 0, |a|, true);
  }
}
