/** The bencode reader of core/torrent_bencode.go as functions of buffer and cursor, and what they decide. */
module Bencode {

  // The grammar is that of section "bencoding" of BEP 3, with the liberties the reader takes.

  import opened Numerals

  const TWO_64: nat := 0x1_0000_0000_0000_0000

  /** Sum of two machine integers: 64-bit two's complement. */
  function Add64(a: nat, b: nat): int
    requires a <= MAX_INT && b <= MAX_INT
  {
    if a + b <= MAX_INT then a + b else a + b - TWO_64
  }

  // ---------------------------------------------------------------- what the cursor methods do

  /** A read ends with a value and the next cursor, with an error, or with a run-time panic. */
  datatype Read<+T> = Got(value: T, next: nat) | Failed | Panicked

  /** The first position from i on that does not hold a digit. */
  function DigitsEnd(b: string, i: nat): (j: nat)
    requires i <= |b|
    ensures i <= j <= |b| && AllDigits(b[i..j]) && (j < |b| ==> !IsDigit(b[j]))
    decreases |b| - i
  {
    if i == |b| || !IsDigit(b[i]) then i
    else
      var j := DigitsEnd(b, i + 1);
      assert forall k :: 0 < k < j - i ==> b[i..j][k] == b[i + 1..j][k - 1];
      j
  }

  /** A byte string: digits, a colon, and that many bytes. */
  function ReadBytes(b: string, i: nat): (r: Read<string>)
    requires i <= |b| <= MAX_INT
    ensures r.Got? ==> i < r.next <= |b|
  {
    var j := DigitsEnd(b, i);
    if j == |b| || b[j] != ':' || i == j || Number(b[i..j]) > MAX_INT then Failed
    else
      var n := Number(b[i..j]);
      var end := Add64(j + 1, n);
      if end > |b| then Failed
      else if end < j + 1 then Panicked
      else Got(b[j + 1..end], end)
  }

  function Find(b: string, i: nat, c: char): (j: nat)
    requires i <= |b|
    ensures i <= j <= |b| && c !in b[i..j] && (j < |b| ==> b[j] == c)
    decreases |b| - i
  {
    if i == |b| || b[i] == c then i
    else
      var j := Find(b, i + 1, c);
      assert b[i..j] == [b[i]] + b[i + 1..j];
      j
  }

  function Skip(b: string, i: nat): (r: Read<()>)
    requires i <= |b| <= MAX_INT
    ensures r.Got? ==> i < r.next <= |b|
    decreases |b| - i, 0
  {
    if i == |b| then Failed
    else if IsDigit(b[i]) then
      match ReadBytes(b, i)
      case Got(_, j) => Got((), j)
      case Failed => Failed
      case Panicked => Panicked
    else if b[i] == 'i' then
      var j := Find(b, i + 1, 'e');
      if j == |b| then Failed else Got((), j + 1)
    else if b[i] == 'l' then SkipItems(b, i + 1)
    else if b[i] == 'd' then SkipEntries(b, i + 1)
    else Failed
  }

  function SkipItems(b: string, i: nat): (r: Read<()>)
    requires i <= |b| <= MAX_INT
    ensures r.Got? ==> i < r.next <= |b|
    decreases |b| - i, 1
  {
    if i == |b| then Failed
    else if b[i] == 'e' then Got((), i + 1)
    else
      match Skip(b, i)
      case Got(_, j) => SkipItems(b, j)
      case Failed => Failed
      case Panicked => Panicked
  }

  function SkipEntries(b: string, i: nat): (r: Read<()>)
    requires i <= |b| <= MAX_INT
    ensures r.Got? ==> i < r.next <= |b|
    decreases |b| - i, 1
  {
    if i == |b| then Failed
    else if b[i] == 'e' then Got((), i + 1)
    else
      match ReadBytes(b, i)
      case Failed => Failed
      case Panicked => Panicked
      case Got(_, j) =>
        match Skip(b, j)
        case Got(_, k) => SkipEntries(b, k)
        case Failed => Failed
        case Panicked => Panicked
  }

  // ---------------------------------------------------------------- the grammar

  datatype Value =
    | Str(header: string, text: string)
    | Int(digits: string)
    | List(items: seq<Value>)
    | Dict(entries: seq<Entry>)

  datatype Entry = Entry(header: string, key: string, val: Value)

  predicate GoodHeader(header: string, text: string) {
    header != "" && AllDigits(header) && Number(header) == |text|
  }

  /** The accepted values: length numerals may carry leading zeros, what stands between i and e
      is not looked at, and dictionary keys may come in any order and repeat. */
  predicate WellFormed(v: Value) {
    match v
    case Str(h, t) => GoodHeader(h, t)
    case Int(d) => 'e' !in d
    case List(items) => forall x :: x in items ==> WellFormed(x)
    case Dict(entries) => EntriesWellFormed(entries)
  }

  predicate EntriesWellFormed(entries: seq<Entry>) {
    forall e :: e in entries ==> GoodHeader(e.header, e.key) && WellFormed(e.val)
  }

  function Encode(v: Value): string {
    match v
    case Str(h, t) => h + ":" + t
    case Int(d) => "i" + d + "e"
    case List(items) => "l" + EncodeItems(items) + "e"
    case Dict(entries) => "d" + EncodeEntries(entries) + "e"
  }

  function EncodeItems(items: seq<Value>): string {
    if items == [] then "" else Encode(items[0]) + EncodeItems(items[1..])
  }

  function EncodeEntry(e: Entry): string { e.header + ":" + e.key + Encode(e.val) }

  function EncodeEntries(entries: seq<Entry>): string {
    if entries == [] then "" else EncodeEntry(entries[0]) + EncodeEntries(entries[1..])
  }

  /** s stands in b at position i. */
  ghost predicate At(b: string, i: nat, s: string) {
    i + |s| <= |b| && b[i..i + |s|] == s
  }

  lemma AtSplit(b: string, i: nat, s: string, t: string)
    ensures At(b, i, s + t) <==> At(b, i, s) && At(b, i + |s|, t)
  {
    if At(b, i, s + t) {
      assert b[i..i + |s + t|][..|s|] == b[i..i + |s|];
      assert b[i..i + |s + t|][|s|..] == b[i + |s|..i + |s| + |t|];
    }
    if At(b, i, s) && At(b, i + |s|, t) {
      assert b[i..i + |s + t|] == b[i..i + |s|] + b[i + |s|..i + |s| + |t|];
    }
  }

  lemma AtSplit3(b: string, i: nat, s: string, t: string, u: string)
    ensures At(b, i, s + t + u) <==> At(b, i, s) && At(b, i + |s|, t) && At(b, i + |s| + |t|, u)
  {
    AtSplit(b, i, s + t, u);
    AtSplit(b, i, s, t);
  }

  lemma AtChar(b: string, i: nat, c: char)
    ensures At(b, i, [c]) <==> i < |b| && b[i] == c
  {
    if i < |b| {
      assert b[i..i + 1] == [b[i]];
    }
  }

  /** A bracketed body: the opening letter, then everything up to and with the closing e. */
  lemma AtWrapped(b: string, i: nat, c: char, body: string)
    ensures At(b, i, [c] + body + "e") <==> i < |b| && b[i] == c && At(b, i + 1, body + "e")
    ensures |[c] + body + "e"| == 1 + |body + "e"|
  {
    assert [c] + body + "e" == [c] + (body + "e");
    AtSplit(b, i, [c], body + "e");
    AtChar(b, i, c);
  }

  lemma ItemsUnfold(items: seq<Value>)
    ensures items == [] ==> EncodeItems(items) + "e" == "e"
    ensures items != [] ==>
              EncodeItems(items) + "e" == Encode(items[0]) + (EncodeItems(items[1..]) + "e")
  {
  }

  lemma EntriesUnfold(entries: seq<Entry>)
    ensures entries == [] ==> EncodeEntries(entries) + "e" == "e"
    ensures entries != [] ==>
              EncodeEntries(entries) + "e" == EncodeEntry(entries[0]) + (EncodeEntries(entries[1..]) + "e")
  {
  }

  // ---------------------------------------------------------------- byte strings

  lemma DigitsEndIs(b: string, i: nat, h: string)
    requires At(b, i, h) && AllDigits(h) && i + |h| < |b| && !IsDigit(b[i + |h|])
    ensures DigitsEnd(b, i) == i + |h|
    decreases |h|
  {
    if h != "" {
      assert b[i] == h[0];
      assert At(b, i + 1, h[1..]) by { assert h == [h[0]] + h[1..]; AtSplit(b, i, [h[0]], h[1..]); }
      DigitsEndIs(b, i + 1, h[1..]);
    }
  }

  lemma ReadBytesComplete(b: string, i: nat, h: string, text: string)
    requires |b| <= MAX_INT && GoodHeader(h, text) && At(b, i, h + ":" + text)
    ensures ReadBytes(b, i) == Got(text, i + |h + ":" + text|)
  {
    AtSplit3(b, i, h, ":", text);
    AtChar(b, i + |h|, ':');
    DigitsEndIs(b, i, h);
  }

  lemma ReadBytesSound(b: string, i: nat) returns (h: string)
    requires i <= |b| <= MAX_INT && ReadBytes(b, i).Got?
    ensures var Got(text, j) := ReadBytes(b, i);
            GoodHeader(h, text) && At(b, i, h + ":" + text) && j == i + |h + ":" + text|
  {
    h := b[i..DigitsEnd(b, i)];
    AtSplit3(b, i, h, ":", ReadBytes(b, i).value);
    AtChar(b, i + |h|, ':');
  }

  /** Reading a byte string succeeds with text and next cursor exactly on an encoded one. */
  lemma ReadBytesExact(b: string, i: nat, text: string, j: nat)
    requires i <= |b| <= MAX_INT
    ensures ReadBytes(b, i) == Got(text, j)
            <==> exists h :: GoodHeader(h, text) && At(b, i, h + ":" + text) && j == i + |h + ":" + text|
  {
    hide ReadBytes, GoodHeader, At;
    if ReadBytes(b, i) == Got(text, j) {
      var h := ReadBytesSound(b, i);
    }
    if h :| GoodHeader(h, text) && At(b, i, h + ":" + text) && j == i + |h + ":" + text| {
      ReadBytesComplete(b, i, h, text);
    }
  }

  lemma ReadBytesNeedsDigit(b: string, i: nat)
    requires i <= |b| <= MAX_INT && (i == |b| || !IsDigit(b[i]))
    ensures ReadBytes(b, i) == Failed
  {
  }

  /** The one way to a panic: a numeral that fits a machine integer, whose sum with the cursor
      does not. */
  lemma PanicsExactlyOnOverflow(b: string, i: nat)
    requires i <= |b| <= MAX_INT
    ensures ReadBytes(b, i) == Panicked
            <==> (var j := DigitsEnd(b, i);
                  j < |b| && b[j] == ':' && i < j
                  && MAX_INT - (j + 1) < Number(b[i..j]) <= MAX_INT)
  {
  }

  /** The largest machine integer as a length: a panic wherever it stands with a colon after it. */
  lemma LargestLengthPanics(b: string, i: nat)
    requires |b| <= MAX_INT && At(b, i, LARGEST + ":")
    ensures ReadBytes(b, i) == Panicked
  {
    LargestIsMaxInt();
    hide Number, LARGEST;
    AtSplit(b, i, LARGEST, ":");
    AtChar(b, i + |LARGEST|, ':');
    DigitsEndIs(b, i, LARGEST);
    PanicsExactlyOnOverflow(b, i);
  }

  const LARGEST: string := Decimal(MAX_INT)

  lemma LargestIsMaxInt()
    ensures AllDigits(LARGEST) && LARGEST != "" && Number(LARGEST) == MAX_INT && |LARGEST| <= MAX_INT / 2
  {
    hide Decimal, Number;
    NumberOfDecimal(MAX_INT);
    DecimalLength(MAX_INT);
  }

  // ---------------------------------------------------------------- soundness

  lemma StrSound(b: string, i: nat) returns (v: Value)
    requires i <= |b| <= MAX_INT && ReadBytes(b, i).Got?
    ensures v.Str? && WellFormed(v) && At(b, i, Encode(v)) && ReadBytes(b, i).next == i + |Encode(v)|
  {
    var Got(text, j) := ReadBytes(b, i);
    ReadBytesExact(b, i, text, j);
    var h :| GoodHeader(h, text) && At(b, i, h + ":" + text) && j == i + |h + ":" + text|;
    v := Str(h, text);
  }

  lemma IntSound(b: string, i: nat) returns (v: Value)
    requires i < |b| <= MAX_INT && b[i] == 'i' && Skip(b, i).Got?
    ensures WellFormed(v) && At(b, i, Encode(v)) && Skip(b, i).next == i + |Encode(v)|
  {
    var j := Find(b, i + 1, 'e');
    v := Int(b[i + 1..j]);
    AtChar(b, j, 'e');
    AtSplit(b, i + 1, b[i + 1..j], "e");
    AtWrapped(b, i, 'i', b[i + 1..j]);
  }

  lemma {:induction false} SkipSound(b: string, i: nat) returns (v: Value)
    requires i <= |b| <= MAX_INT && Skip(b, i).Got?
    ensures WellFormed(v) && At(b, i, Encode(v)) && Skip(b, i).next == i + |Encode(v)|
    decreases |b| - i, 0
  {
    if IsDigit(b[i]) {
      v := StrSound(b, i);
    } else if b[i] == 'i' {
      v := IntSound(b, i);
    } else if b[i] == 'l' {
      var items := SkipItemsSound(b, i + 1);
      v := List(items);
      AtWrapped(b, i, 'l', EncodeItems(items));
    } else {
      var entries := SkipEntriesSound(b, i + 1);
      v := Dict(entries);
      AtWrapped(b, i, 'd', EncodeEntries(entries));
    }
  }

  lemma {:induction false} SkipItemsSound(b: string, i: nat) returns (items: seq<Value>)
    requires i <= |b| <= MAX_INT && SkipItems(b, i).Got?
    ensures WellFormed(List(items))
    ensures At(b, i, EncodeItems(items) + "e") && SkipItems(b, i).next == i + |EncodeItems(items) + "e"|
    decreases |b| - i, 1
  {
    if b[i] == 'e' {
      items := [];
      AtChar(b, i, 'e');
      ItemsUnfold(items);
    } else {
      var x := SkipSound(b, i);
      var rest := SkipItemsSound(b, Skip(b, i).next);
      items := [x] + rest;
      assert items[1..] == rest;
      AtSplit(b, i, Encode(x), EncodeItems(rest) + "e");
      ItemsUnfold(items);
    }
  }

  lemma {:induction false} SkipEntriesSound(b: string, i: nat) returns (entries: seq<Entry>)
    requires i <= |b| <= MAX_INT && SkipEntries(b, i).Got?
    ensures EntriesWellFormed(entries)
    ensures At(b, i, EncodeEntries(entries) + "e") && SkipEntries(b, i).next == i + |EncodeEntries(entries) + "e"|
    decreases |b| - i, 1
  {
    if b[i] == 'e' {
      entries := [];
      AtChar(b, i, 'e');
      EntriesUnfold(entries);
    } else {
      var e := EntrySound(b, i);
      var k := i + |EncodeEntry(e)|;
      var rest := SkipEntriesSound(b, k);
      entries := [e] + rest;
      assert entries[1..] == rest;
      AtSplit(b, i, EncodeEntry(e), EncodeEntries(rest) + "e");
      EntriesUnfold(entries);
    }
  }

  lemma {:induction false} EntrySound(b: string, i: nat) returns (e: Entry)
    requires i <= |b| <= MAX_INT && ReadBytes(b, i).Got? && Skip(b, ReadBytes(b, i).next).Got?
    ensures GoodHeader(e.header, e.key) && WellFormed(e.val) && At(b, i, EncodeEntry(e))
    ensures e.key == ReadBytes(b, i).value
    ensures ReadBytes(b, i).next == i + |e.header + ":" + e.key|
    ensures Skip(b, ReadBytes(b, i).next).next == i + |EncodeEntry(e)|
    ensures At(b, ReadBytes(b, i).next, Encode(e.val))
    decreases |b| - i, 0
  {
    var Got(key, j) := ReadBytes(b, i);
    ReadBytesExact(b, i, key, j);
    var h :| GoodHeader(h, key) && At(b, i, h + ":" + key) && j == i + |h + ":" + key|;
    var v := SkipSound(b, j);
    e := Entry(h, key, v);
    AtSplit(b, i, h + ":" + key, Encode(v));
  }

  // ---------------------------------------------------------------- completeness

  lemma EncodeFirst(v: Value)
    requires WellFormed(v)
    ensures Encode(v) != ""
    ensures IsDigit(Encode(v)[0]) <==> v.Str?
    ensures Encode(v)[0] == 'i' <==> v.Int?
    ensures Encode(v)[0] == 'l' <==> v.List?
    ensures Encode(v)[0] == 'd' <==> v.Dict?
    ensures Encode(v)[0] != 'e'
  {
  }

  lemma AtFirst(b: string, i: nat, s: string)
    requires At(b, i, s) && s != ""
    ensures i < |b| && b[i] == s[0]
  {
  }

  lemma FindIs(b: string, i: nat, d: string, c: char)
    requires At(b, i, d + [c]) && c !in d
    ensures Find(b, i, c) == i + |d|
    decreases |d|
  {
    AtSplit(b, i, d, [c]);
    AtChar(b, i + |d|, c);
    if d != "" {
      assert d == [d[0]] + d[1..];
      assert d + [c] == [d[0]] + (d[1..] + [c]);
      AtSplit(b, i, [d[0]], d[1..] + [c]);
      AtChar(b, i, d[0]);
      FindIs(b, i + 1, d[1..], c);
    }
  }

  lemma {:induction false} SkipComplete(b: string, i: nat, v: Value)
    requires |b| <= MAX_INT && WellFormed(v) && At(b, i, Encode(v))
    ensures Skip(b, i) == Got((), i + |Encode(v)|)
    decreases v, 0
  {
    EncodeFirst(v);
    AtFirst(b, i, Encode(v));
    match v
    case Str(h, t) =>
      ReadBytesExact(b, i, t, i + |h + ":" + t|);
    case Int(d) =>
      AtWrapped(b, i, 'i', d);
      FindIs(b, i + 1, d, 'e');
    case List(items) =>
      AtWrapped(b, i, 'l', EncodeItems(items));
      SkipItemsComplete(b, i + 1, items);
    case Dict(entries) =>
      AtWrapped(b, i, 'd', EncodeEntries(entries));
      SkipEntriesComplete(b, i + 1, entries);
  }

  lemma {:induction false} SkipItemsComplete(b: string, i: nat, items: seq<Value>)
    requires |b| <= MAX_INT && (forall x :: x in items ==> WellFormed(x))
    requires At(b, i, EncodeItems(items) + "e")
    ensures SkipItems(b, i) == Got((), i + |EncodeItems(items) + "e"|)
    decreases items, 1
  {
    hide Encode, EncodeItems, Skip;
    ItemsUnfold(items);
    if items == [] {
      AtChar(b, i, 'e');
    } else {
      hide At, SkipItems;
      var k := i + |Encode(items[0])|;
      AtSplit(b, i, Encode(items[0]), EncodeItems(items[1..]) + "e");
      FirstChar(b, i, items[0]);
      SkipComplete(b, i, items[0]);
      SkipItemsStep(b, i, k);
      SkipItemsComplete(b, k, items[1..]);
    }
  }

  lemma FirstChar(b: string, i: nat, v: Value)
    requires WellFormed(v) && At(b, i, Encode(v))
    ensures i < |b| && i + |Encode(v)| <= |b| && b[i] != 'e'
  {
    EncodeFirst(v);
    AtFirst(b, i, Encode(v));
  }

  lemma SkipItemsStep(b: string, i: nat, j: nat)
    requires i < |b| <= MAX_INT && b[i] != 'e' && j <= |b| && Skip(b, i) == Got((), j)
    ensures SkipItems(b, i) == SkipItems(b, j)
  {
    hide Skip;
  }

  lemma {:induction false} SkipEntriesComplete(b: string, i: nat, entries: seq<Entry>)
    requires |b| <= MAX_INT && EntriesWellFormed(entries)
    requires At(b, i, EncodeEntries(entries) + "e")
    ensures SkipEntries(b, i) == Got((), i + |EncodeEntries(entries) + "e"|)
    decreases entries, 1
  {
    hide Encode, EncodeEntries, EncodeEntry, ReadBytes, Skip;
    if entries == [] {
      EntriesUnfold(entries);
      AtChar(b, i, 'e');
    } else {
      hide At, SkipEntries;
      EntryAt(b, i, entries);
      var j, k := ValueStart(i, entries[0]), i + |EncodeEntry(entries[0])|;
      SkipComplete(b, j, entries[0].val);
      SkipEntriesStep(b, i, j, k);
      SkipEntriesComplete(b, k, entries[1..]);
    }
  }

  lemma SkipEntriesStep(b: string, i: nat, j: nat, k: nat)
    requires i < |b| <= MAX_INT && IsDigit(b[i]) && j <= |b| && k <= |b|
    requires ReadBytes(b, i).Got? && ReadBytes(b, i).next == j && Skip(b, j) == Got((), k)
    ensures SkipEntries(b, i) == SkipEntries(b, k)
  {
    hide Skip, ReadBytes;
  }

  function ValueStart(i: nat, e: Entry): nat { i + |e.header + ":" + e.key| }

  /** Where the parts of the first entry of an encoded dictionary body stand. */
  lemma EntryAt(b: string, i: nat, entries: seq<Entry>)
    requires |b| <= MAX_INT && entries != [] && EntriesWellFormed(entries)
    requires At(b, i, EncodeEntries(entries) + "e")
    ensures |EncodeEntries(entries) + "e"| == |EncodeEntry(entries[0])| + |EncodeEntries(entries[1..]) + "e"|
    ensures var e := entries[0]; var j := ValueStart(i, e);
            && i < |b| && IsDigit(b[i]) && ReadBytes(b, i) == Got(e.key, j)
            && At(b, j, Encode(e.val)) && j + |Encode(e.val)| == i + |EncodeEntry(e)|
            && At(b, i + |EncodeEntry(e)|, EncodeEntries(entries[1..]) + "e")
  {
    hide At, ReadBytes, EncodeEntries, Encode;
    var e := entries[0];
    EntriesUnfold(entries);
    AtSplit(b, i, EncodeEntry(e), EncodeEntries(entries[1..]) + "e");
    AtSplit(b, i, e.header + ":" + e.key, Encode(e.val));
    ReadBytesComplete(b, i, e.header, e.key);
    AtFirst(b, i, e.header + ":" + e.key);
  }

  /** skipValue moves the cursor from i to j exactly when b[i..j] is a value of the grammar. */
  lemma SkipDecidesGrammar(b: string, i: nat, j: nat)
    requires i <= j <= |b| <= MAX_INT
    ensures Skip(b, i) == Got((), j) <==> exists v :: WellFormed(v) && Encode(v) == b[i..j]
  {
    if Skip(b, i) == Got((), j) {
      var v := SkipSound(b, i);
      assert WellFormed(v) && Encode(v) == b[i..j];
    }
    if v :| WellFormed(v) && Encode(v) == b[i..j] {
      SkipComplete(b, i, v);
    }
  }
}
