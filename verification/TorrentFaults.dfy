/** Which files make parseTorrentMeta and TorrentBytesToMagnet fault (core/torrent_bencode.go). */
module TorrentFaults {
  import opened Numerals
  import opened Bencode
  import opened TorrentMeta
  import opened BencodeReader
  import opened Magnet

  /** A length that fits a machine integer stands at i with its colon, and the byte string it announces
      ends beyond the largest integer. */
  ghost predicate Overflows(b: string, i: nat) { exists h :: OverflowsBy(b, i, h) }

  ghost predicate OverflowsBy(b: string, i: nat, h: string) {
    h != "" && AllDigits(h) && At(b, i, h + ":") && MAX_INT - (i + |h| + 1) < Number(h) <= MAX_INT
  }

  lemma OverflowIsPanic(b: string, i: nat)
    requires i <= |b| <= MAX_INT
    ensures ReadBytes(b, i) == Panicked <==> Overflows(b, i)
  {
    PanicsExactlyOnOverflow(b, i);
    hide ReadBytes, Number;
    var j := DigitsEnd(b, i);
    if j < |b| && b[j] == ':' && i < j && MAX_INT - (j + 1) < Number(b[i..j]) <= MAX_INT {
      AtSplit(b, i, b[i..j], ":");
      AtChar(b, j, ':');
      assert OverflowsBy(b, i, b[i..j]);
    }
    if h :| OverflowsBy(b, i, h) {
      AtSplit(b, i, h, ":");
      AtChar(b, i + |h|, ':');
      DigitsEndIs(b, i, h);
    }
  }

  lemma OverflowBegins(b: string, i: nat)
    requires Overflows(b, i)
    ensures i < |b| && IsDigit(b[i])
  {
    var h :| OverflowsBy(b, i, h);
    AtSplit(b, i, h, ":");
    assert b[i] == h[0];
  }

  // ---------------------------------------------------------------- where reading stands

  /** How far a value has been read: the byte string that is due is the value itself, or it is due after
      whole items of a list, after whole entries of a dictionary, or after the key of the next entry. */
  datatype Path =
    | Here
    | InList(items: seq<Value>, rest: Path)
    | AtKey(entries: seq<Entry>)
    | AtValue(entries: seq<Entry>, header: string, key: string, rest: Path)

  /** What has been read behind the first bracket. */
  function Inside(p: Path): string
    decreases p, 0
  {
    match p
    case Here => ""
    case InList(items, rest) => EncodeItems(items) + Prefix(rest)
    case AtKey(entries) => EncodeEntries(entries)
    case AtValue(entries, header, key, rest) => EncodeEntries(entries) + (header + ":" + key + Prefix(rest))
  }

  /** What has been read. */
  function Prefix(p: Path): string
    decreases p, 1
  {
    match p
    case Here => ""
    case InList(_, _) => "l" + Inside(p)
    case AtKey(_) => "d" + Inside(p)
    case AtValue(_, _, _, _) => "d" + Inside(p)
  }

  /** How many brackets are open. */
  function Depth(p: Path): nat {
    match p
    case Here => 0
    case InList(_, rest) => 1 + Depth(rest)
    case AtKey(_) => 1
    case AtValue(_, _, _, rest) => 1 + Depth(rest)
  }

  predicate Whole(p: Path) {
    match p
    case Here => true
    case InList(items, rest) => (forall x :: x in items ==> WellFormed(x)) && Whole(rest)
    case AtKey(entries) => EntriesWellFormed(entries)
    case AtValue(entries, header, key, rest) => EntriesWellFormed(entries) && GoodHeader(header, key) && Whole(rest)
  }

  /** Reading a value from i on comes to an overflow along the path. */
  ghost predicate StopsAt(b: string, i: nat, p: Path) {
    Whole(p) && At(b, i, Prefix(p)) && Overflows(b, i + |Prefix(p)|)
  }

  ghost predicate StopsInside(b: string, i: nat, p: Path) {
    Whole(p) && At(b, i, Inside(p)) && Overflows(b, i + |Inside(p)|)
  }

  // ---------------------------------------------------------------- paths step by step

  function Bracket(p: Path): char { if p.InList? then 'l' else 'd' }

  lemma Opened(b: string, i: nat, p: Path)
    requires !p.Here?
    ensures StopsAt(b, i, p) <==> i < |b| && b[i] == Bracket(p) && StopsInside(b, i + 1, p)
  {
    hide Inside, Overflows, Whole;
    AtSplit(b, i, [Bracket(p)], Inside(p));
    AtChar(b, i, Bracket(p));
  }

  lemma AtHere(b: string, i: nat)
    ensures StopsAt(b, i, Here) <==> i <= |b| && Overflows(b, i)
  {
    hide Overflows;
  }

  lemma NoItem(b: string, i: nat, q: Path)
    ensures StopsInside(b, i, InList([], q)) <==> StopsAt(b, i, q)
  {
    hide Overflows, Prefix;
    assert Inside(InList([], q)) == Prefix(q);
  }

  lemma FirstOfItems(b: string, i: nat, x: Value, items: seq<Value>, q: Path)
    ensures StopsInside(b, i, InList([x] + items, q))
            <==> WellFormed(x) && At(b, i, Encode(x)) && StopsInside(b, i + |Encode(x)|, InList(items, q))
  {
    hide Overflows, Prefix, Encode, WellFormed;
    assert ([x] + items)[1..] == items;
    assert Inside(InList([x] + items, q)) == Encode(x) + Inside(InList(items, q)) by {
      assert Encode(x) + EncodeItems(items) + Prefix(q) == Encode(x) + (EncodeItems(items) + Prefix(q));
    }
    assert Whole(InList([x] + items, q)) <==> WellFormed(x) && Whole(InList(items, q)) by {
      assert x in [x] + items && forall y :: y in items ==> y in [x] + items;
    }
    AtSplit(b, i, Encode(x), Inside(InList(items, q)));
    hide At, Inside, Whole;
  }

  lemma NoEntry(b: string, i: nat)
    ensures StopsInside(b, i, AtKey([])) <==> i <= |b| && Overflows(b, i)
  {
    hide Overflows;
  }

  lemma KeyOnly(b: string, i: nat, h: string, k: string, q: Path)
    ensures StopsInside(b, i, AtValue([], h, k, q))
            <==> GoodHeader(h, k) && At(b, i, h + ":" + k) && StopsAt(b, i + |h + ":" + k|, q)
  {
    hide Overflows, Prefix, GoodHeader;
    assert Inside(AtValue([], h, k, q)) == h + ":" + k + Prefix(q);
    AtSplit(b, i, h + ":" + k, Prefix(q));
  }

  function WithEntry(e: Entry, p: Path): Path
    requires p.AtKey? || p.AtValue?
  {
    if p.AtKey? then AtKey([e] + p.entries) else AtValue([e] + p.entries, p.header, p.key, p.rest)
  }

  lemma WithEntryInside(e: Entry, p: Path)
    requires p.AtKey? || p.AtValue?
    ensures Inside(WithEntry(e, p)) == EncodeEntry(e) + Inside(p)
    ensures Whole(WithEntry(e, p)) <==> GoodHeader(e.header, e.key) && WellFormed(e.val) && Whole(p)
  {
    hide Encode, EncodeEntry, WellFormed, GoodHeader, Prefix;
    assert ([e] + p.entries)[1..] == p.entries;
    assert EncodeEntries([e] + p.entries) == EncodeEntry(e) + EncodeEntries(p.entries);
    assert EntriesWellFormed([e] + p.entries)
           <==> GoodHeader(e.header, e.key) && WellFormed(e.val) && EntriesWellFormed(p.entries) by {
      assert e in [e] + p.entries && forall y :: y in p.entries ==> y in [e] + p.entries;
    }
    hide EncodeEntries, EntriesWellFormed;
    if p.AtValue? {
      Grouped(EncodeEntry(e), EncodeEntries(p.entries), p.header + ":" + p.key + Prefix(p.rest));
    }
  }

  lemma Grouped(a: string, b: string, c: string)
    ensures (a + b) + c == a + (b + c)
  {
  }

  lemma FirstOfEntries(b: string, i: nat, e: Entry, p: Path)
    requires p.AtKey? || p.AtValue?
    ensures StopsInside(b, i, WithEntry(e, p))
            <==> GoodHeader(e.header, e.key) && WellFormed(e.val) && At(b, i, EncodeEntry(e))
                 && StopsInside(b, i + |EncodeEntry(e)|, p)
  {
    hide *;
    WithEntryInside(e, p);
    AtSplit(b, i, EncodeEntry(e), Inside(p));
    StopsInsideIs(b, i, WithEntry(e, p));
    StopsInsideIs(b, i + |EncodeEntry(e)|, p);
  }

  lemma StopsInsideIs(b: string, i: nat, p: Path)
    ensures StopsInside(b, i, p) <==> Whole(p) && At(b, i, Inside(p)) && Overflows(b, i + |Inside(p)|)
  {
  }

  // ---------------------------------------------------------------- skipping

  lemma {:induction false} SkipFault(b: string, i: nat) returns (p: Path)
    requires i <= |b| <= MAX_INT && Skip(b, i) == Panicked
    ensures StopsAt(b, i, p)
    decreases |b| - i, 0
  {
    hide ReadBytes, StopsAt, StopsInside;
    if IsDigit(b[i]) {
      p := Here;
      OverflowIsPanic(b, i);
      AtHere(b, i);
    } else if b[i] == 'l' {
      p := ItemsFault(b, i + 1);
      Opened(b, i, p);
    } else {
      p := EntriesFault(b, i + 1);
      Opened(b, i, p);
    }
  }

  lemma {:induction false} ItemsFault(b: string, i: nat) returns (p: Path)
    requires i <= |b| <= MAX_INT && SkipItems(b, i) == Panicked
    ensures p.InList? && StopsInside(b, i, p)
    decreases |b| - i, 1
  {
    hide Skip, StopsAt, StopsInside;
    if Skip(b, i) == Panicked {
      var q := SkipFault(b, i);
      p := InList([], q);
      NoItem(b, i, q);
    } else {
      var x := SkipSound(b, i);
      var r := ItemsFault(b, Skip(b, i).next);
      p := InList([x] + r.items, r.rest);
      FirstOfItems(b, i, x, r.items, r.rest);
    }
  }

  lemma {:induction false} EntriesFault(b: string, i: nat) returns (p: Path)
    requires i <= |b| <= MAX_INT && SkipEntries(b, i) == Panicked
    ensures (p.AtKey? || p.AtValue?) && StopsInside(b, i, p)
    decreases |b| - i, 1
  {
    hide ReadBytes, Skip, StopsAt, StopsInside;
    if ReadBytes(b, i) == Panicked {
      p := AtKey([]);
      OverflowIsPanic(b, i);
      NoEntry(b, i);
    } else {
      var Got(key, j) := ReadBytes(b, i);
      if Skip(b, j) == Panicked {
        var h := ReadBytesSound(b, i);
        var q := SkipFault(b, j);
        p := AtValue([], h, key, q);
        KeyOnly(b, i, h, key, q);
      } else {
        var e := EntrySound(b, i);
        var r := EntriesFault(b, Skip(b, j).next);
        p := WithEntry(e, r);
        FirstOfEntries(b, i, e, r);
      }
    }
  }

  lemma {:induction false} PathFaults(b: string, i: nat, p: Path)
    requires |b| <= MAX_INT && StopsAt(b, i, p)
    ensures i < |b| && b[i] != 'e' && Skip(b, i) == Panicked
    ensures p.Here? <==> IsDigit(b[i])
    decreases Depth(p), 0
  {
    hide ReadBytes, StopsAt, StopsInside;
    match p
    case Here =>
      AtHere(b, i);
      OverflowBegins(b, i);
      OverflowIsPanic(b, i);
    case InList(items, rest) =>
      Opened(b, i, p);
      ItemsPanic(b, i + 1, items, rest);
    case AtKey(entries) =>
      Opened(b, i, p);
      EntriesPanic(b, i + 1, entries, p);
    case AtValue(entries, _, _, rest) =>
      Opened(b, i, p);
      EntriesPanic(b, i + 1, entries, p);
  }

  lemma {:induction false} ItemsPanic(b: string, i: nat, items: seq<Value>, rest: Path)
    requires |b| <= MAX_INT && StopsInside(b, i, InList(items, rest))
    ensures i <= |b| && SkipItems(b, i) == Panicked
    decreases Depth(rest), |items| + 1
  {
    hide Skip, StopsAt, StopsInside, Encode;
    if items == [] {
      NoItem(b, i, rest);
      PathFaults(b, i, rest);
    } else {
      assert items == [items[0]] + items[1..];
      FirstOfItems(b, i, items[0], items[1..], rest);
      EncodeFirst(items[0]);
      AtFirst(b, i, Encode(items[0]));
      SkipComplete(b, i, items[0]);
      ItemsPanic(b, i + |Encode(items[0])|, items[1..], rest);
    }
  }

  /** p stands for the path behind the entries. */
  function Tail(p: Path): Path
    requires (p.AtKey? || p.AtValue?) && p.entries != []
  {
    if p.AtKey? then AtKey(p.entries[1..]) else AtValue(p.entries[1..], p.header, p.key, p.rest)
  }

  lemma TailIs(p: Path)
    requires (p.AtKey? || p.AtValue?) && p.entries != []
    ensures WithEntry(p.entries[0], Tail(p)) == p
  {
    assert [p.entries[0]] + p.entries[1..] == p.entries;
  }

  lemma {:induction false} EntriesPanic(b: string, i: nat, entries: seq<Entry>, p: Path)
    requires |b| <= MAX_INT && (p.AtKey? || p.AtValue?) && p.entries == entries && StopsInside(b, i, p)
    ensures i <= |b| && SkipEntries(b, i) == Panicked
    decreases Depth(p) - 1, |entries| + 1
  {
    hide ReadBytes, Skip, StopsAt, StopsInside, Encode, EncodeEntry, Tail, WithEntry;
    if entries != [] {
      var e := entries[0];
      TailIs(p);
      TailKeeps(p);
      FirstOfEntries(b, i, e, Tail(p));
      EntryReads(b, i, e);
      EntriesPanic(b, i + |EncodeEntry(e)|, entries[1..], Tail(p));
    } else if p.AtKey? {
      NoEntry(b, i);
      OverflowBegins(b, i);
      OverflowIsPanic(b, i);
    } else {
      KeyOnly(b, i, p.header, p.key, p.rest);
      KeyReads(b, i, p.header, p.key);
      PathFaults(b, i + |p.header + ":" + p.key|, p.rest);
    }
  }

  lemma TailKeeps(p: Path)
    requires (p.AtKey? || p.AtValue?) && p.entries != []
    ensures (Tail(p).AtKey? <==> p.AtKey?) && (Tail(p).AtValue? <==> p.AtValue?) && Tail(p).entries == p.entries[1..]
    ensures p.AtValue? ==> Tail(p).rest == p.rest && Tail(p).key == p.key && Tail(p).header == p.header
  {
  }

  lemma KeyReads(b: string, i: nat, h: string, k: string)
    requires |b| <= MAX_INT && GoodHeader(h, k) && At(b, i, h + ":" + k)
    ensures i < |b| && IsDigit(b[i]) && ReadBytes(b, i) == Got(k, i + |h + ":" + k|)
  {
    ReadBytesComplete(b, i, h, k);
    assert b[i] == (h + ":" + k)[0] == h[0];
  }

  lemma EntryReads(b: string, i: nat, e: Entry)
    requires |b| <= MAX_INT && GoodHeader(e.header, e.key) && WellFormed(e.val) && At(b, i, EncodeEntry(e))
    ensures i < |b| && IsDigit(b[i])
    ensures var j := i + |e.header + ":" + e.key|;
            ReadBytes(b, i) == Got(e.key, j) && At(b, j, Encode(e.val)) && j + |Encode(e.val)| == i + |EncodeEntry(e)|
            && Skip(b, j) == Got((), i + |EncodeEntry(e)|)
  {
    hide ReadBytes, Skip, Encode, WellFormed, GoodHeader;
    AtSplit(b, i, e.header + ":" + e.key, Encode(e.val));
    KeyReads(b, i, e.header, e.key);
    SkipComplete(b, i + |e.header + ":" + e.key|, e.val);
  }

  /** Skipping a value faults exactly when some path leads from its beginning to an overflow. */
  lemma SkipFaultsIff(b: string, i: nat)
    requires i <= |b| <= MAX_INT
    ensures Skip(b, i) == Panicked <==> exists p :: StopsAt(b, i, p)
  {
    hide Skip, StopsAt;
    if Skip(b, i) == Panicked {
      var p := SkipFault(b, i);
    }
    if p :| StopsAt(b, i, p) {
      PathFaults(b, i, p);
    }
  }

  // ---------------------------------------------------------------- the root dictionary

  /** The lists in which the announces are looked for hold byte strings and lists of byte strings, and
      nothing else is read on the way. */
  predicate TierPath(p: Path) {
    p.InList? && AllTiers(p.items)
    && (p.rest.Here? || (p.rest.InList? && AllStr(p.rest.items) && p.rest.rest.Here?))
  }

  /** How far the value of a root key can be read. */
  predicate Allowed(key: string, p: Path) {
    && (key == "announce" ==> p.Here?)
    && (key == "announce-list" && p.InList? ==> TierPath(p))
  }

  predicate RootPath(p: Path) {
    && (p.AtKey? || p.AtValue?) && Readable(p.entries)
    && (p.AtValue? ==> Allowed(p.key, p.rest))
  }

  lemma {:induction false} TierFault(b: string, i: nat) returns (p: Path)
    requires i <= |b| <= MAX_INT && ReadTier(b, i) == Panicked
    ensures p.InList? && AllStr(p.items) && p.rest.Here? && StopsInside(b, i, p)
    decreases |b| - i
  {
    hide ReadBytes, StopsAt, StopsInside;
    if ReadBytes(b, i) == Panicked {
      p := InList([], Here);
      OverflowIsPanic(b, i);
      AtHere(b, i);
      NoItem(b, i, Here);
    } else {
      var x := StrSound(b, i);
      var r := TierFault(b, ReadBytes(b, i).next);
      p := InList([x] + r.items, Here);
      FirstOfItems(b, i, x, r.items, Here);
    }
  }

  lemma {:induction false} TierPanic(b: string, i: nat, items: seq<Value>)
    requires |b| <= MAX_INT && AllStr(items) && StopsInside(b, i, InList(items, Here))
    ensures i <= |b| && ReadTier(b, i) == Panicked
    decreases |items|
  {
    hide ReadBytes, StopsAt, StopsInside, Encode;
    if items == [] {
      NoItem(b, i, Here);
      AtHere(b, i);
      OverflowBegins(b, i);
      OverflowIsPanic(b, i);
    } else {
      assert items == [items[0]] + items[1..] && items[0] in items && forall x :: x in items[1..] ==> x in items;
      FirstOfItems(b, i, items[0], items[1..], Here);
      EncodeFirst(items[0]);
      AtFirst(b, i, Encode(items[0]));
      StrExact(b, i, items[0]);
      TierPanic(b, i + |Encode(items[0])|, items[1..]);
    }
  }

  /** One tier, from its beginning on. */
  lemma TierOrBytesFault(b: string, i: nat) returns (p: Path)
    requires i < |b| <= MAX_INT && ReadTierOrBytes(b, i) == Panicked
    ensures (p.Here? || (p.InList? && AllStr(p.items) && p.rest.Here?)) && StopsAt(b, i, p)
  {
    hide ReadBytes, ReadTier, StopsAt, StopsInside;
    if b[i] == 'l' {
      p := TierFault(b, i + 1);
      Opened(b, i, p);
    } else {
      p := Here;
      OverflowIsPanic(b, i);
      AtHere(b, i);
    }
  }

  lemma TierOrBytesPanic(b: string, i: nat, p: Path)
    requires |b| <= MAX_INT && (p.Here? || (p.InList? && AllStr(p.items) && p.rest.Here?)) && StopsAt(b, i, p)
    ensures i < |b| && b[i] != 'e' && ReadTierOrBytes(b, i) == Panicked
  {
    hide ReadBytes, ReadTier, StopsAt, StopsInside;
    if p.Here? {
      AtHere(b, i);
      OverflowBegins(b, i);
      OverflowIsPanic(b, i);
    } else {
      Opened(b, i, p);
      TierPanic(b, i + 1, p.items);
    }
  }

  lemma {:induction false} TiersFault(b: string, i: nat) returns (p: Path)
    requires i <= |b| <= MAX_INT && ReadTiers(b, i) == Panicked
    ensures TierPath(p) && StopsInside(b, i, p)
    decreases |b| - i
  {
    hide ReadTierOrBytes, StopsAt, StopsInside, IsTier;
    if ReadTierOrBytes(b, i) == Panicked {
      var q := TierOrBytesFault(b, i);
      p := InList([], q);
      NoItem(b, i, q);
    } else {
      var x := TierOrBytesSound(b, i);
      TierOrBytesExact(b, i, x);
      var r := TiersFault(b, ReadTierOrBytes(b, i).next);
      p := InList([x] + r.items, r.rest);
      assert AllTiers(p.items) by { assert forall y :: y in p.items ==> y == x || y in r.items; }
      FirstOfItems(b, i, x, r.items, r.rest);
    }
  }

  lemma {:induction false} TiersPanic(b: string, i: nat, items: seq<Value>, rest: Path)
    requires |b| <= MAX_INT && TierPath(InList(items, rest)) && StopsInside(b, i, InList(items, rest))
    ensures i <= |b| && ReadTiers(b, i) == Panicked
    decreases |items|
  {
    hide ReadTierOrBytes, StopsAt, StopsInside, Encode, IsTier;
    if items == [] {
      NoItem(b, i, rest);
      TierOrBytesPanic(b, i, rest);
    } else {
      assert items == [items[0]] + items[1..] && items[0] in items && forall x :: x in items[1..] ==> x in items;
      FirstOfItems(b, i, items[0], items[1..], rest);
      TierOrBytesExact(b, i, items[0]);
      TiersPanic(b, i + |Encode(items[0])|, items[1..], rest);
    }
  }

  lemma FieldFault(b: string, key: string, j: nat, m: Meta) returns (p: Path)
    requires j <= |b| <= MAX_INT && ReadField(b, key, j, m) == Panicked
    ensures Allowed(key, p) && StopsAt(b, j, p)
  {
    hide ReadBytes, Skip, ReadTiers, StopsAt, StopsInside, TierPath;
    if key == "announce" {
      p := Here;
      OverflowIsPanic(b, j);
      AtHere(b, j);
    } else if key == "announce-list" && j < |b| && b[j] == 'l' {
      p := TiersFault(b, j + 1);
      assert p.InList? by { TierPathIsList(p); }
      Opened(b, j, p);
    } else {
      p := SkipFault(b, j);
      if p.InList? {
        Opened(b, j, p);
      }
    }
  }

  lemma TierPathIsList(p: Path)
    requires TierPath(p)
    ensures p.InList?
  {
  }

  lemma FieldPanic(b: string, key: string, j: nat, m: Meta, p: Path)
    requires |b| <= MAX_INT && Allowed(key, p) && StopsAt(b, j, p)
    ensures j <= |b| && ReadField(b, key, j, m) == Panicked
  {
    hide ReadBytes, Skip, ReadTiers, StopsAt, StopsInside, TierPath;
    if key == "announce" {
      AtHere(b, j);
      OverflowIsPanic(b, j);
    } else if key == "announce-list" && p.InList? {
      Opened(b, j, p);
      TiersPanic(b, j + 1, p.items, p.rest);
    } else {
      PathFaults(b, j, p);
      if !p.Here? { Opened(b, j, p); }
    }
  }

  lemma {:induction false} RootFault(b: string, i: nat, m: Meta) returns (p: Path)
    requires i <= |b| <= MAX_INT && ReadRoot(b, i, m) == Panicked
    ensures RootPath(p) && StopsInside(b, i, p)
    decreases |b| - i
  {
    hide ReadBytes, ReadField, StopsAt, StopsInside, Allowed, ReadableEntry;
    if ReadBytes(b, i) == Panicked {
      p := AtKey([]);
      OverflowIsPanic(b, i);
      NoEntry(b, i);
    } else {
      var Got(key, j) := ReadBytes(b, i);
      if ReadField(b, key, j, m) == Panicked {
        var h := ReadBytesSound(b, i);
        var q := FieldFault(b, key, j, m);
        p := AtValue([], h, key, q);
        KeyOnly(b, i, h, key, q);
      } else {
        var Got(m', k) := ReadField(b, key, j, m);
        var e := ReadableField(b, i, m);
        var r := RootFault(b, k, m');
        p := WithEntry(e, r);
        WithReadable(e, r);
        FirstOfEntries(b, i, e, r);
      }
    }
  }

  /** An entry of the root that is read without an error is readable. */
  lemma ReadableField(b: string, i: nat, m: Meta) returns (e: Entry)
    requires i <= |b| <= MAX_INT && ReadBytes(b, i).Got?
    requires ReadField(b, ReadBytes(b, i).value, ReadBytes(b, i).next, m).Got?
    ensures GoodHeader(e.header, e.key) && WellFormed(e.val) && At(b, i, EncodeEntry(e)) && ReadableEntry(e)
    ensures ReadField(b, ReadBytes(b, i).value, ReadBytes(b, i).next, m).next == i + |EncodeEntry(e)|
  {
    e := FieldSound(b, i, m);
    hide ReadBytes, ReadField, Skip, Encode, WellFormed, GoodHeader, ReadableEntry;
    EntryReads(b, i, e);
    FieldExact(b, i + |e.header + ":" + e.key|, e, m);
  }

  lemma WithReadable(e: Entry, p: Path)
    requires RootPath(p) && ReadableEntry(e)
    ensures RootPath(WithEntry(e, p))
  {
    hide ReadableEntry, Allowed;
    assert forall y :: y in [e] + p.entries ==> y == e || y in p.entries;
  }

  lemma {:induction false} RootPanic(b: string, i: nat, m: Meta, p: Path)
    requires |b| <= MAX_INT && RootPath(p) && StopsInside(b, i, p)
    ensures i <= |b| && ReadRoot(b, i, m) == Panicked
    decreases |p.entries|
  {
    hide ReadBytes, ReadField, StopsAt, StopsInside, Encode, EncodeEntry, Tail, WithEntry, Allowed, ReadableEntry;
    if p.entries != [] {
      var e := p.entries[0];
      TailIs(p);
      TailKeeps(p);
      FirstOfEntries(b, i, e, Tail(p));
      EntryReads(b, i, e);
      ReadableSplits(p.entries);
      var j := i + |e.header + ":" + e.key|;
      FieldExact(b, j, e, m);
      RootStep(b, i, j, e, m);
      RootPanic(b, i + |EncodeEntry(e)|, After(e, m), Tail(p));
    } else if p.AtKey? {
      NoEntry(b, i);
      OverflowBegins(b, i);
      OverflowIsPanic(b, i);
    } else {
      KeyOnly(b, i, p.header, p.key, p.rest);
      KeyReads(b, i, p.header, p.key);
      FieldPanic(b, p.key, i + |p.header + ":" + p.key|, m, p.rest);
    }
  }

  // ---------------------------------------------------------------- whole files

  /** Parsing a file faults exactly when it begins with a root dictionary that can be read as far as a
      place where a byte string is due and whose length overflows there: after whole readable entries,
      or in the value of the next one after whole items and entries of each bracket that is open. */
  lemma MetaFaultsIff(b: string)
    requires |b| <= MAX_INT
    ensures ReadMeta(b) == Panicked <==> exists p :: RootPath(p) && StopsAt(b, 0, p)
  {
    hide ReadRoot, RootPath, StopsAt, StopsInside;
    if ReadMeta(b) == Panicked {
      var p := RootFault(b, 1, Meta("", []));
      RootOpens(p);
      Opened(b, 0, p);
    }
    if p :| RootPath(p) && StopsAt(b, 0, p) {
      RootOpens(p);
      Opened(b, 0, p);
      RootPanic(b, 1, Meta("", []), p);
    }
  }

  lemma RootOpens(p: Path)
    requires RootPath(p)
    ensures p.AtKey? || p.AtValue?
  {
  }

  /** Building the link faults exactly when parsing the file does. */
  lemma MagnetFaultsIff(c: Codec, b: string, withTrackers: bool)
    requires |b| <= MAX_INT
    ensures MagnetOf(c, b, withTrackers) == Panic <==> exists p :: RootPath(p) && StopsAt(b, 0, p)
  {
    MetaFaultsIff(b);
    hide ReadMeta, RootPath, StopsAt, IsTorrent, Readable, NameFromInfo;
    MetaOnlyOfTorrents(b);
    if ReadMeta(b).Got? {
      var ds :| IsTorrent(b, ds) && Readable(ds);
      TorrentGivesMagnet(c, b, ds, withTrackers);
    }
  }

  /** A file in which no length overflows where it stands never makes either of them fault. */
  lemma NoOverflowNoFault(c: Codec, b: string, withTrackers: bool)
    requires |b| <= MAX_INT && forall i :: 0 <= i < |b| ==> !Overflows(b, i)
    ensures ReadMeta(b) != Panicked && MagnetOf(c, b, withTrackers) != Panic
  {
    MetaFaultsIff(b);
    MagnetFaultsIff(c, b, withTrackers);
    if p :| RootPath(p) && StopsAt(b, 0, p) {
      var i := OverflowAtEnd(b, p);
    }
  }

  lemma OverflowAtEnd(b: string, p: Path) returns (i: nat)
    requires StopsAt(b, 0, p)
    ensures i < |b| && Overflows(b, i)
  {
    i := |Prefix(p)|;
    OverflowBegins(b, i);
  }
}
