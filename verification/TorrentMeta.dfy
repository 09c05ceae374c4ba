/** parseTorrentMeta, torrentNameFromInfo and the magnet links built from them
    (core/torrent_bencode.go), as functions of the bytes, with their meaning on the grammar. */
module TorrentMeta {
  import opened Numerals
  import opened Bencode
  import opened Text

  // ---------------------------------------------------------------- what the methods return

  /** The inner loop over one tier of an announce-list. */
  function ReadTier(b: string, i: nat): (r: Read<seq<string>>)
    requires i <= |b| <= MAX_INT
    ensures r.Got? ==> i < r.next <= |b|
    decreases |b| - i
  {
    if i == |b| then Failed
    else if b[i] == 'e' then Got([], i + 1)
    else
      match ReadBytes(b, i)
      case Failed => Failed
      case Panicked => Panicked
      case Got(v, j) =>
        match ReadTier(b, j)
        case Failed => Failed
        case Panicked => Panicked
        case Got(vs, k) => Got([v] + vs, k)
  }

  function ReadTiers(b: string, i: nat): (r: Read<seq<string>>)
    requires i <= |b| <= MAX_INT
    ensures r.Got? ==> i < r.next <= |b|
    decreases |b| - i
  {
    if i == |b| then Failed
    else if b[i] == 'e' then Got([], i + 1)
    else
      match ReadTierOrBytes(b, i)
      case Failed => Failed
      case Panicked => Panicked
      case Got(vs, j) =>
        match ReadTiers(b, j)
        case Failed => Failed
        case Panicked => Panicked
        case Got(ws, k) => Got(vs + ws, k)
  }

  function ReadTierOrBytes(b: string, i: nat): (r: Read<seq<string>>)
    requires i < |b| <= MAX_INT
    ensures r.Got? ==> i < r.next <= |b|
  {
    if b[i] == 'l' then ReadTier(b, i + 1)
    else
      match ReadBytes(b, i)
      case Failed => Failed
      case Panicked => Panicked
      case Got(v, j) => Got([v], j)
  }

  /** A value that is not a list is skipped and contributes nothing. */
  function ReadAnnounceList(b: string, i: nat): (r: Read<seq<string>>)
    requires i <= |b| <= MAX_INT
    ensures r.Got? ==> i < r.next <= |b|
  {
    if i < |b| && b[i] == 'l' then ReadTiers(b, i + 1)
    else
      match Skip(b, i)
      case Failed => Failed
      case Panicked => Panicked
      case Got(_, j) => Got([], j)
  }

  datatype Meta = Meta(info: string, announces: seq<string>)

  /** One value of the root dictionary, read as its key demands. */
  function ReadField(b: string, key: string, j: nat, m: Meta): (r: Read<Meta>)
    requires j <= |b| <= MAX_INT
    ensures r.Got? ==> j < r.next <= |b|
  {
    if key == "announce" then
      match ReadBytes(b, j)
      case Failed => Failed
      case Panicked => Panicked
      case Got(v, k) => Got(m.(announces := m.announces + [v]), k)
    else if key == "announce-list" then
      match ReadAnnounceList(b, j)
      case Failed => Failed
      case Panicked => Panicked
      case Got(vs, k) => Got(m.(announces := m.announces + vs), k)
    else
      match Skip(b, j)
      case Failed => Failed
      case Panicked => Panicked
      case Got(_, k) => Got(if key == "info" then m.(info := b[j..k]) else m, k)
  }

  function ReadRoot(b: string, i: nat, m: Meta): (r: Read<Meta>)
    requires i <= |b| <= MAX_INT
    ensures r.Got? ==> i < r.next <= |b|
    decreases |b| - i
  {
    if i == |b| then Failed
    else if b[i] == 'e' then Got(m, i + 1)
    else
      match ReadBytes(b, i)
      case Failed => Failed
      case Panicked => Panicked
      case Got(key, j) =>
        match ReadField(b, key, j, m)
        case Failed => Failed
        case Panicked => Panicked
        case Got(m', k) => ReadRoot(b, k, m')
  }

  function ReadMeta(b: string): (r: Read<Meta>)
    requires |b| <= MAX_INT
  {
    if b == "" || b[0] != 'd' then Failed else ReadRoot(b, 1, Meta("", []))
  }

  /** The loop of torrentNameFromInfo: any error means no name. */
  function ReadName(b: string, i: nat): (r: Read<string>)
    requires i <= |b| <= MAX_INT
    decreases |b| - i
  {
    if i == |b| || b[i] == 'e' then Got("", i)
    else
      match ReadBytes(b, i)
      case Failed => Got("", i)
      case Panicked => Panicked
      case Got(key, j) =>
        if key == "name" then
          match ReadBytes(b, j)
          case Failed => Got("", i)
          case Panicked => Panicked
          case Got(v, k) => Got(v, k)
        else
          match Skip(b, j)
          case Failed => Got("", i)
          case Panicked => Panicked
          case Got(_, k) => ReadName(b, k)
  }

  function NameFromInfo(info: string): Read<string>
    requires |info| <= MAX_INT
  {
    if info == "" || info[0] != 'd' then Got("", 0) else ReadName(info, 1)
  }

  // ---------------------------------------------------------------- meaning on the grammar

  function Texts(items: seq<Value>): seq<string> {
    if items == [] then []
    else (if items[0].Str? then [items[0].text] else []) + Texts(items[1..])
  }

  predicate AllStr(items: seq<Value>) { forall x :: x in items ==> x.Str? }

  predicate IsTier(x: Value) { x.Str? || (x.List? && AllStr(x.items)) }

  function TextsIn(x: Value): seq<string> {
    match x
    case Str(_, t) => [t]
    case List(inner) => Texts(inner)
    case _ => []
  }

  function TierTexts(items: seq<Value>): seq<string> {
    if items == [] then [] else TextsIn(items[0]) + TierTexts(items[1..])
  }

  /** The announce value is a string; an announce-list, if it is a list, holds strings and lists
      of strings. */
  predicate ReadableEntry(e: Entry) {
    && (e.key == "announce" ==> e.val.Str?)
    && (e.key == "announce-list" && e.val.List? ==> AllTiers(e.val.items))
  }

  predicate Readable(entries: seq<Entry>) { forall e :: e in entries ==> ReadableEntry(e) }

  function AnnouncesIn(e: Entry): seq<string> {
    if e.key == "announce" && e.val.Str? then [e.val.text]
    else if e.key == "announce-list" && e.val.List? then TierTexts(e.val.items)
    else []
  }

  function AnnouncesOf(entries: seq<Entry>): seq<string> {
    if entries == [] then [] else AnnouncesIn(entries[0]) + AnnouncesOf(entries[1..])
  }

  /** The bytes of the last info value, or `otherwise`. */
  function InfoOf(entries: seq<Entry>, otherwise: string): string {
    if entries == [] then otherwise
    else InfoOf(entries[1..], if entries[0].key == "info" then Encode(entries[0].val) else otherwise)
  }

  /** The first name in a dictionary, if it is a string. */
  function NameIn(entries: seq<Entry>): string {
    if entries == [] then ""
    else if entries[0].key == "name" then if entries[0].val.Str? then entries[0].val.text else ""
    else NameIn(entries[1..])
  }

  // ---------------------------------------------------------------- which values are meant

  /** The last value under info. */
  lemma {:induction false} LastInfo(entries: seq<Entry>, otherwise: string, k: nat)
    requires k < |entries| && entries[k].key == "info"
    requires forall j :: k < j < |entries| ==> entries[j].key != "info"
    ensures InfoOf(entries, otherwise) == Encode(entries[k].val)
  {
    var o := if entries[0].key == "info" then Encode(entries[0].val) else otherwise;
    hide Encode;
    if k > 0 {
      assert forall j :: 0 < j < |entries| ==> entries[1..][j - 1] == entries[j];
      LastInfo(entries[1..], o, k - 1);
    } else {
      assert forall j :: 0 <= j < |entries[1..]| ==> entries[1..][j] == entries[j + 1];
      NoInfo(entries[1..], o);
    }
  }

  lemma {:induction false} NoInfo(entries: seq<Entry>, otherwise: string)
    requires forall j :: 0 <= j < |entries| ==> entries[j].key != "info"
    ensures InfoOf(entries, otherwise) == otherwise
  {
    if entries != [] {
      assert forall j :: 0 <= j < |entries[1..]| ==> entries[1..][j] == entries[j + 1];
      NoInfo(entries[1..], otherwise);
    }
  }

  /** The first value under name, when it is a string. */
  lemma {:induction false} FirstName(entries: seq<Entry>, k: nat)
    requires k <= |entries| && (k < |entries| ==> entries[k].key == "name")
    requires forall j :: 0 <= j < k ==> entries[j].key != "name"
    ensures NameIn(entries) == if k < |entries| && entries[k].val.Str? then entries[k].val.text else ""
  {
    if k > 0 {
      assert forall j :: 0 <= j < |entries[1..]| ==> entries[1..][j] == entries[j + 1];
      FirstName(entries[1..], k - 1);
    }
  }

  /** The announces of an entry stand before those of later entries; under announce it is the string, under
      announce-list the strings of all tiers, in order. */
  lemma {:induction false} AnnouncesInOrder(entries: seq<Entry>, more: seq<Entry>)
    ensures AnnouncesOf(entries + more) == AnnouncesOf(entries) + AnnouncesOf(more)
  {
    if entries == [] {
      assert entries + more == more;
    } else {
      assert (entries + more)[1..] == entries[1..] + more;
      AnnouncesInOrder(entries[1..], more);
    }
  }

  lemma AnnouncesOfOne(e: Entry)
    ensures AnnouncesOf([e]) == if e.key == "announce" && e.val.Str? then [e.val.text]
                                else if e.key == "announce-list" && e.val.List? then TierTexts(e.val.items) else []
  {
    assert AnnouncesOf([e][1..]) == [];
  }

  lemma {:induction false} TiersInOrder(items: seq<Value>, more: seq<Value>)
    ensures TierTexts(items + more) == TierTexts(items) + TierTexts(more)
  {
    if items == [] {
      assert items + more == more;
    } else {
      assert (items + more)[1..] == items[1..] + more;
      TiersInOrder(items[1..], more);
    }
  }

  lemma TierOfOne(x: Value)
    requires IsTier(x)
    ensures var t := TierTexts([x]);
            if x.Str? then t == [x.text]
            else |t| == |x.items| && forall i :: 0 <= i < |t| ==> t[i] == x.items[i].text
  {
    assert TierTexts([x][1..]) == [];
    if x.List? {
      TextsOfStrings(x.items);
    }
  }

  lemma {:induction false} TextsOfStrings(items: seq<Value>)
    requires AllStr(items)
    ensures |Texts(items)| == |items| && forall i :: 0 <= i < |items| ==> Texts(items)[i] == items[i].text
  {
    if items != [] {
      assert items[0] in items && forall x :: x in items[1..] ==> x in items;
      TextsOfStrings(items[1..]);
    }
  }

  // ---------------------------------------------------------------- announces

  lemma FirstItem(b: string, i: nat, items: seq<Value>) returns (k: nat)
    requires |b| <= MAX_INT && items != [] && (forall x :: x in items ==> WellFormed(x))
    requires At(b, i, EncodeItems(items) + "e")
    ensures k == i + |Encode(items[0])| && At(b, i, Encode(items[0])) && At(b, k, EncodeItems(items[1..]) + "e")
    ensures |EncodeItems(items) + "e"| == |Encode(items[0])| + |EncodeItems(items[1..]) + "e"|
    ensures i < |b| && (IsDigit(b[i]) <==> items[0].Str?) && b[i] != 'e'
    ensures WellFormed(items[0]) && forall x :: x in items[1..] ==> WellFormed(x)
  {
    k := i + |Encode(items[0])|;
    ItemsUnfold(items);
    AtSplit(b, i, Encode(items[0]), EncodeItems(items[1..]) + "e");
    EncodeFirst(items[0]);
    AtFirst(b, i, Encode(items[0]));
  }

  lemma StrExact(b: string, i: nat, x: Value)
    requires |b| <= MAX_INT && WellFormed(x) && x.Str? && At(b, i, Encode(x))
    ensures ReadBytes(b, i) == Got(x.text, i + |Encode(x)|)
  {
    ReadBytesExact(b, i, x.text, i + |Encode(x)|);
  }

  ghost function TierResult(i: nat, items: seq<Value>): Read<seq<string>> {
    if AllStr(items) then Got(Texts(items), i + |EncodeItems(items) + "e"|) else Failed
  }

  lemma TierResultStep(i: nat, items: seq<Value>)
    requires items != []
    ensures TierResult(i, items)
         == if !items[0].Str? then Failed
            else match TierResult(i + |Encode(items[0])|, items[1..])
                 case Got(vs, k) => Got([items[0].text] + vs, k)
                 case _ => Failed
  {
    ItemsUnfold(items);
    assert AllStr(items) <==> items[0].Str? && AllStr(items[1..]) by { assert items == [items[0]] + items[1..]; }
  }

  lemma {:induction false} TierExact(b: string, i: nat, items: seq<Value>)
    requires |b| <= MAX_INT && (forall x :: x in items ==> WellFormed(x)) && At(b, i, EncodeItems(items) + "e")
    ensures ReadTier(b, i) == TierResult(i, items)
    decreases |items|
  {
    hide ReadBytes, Encode, EncodeItems, WellFormed;
    if items == [] {
      ItemsUnfold(items);
      AtChar(b, i, 'e');
    } else {
      hide At, TierResult;
      var k := FirstItem(b, i, items);
      TierResultStep(i, items);
      if items[0].Str? {
        StrExact(b, i, items[0]);
        TierExact(b, k, items[1..]);
      } else {
        ReadBytesNeedsDigit(b, i);
      }
    }
  }

  lemma TierOrBytesExact(b: string, i: nat, x: Value)
    requires |b| <= MAX_INT && WellFormed(x) && At(b, i, Encode(x))
    ensures i < |b| && b[i] != 'e'
    ensures ReadTierOrBytes(b, i) == if IsTier(x) then Got(TextsIn(x), i + |Encode(x)|) else Failed
  {
    EncodeFirst(x);
    AtFirst(b, i, Encode(x));
    match x
    case Str(h, t) => ReadBytesExact(b, i, t, i + |Encode(x)|);
    case List(inner) =>
      AtWrapped(b, i, 'l', EncodeItems(inner));
      TierExact(b, i + 1, inner);
    case Int(_) => ReadBytesNeedsDigit(b, i);
    case Dict(_) => ReadBytesNeedsDigit(b, i);
  }

  predicate AllTiers(items: seq<Value>) { forall x :: x in items ==> IsTier(x) }

  ghost function TiersResult(i: nat, items: seq<Value>): Read<seq<string>> {
    if AllTiers(items) then Got(TierTexts(items), i + |EncodeItems(items) + "e"|) else Failed
  }

  lemma {:induction false} TiersExact(b: string, i: nat, items: seq<Value>)
    requires |b| <= MAX_INT && (forall x :: x in items ==> WellFormed(x)) && At(b, i, EncodeItems(items) + "e")
    ensures ReadTiers(b, i) == TiersResult(i, items)
    decreases |items|
  {
    hide ReadTierOrBytes, Encode, EncodeItems, WellFormed;
    if items == [] {
      ItemsUnfold(items);
      AtChar(b, i, 'e');
    } else {
      hide At, TextsIn, IsTier;
      var k := FirstItem(b, i, items);
      assert AllTiers(items) <==>
               IsTier(items[0])
               && AllTiers(items[1..]) by { assert items == [items[0]] + items[1..]; }
      TierOrBytesExact(b, i, items[0]);
      if IsTier(items[0]) {
        TiersExact(b, k, items[1..]);
      }
    }
  }

  lemma AnnounceListExact(b: string, i: nat, v: Value)
    requires |b| <= MAX_INT && WellFormed(v) && At(b, i, Encode(v))
    ensures ReadAnnounceList(b, i)
         == if v.List? && !AllTiers(v.items) then Failed
            else Got(if v.List? then TierTexts(v.items) else [], i + |Encode(v)|)
  {
    EncodeFirst(v);
    AtFirst(b, i, Encode(v));
    if v.List? {
      AtWrapped(b, i, 'l', EncodeItems(v.items));
      TiersExact(b, i + 1, v.items);
    } else {
      SkipComplete(b, i, v);
    }
  }

  // ---------------------------------------------------------------- the root dictionary

  function After(e: Entry, m: Meta): Meta {
    Meta(if e.key == "info" then Encode(e.val) else m.info, m.announces + AnnouncesIn(e))
  }

  lemma AnnounceFieldExact(b: string, j: nat, e: Entry, m: Meta)
    requires |b| <= MAX_INT && WellFormed(e.val) && At(b, j, Encode(e.val)) && e.key == "announce"
    ensures ReadField(b, e.key, j, m)
         == if e.val.Str? then Got(After(e, m), j + |Encode(e.val)|) else Failed
  {
    EncodeFirst(e.val);
    AtFirst(b, j, Encode(e.val));
    if e.val.Str? {
      ReadBytesExact(b, j, e.val.text, j + |Encode(e.val)|);
    } else {
      ReadBytesNeedsDigit(b, j);
    }
  }

  lemma FieldExact(b: string, j: nat, e: Entry, m: Meta)
    requires |b| <= MAX_INT && WellFormed(e.val) && At(b, j, Encode(e.val))
    ensures ReadField(b, e.key, j, m)
         == if ReadableEntry(e) then Got(After(e, m), j + |Encode(e.val)|) else Failed
  {
    hide Skip, ReadBytes, ReadAnnounceList, Encode, WellFormed, TierTexts, AllTiers;
    assert m.announces + [] == m.announces;
    if e.key == "announce" {
      AnnounceFieldExact(b, j, e, m);
    } else if e.key == "announce-list" {
      AnnounceListExact(b, j, e.val);
    } else {
      SkipComplete(b, j, e.val);
    }
  }

  /** What reading the rest of an encoded root dictionary must give. */
  ghost function RootResult(i: nat, entries: seq<Entry>, m: Meta): Read<Meta> {
    if Readable(entries) then Got(MetaAfter(entries, m), i + |EncodeEntries(entries) + "e"|) else Failed
  }

  lemma RootResultStep(i: nat, entries: seq<Entry>, m: Meta)
    requires entries != []
    ensures RootResult(i, entries, m)
         == if ReadableEntry(entries[0])
            then RootResult(i + |EncodeEntry(entries[0])|, entries[1..], After(entries[0], m)) else Failed
  {
    ReadableSplits(entries);
    MetaSplits(entries, m);
    EntriesUnfold(entries);
  }

  lemma FirstField(b: string, i: nat, entries: seq<Entry>, m: Meta) returns (k: nat)
    requires |b| <= MAX_INT && entries != [] && EntriesWellFormed(entries) && At(b, i, EncodeEntries(entries) + "e")
    ensures k == i + |EncodeEntry(entries[0])| <= |b|
    ensures EntriesWellFormed(entries[1..]) && At(b, k, EncodeEntries(entries[1..]) + "e")
    ensures ReadRoot(b, i, m) == if ReadableEntry(entries[0]) then ReadRoot(b, k, After(entries[0], m)) else Failed
  {
    hide ReadRoot, ReadField, ReadBytes, Encode, EncodeEntries, EncodeEntry, ReadableEntry, After, WellFormed;
    k := i + |EncodeEntry(entries[0])|;
    var j := ValueStart(i, entries[0]);
    EntryAt(b, i, entries);
    FieldExact(b, j, entries[0], m);
    RootStep(b, i, j, entries[0], m);
  }

  lemma RootBase(b: string, i: nat, m: Meta)
    requires |b| <= MAX_INT && At(b, i, EncodeEntries([]) + "e")
    ensures ReadRoot(b, i, m) == RootResult(i, [], m)
  {
    hide ReadField, ReadBytes, Skip;
    EntriesUnfold([]);
    AtChar(b, i, 'e');
    assert m.announces + [] == m.announces;
  }

  lemma {:induction false} RootExact(b: string, i: nat, entries: seq<Entry>, m: Meta)
    requires |b| <= MAX_INT && EntriesWellFormed(entries) && At(b, i, EncodeEntries(entries) + "e")
    ensures ReadRoot(b, i, m) == RootResult(i, entries, m)
    decreases |entries|
  {
    hide *;
    if entries == [] {
      RootBase(b, i, m);
    } else {
      var k := FirstField(b, i, entries, m);
      RootResultStep(i, entries, m);
      if ReadableEntry(entries[0]) {
        RootExact(b, k, entries[1..], After(entries[0], m));
      }
    }
  }

  function MetaAfter(entries: seq<Entry>, m: Meta): Meta {
    Meta(InfoOf(entries, m.info), m.announces + AnnouncesOf(entries))
  }

  lemma MetaSplits(entries: seq<Entry>, m: Meta)
    requires entries != []
    ensures MetaAfter(entries, m) == MetaAfter(entries[1..], After(entries[0], m))
  {
    assert m.announces + (AnnouncesIn(entries[0]) + AnnouncesOf(entries[1..]))
        == (m.announces + AnnouncesIn(entries[0])) + AnnouncesOf(entries[1..]);
  }

  lemma ReadableSplits(entries: seq<Entry>)
    requires entries != []
    ensures Readable(entries) <==> ReadableEntry(entries[0]) && Readable(entries[1..])
  {
    assert entries == [entries[0]] + entries[1..];
  }

  lemma RootStep(b: string, i: nat, j: nat, e: Entry, m: Meta)
    requires i < |b| <= MAX_INT && IsDigit(b[i]) && ReadBytes(b, i) == Got(e.key, j)
    ensures match ReadField(b, e.key, j, m)
            case Got(m', k) => ReadRoot(b, i, m) == ReadRoot(b, k, m')
            case Failed => ReadRoot(b, i, m) == Failed
            case Panicked => ReadRoot(b, i, m) == Panicked
  {
  }

  lemma FieldValueSound(b: string, key: string, j: nat, m: Meta) returns (v: Value)
    requires j <= |b| <= MAX_INT && ReadField(b, key, j, m).Got?
    ensures WellFormed(v) && At(b, j, Encode(v)) && ReadField(b, key, j, m).next == j + |Encode(v)|
  {
    if key == "announce" {
      v := StrSound(b, j);
    } else if key == "announce-list" && j < |b| && b[j] == 'l' {
      var items := TiersSound(b, j + 1);
      v := List(items);
      AtWrapped(b, j, 'l', EncodeItems(items));
    } else {
      v := SkipSound(b, j);
    }
  }

  lemma FieldSound(b: string, i: nat, m: Meta) returns (e: Entry)
    requires i <= |b| <= MAX_INT && ReadBytes(b, i).Got?
    requires ReadField(b, ReadBytes(b, i).value, ReadBytes(b, i).next, m).Got?
    ensures GoodHeader(e.header, e.key) && WellFormed(e.val) && At(b, i, EncodeEntry(e))
    ensures ReadField(b, ReadBytes(b, i).value, ReadBytes(b, i).next, m).next == i + |EncodeEntry(e)|
  {
    hide ReadBytes, ReadField, WellFormed, Encode, GoodHeader, At;
    var Got(key, j) := ReadBytes(b, i);
    ReadBytesExact(b, i, key, j);
    var h :| GoodHeader(h, key) && At(b, i, h + ":" + key) && j == i + |h + ":" + key|;
    var v := FieldValueSound(b, key, j, m);
    e := Entry(h, key, v);
    AtSplit(b, i, h + ":" + key, Encode(v));
  }

  lemma {:induction false} TierSound(b: string, i: nat) returns (items: seq<Value>)
    requires i <= |b| <= MAX_INT && ReadTier(b, i).Got?
    ensures WellFormed(List(items)) && At(b, i, EncodeItems(items) + "e")
    ensures ReadTier(b, i).next == i + |EncodeItems(items) + "e"|
    decreases |b| - i
  {
    if b[i] == 'e' {
      items := [];
      AtChar(b, i, 'e');
    } else {
      var x := StrSound(b, i);
      var rest := TierSound(b, ReadBytes(b, i).next);
      items := [x] + rest;
      assert items[1..] == rest;
      AtSplit(b, i, Encode(x), EncodeItems(rest) + "e");
    }
    ItemsUnfold(items);
  }

  lemma TierOrBytesSound(b: string, i: nat) returns (x: Value)
    requires i < |b| <= MAX_INT && ReadTierOrBytes(b, i).Got?
    ensures WellFormed(x) && At(b, i, Encode(x)) && ReadTierOrBytes(b, i).next == i + |Encode(x)|
  {
    if b[i] == 'l' {
      var items := TierSound(b, i + 1);
      x := List(items);
      AtWrapped(b, i, 'l', EncodeItems(items));
    } else {
      x := StrSound(b, i);
    }
  }

  lemma {:induction false} TiersSound(b: string, i: nat) returns (items: seq<Value>)
    requires i <= |b| <= MAX_INT && ReadTiers(b, i).Got?
    ensures WellFormed(List(items)) && At(b, i, EncodeItems(items) + "e")
    ensures ReadTiers(b, i).next == i + |EncodeItems(items) + "e"|
    decreases |b| - i
  {
    hide ReadTierOrBytes, Encode, EncodeItems;
    if b[i] == 'e' {
      items := [];
      AtChar(b, i, 'e');
    } else {
      var x := TierOrBytesSound(b, i);
      var rest := TiersSound(b, ReadTierOrBytes(b, i).next);
      items := [x] + rest;
      assert items[1..] == rest;
      AtSplit(b, i, Encode(x), EncodeItems(rest) + "e");
    }
    ItemsUnfold(items);
  }

  lemma {:induction false} RootSound(b: string, i: nat, m: Meta) returns (entries: seq<Entry>)
    requires i <= |b| <= MAX_INT && ReadRoot(b, i, m).Got?
    ensures EntriesWellFormed(entries) && At(b, i, EncodeEntries(entries) + "e")
    decreases |b| - i
  {
    if b[i] == 'e' {
      entries := [];
      AtChar(b, i, 'e');
    } else {
      var e := FieldSound(b, i, m);
      var Got(m', k) := ReadField(b, ReadBytes(b, i).value, ReadBytes(b, i).next, m);
      var rest := RootSound(b, k, m');
      entries := [e] + rest;
      assert entries[1..] == rest;
      AtSplit(b, i, EncodeEntry(e), EncodeEntries(rest) + "e");
    }
    EntriesUnfold(entries);
  }

  /** b begins with the encoding of a root dictionary; what follows it is not looked at. */
  ghost predicate IsTorrent(b: string, entries: seq<Entry>) {
    EntriesWellFormed(entries) && At(b, 0, Encode(Dict(entries)))
  }

  /** On an encoded root dictionary parseTorrentMeta returns the last info value's exact bytes and
      the announces in order, exactly when the announce fields have the expected shape. */
  lemma MetaOfTorrent(b: string, entries: seq<Entry>)
    requires |b| <= MAX_INT && IsTorrent(b, entries)
    ensures if Readable(entries)
            then ReadMeta(b) == Got(Meta(InfoOf(entries, ""), AnnouncesOf(entries)), |Encode(Dict(entries))|)
            else ReadMeta(b) == Failed
  {
    AtWrapped(b, 0, 'd', EncodeEntries(entries));
    RootExact(b, 1, entries, Meta("", []));
    assert MetaAfter(entries, Meta("", [])) == Meta(InfoOf(entries, ""), AnnouncesOf(entries));
  }

  /** Nothing else is accepted. */
  lemma MetaOnlyOfTorrents(b: string)
    requires |b| <= MAX_INT
    ensures ReadMeta(b).Got? <==> exists entries :: IsTorrent(b, entries) && Readable(entries)
  {
    if ReadMeta(b).Got? {
      var entries := RootSound(b, 1, Meta("", []));
      AtWrapped(b, 0, 'd', EncodeEntries(entries));
      MetaOfTorrent(b, entries);
      assert IsTorrent(b, entries) && Readable(entries);
    }
    if entries :| IsTorrent(b, entries) && Readable(entries) {
      MetaOfTorrent(b, entries);
    }
  }

  // ---------------------------------------------------------------- the name

  lemma {:induction false} NameExact(b: string, i: nat, entries: seq<Entry>)
    requires |b| <= MAX_INT && EntriesWellFormed(entries) && At(b, i, EncodeEntries(entries) + "e")
    ensures ReadName(b, i).Got? && ReadName(b, i).value == NameIn(entries)
    decreases |entries|
  {
    hide ReadBytes, Skip, Encode, EncodeEntries, EncodeEntry, WellFormed, GoodHeader;
    if entries == [] {
      EntriesUnfold(entries);
      AtChar(b, i, 'e');
    } else {
      hide At;
      var e := entries[0];
      var j := ValueStart(i, e);
      EntryAt(b, i, entries);
      if e.key == "name" {
        EncodeFirst(e.val);
        AtFirst(b, j, Encode(e.val));
        if e.val.Str? {
          StrExact(b, j, e.val);
        } else {
          ReadBytesNeedsDigit(b, j);
        }
      } else {
        SkipComplete(b, j, e.val);
        NameExact(b, i + |EncodeEntry(e)|, entries[1..]);
      }
    }
  }

  /** The name of an info value, and that looking for it never panics. */
  lemma NameOfInfo(v: Value)
    requires WellFormed(v) && |Encode(v)| <= MAX_INT
    ensures NameFromInfo(Encode(v)).Got?
    ensures NameFromInfo(Encode(v)).value == if v.Dict? then NameIn(v.entries) else ""
  {
    var b := Encode(v);
    EncodeFirst(v);
    if v.Dict? {
      assert At(b, 0, b);
      AtWrapped(b, 0, 'd', EncodeEntries(v.entries));
      NameExact(b, 1, v.entries);
    }
  }

  lemma {:induction false} InfoOfIsEncoding(entries: seq<Entry>, otherwise: string)
    requires EntriesWellFormed(entries)
    ensures InfoOf(entries, otherwise) == otherwise
         || exists e :: e in entries && e.key == "info" && InfoOf(entries, otherwise) == Encode(e.val)
  {
    if entries != [] {
      var o := if entries[0].key == "info" then Encode(entries[0].val) else otherwise;
      InfoOfIsEncoding(entries[1..], o);
      assert forall e :: e in entries[1..] ==> e in entries;
      if InfoOf(entries[1..], o) == o && entries[0].key == "info" {
        assert entries[0] in entries;
      }
    }
  }
}
