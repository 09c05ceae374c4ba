/** Magnet links built from a .torrent (core/torrent_bencode.go), and what they depend on. */
module Magnet {
  import opened Numerals
  import opened Bencode
  import opened TorrentMeta
  import opened BencodeReader
  import opened Text

  /** The library functions a magnet passes through; nothing is assumed about them. */
  datatype Codec = Codec(trim: string -> string, lower: string -> string,
                         escape: string -> string, sha1Hex: string -> string)

  /** Trimmed announces, blanks dropped, only the first of equal ones kept. */
  function Unique(c: Codec, announces: seq<string>): seq<string> {
    if announces == [] then []
    else
      var u := Unique(c, announces[..|announces| - 1]);
      var t := c.trim(announces[|announces| - 1]);
      if t == "" || t in u then u else u + [t]
  }

  function JoinAmp(parts: seq<string>): string {
    if parts == [] then "" else if |parts| == 1 then parts[0] else parts[0] + "&" + JoinAmp(parts[1..])
  }

  function TrackerParts(c: Codec, trackers: seq<string>): seq<string> {
    seq(|trackers|, i requires 0 <= i < |trackers| => "tr=" + c.escape(trackers[i]))
  }

  function HeadParts(c: Codec, hexHash: string, name: string): seq<string> {
    ["magnet:?xt=urn:btih:" + c.lower(c.trim(hexHash))]
    + if c.trim(name) != "" then ["dn=" + c.escape(name)] else []
  }

  function MagnetLink(c: Codec, hexHash: string, name: string, announces: seq<string>): string {
    if c.trim(hexHash) == "" then ""
    else JoinAmp(HeadParts(c, hexHash, name) + TrackerParts(c, Sort(Unique(c, announces))))
  }

  /** The trackers as they stand at the end of a link. */
  function Trackers(c: Codec, ts: seq<string>): string {
    if ts == [] then "" else "&tr=" + c.escape(ts[0]) + Trackers(c, ts[1..])
  }

  /** ts are the trimmed announces that are not blank, each once and in rising order. */
  ghost predicate RisingAnnounces(c: Codec, announces: seq<string>, ts: seq<string>) {
    && (forall t :: t in ts <==> t != "" && exists a :: a in announces && c.trim(a) == t)
    && (forall i, j :: 0 <= i < j < |ts| ==> Less(ts[i], ts[j]))
  }

  /** The link of a hash, a name and trackers. */
  function Link(c: Codec, hexHash: string, name: string, ts: seq<string>): string {
    "magnet:?xt=urn:btih:" + c.lower(c.trim(hexHash)) + (if c.trim(name) != "" then "&dn=" + c.escape(name) else "")
    + Trackers(c, ts)
  }

  method BuildTorrentMagnet(c: Codec, hexHash: string, name: string, announces: seq<string>) returns (m: string)
    ensures m == MagnetLink(c, hexHash, name, announces)
    ensures c.trim(hexHash) == "" ==> m == ""
    ensures c.trim(hexHash) != "" ==> exists ts :: RisingAnnounces(c, announces, ts) && m == Link(c, hexHash, name, ts)
  {
    if c.trim(hexHash) == "" {
      return "";
    }
    ghost var ts := LinkMeans(c, hexHash, name, announces);
    var parts := ["magnet:?xt=urn:btih:" + c.lower(c.trim(hexHash))];
    if c.trim(name) != "" {
      parts := parts + ["dn=" + c.escape(name)];
    }
    var seen: set<string> := {};
    var uniq: seq<string> := [];
    var i := 0;
    while i < |announces|
      invariant 0 <= i <= |announces| && uniq == Unique(c, announces[..i])
      invariant forall t :: t in seen <==> t in uniq
    {
      assert announces[..i + 1][..i] == announces[..i];
      var tr := c.trim(announces[i]);
      if tr != "" && tr !in seen {
        seen := seen + {tr};
        uniq := uniq + [tr];
      }
      i := i + 1;
    }
    assert announces[..i] == announces;
    uniq := Sort(uniq);
    ghost var head := parts;
    i := 0;
    while i < |uniq|
      invariant 0 <= i <= |uniq| && parts == head + TrackerParts(c, uniq)[..i]
    {
      parts := parts + ["tr=" + c.escape(uniq[i])];
      i := i + 1;
    }
    assert TrackerParts(c, uniq)[..i] == TrackerParts(c, uniq);
    assert head == HeadParts(c, hexHash, name);
    m := JoinAmp(parts);
  }

  /** The announces that reach the link: the trimmed ones that are not blank. */
  ghost function Announced(c: Codec, announces: seq<string>): set<string> {
    set a | a in announces && c.trim(a) != "" :: c.trim(a)
  }

  lemma {:induction false} UniqueContents(c: Codec, announces: seq<string>)
    ensures NoDuplicates(Unique(c, announces))
    ensures forall t :: t in Unique(c, announces) <==> t in Announced(c, announces)
  {
    if announces != [] {
      var n := |announces| - 1;
      UniqueContents(c, announces[..n]);
      assert announces == announces[..n] + [announces[n]];
      assert Announced(c, announces)
          == Announced(c, announces[..n]) + if c.trim(announces[n]) != "" then {c.trim(announces[n])} else {};
    }
  }

  lemma SortedUniqueContents(c: Codec, announces: seq<string>)
    ensures Sorted(Sort(Unique(c, announces))) && NoDuplicates(Sort(Unique(c, announces)))
    ensures forall t :: t in Sort(Unique(c, announces)) <==> t in Announced(c, announces)
  {
    var u := Unique(c, announces);
    UniqueContents(c, announces);
    SortSorts(u);
    SameMembers(Sort(u), u);
    SameMultisetNoDuplicates(u, Sort(u));
  }

  lemma {:induction false} JoinHeadTail(parts: seq<string>, more: seq<string>)
    requires parts != []
    ensures JoinAmp(parts + more) == JoinAmp(parts) + if more == [] then "" else "&" + JoinAmp(more)
  {
    if |parts| == 1 {
      assert (parts + more)[1..] == more && (more == [] ==> parts + more == parts);
    } else {
      assert (parts + more)[1..] == parts[1..] + more;
      JoinHeadTail(parts[1..], more);
    }
  }

  lemma {:induction false} JoinTrackers(c: Codec, ts: seq<string>)
    ensures (if ts == [] then "" else "&" + JoinAmp(TrackerParts(c, ts))) == Trackers(c, ts)
  {
    if ts != [] {
      var parts := TrackerParts(c, ts);
      assert parts == ["tr=" + c.escape(ts[0])] + TrackerParts(c, ts[1..]);
      JoinTrackers(c, ts[1..]);
      JoinHeadTail(["tr=" + c.escape(ts[0])], TrackerParts(c, ts[1..]));
      assert Trackers(c, ts) == "&tr=" + c.escape(ts[0]) + Trackers(c, ts[1..]);
      assert "&" + ("tr=" + c.escape(ts[0])) == "&tr=" + c.escape(ts[0]);
    }
  }

  lemma JoinHead(c: Codec, hexHash: string, name: string)
    ensures HeadParts(c, hexHash, name) != []
    ensures JoinAmp(HeadParts(c, hexHash, name))
         == "magnet:?xt=urn:btih:" + c.lower(c.trim(hexHash))
             + (if c.trim(name) != "" then "&dn=" + c.escape(name) else "")
  {
    var first := "magnet:?xt=urn:btih:" + c.lower(c.trim(hexHash));
    assert JoinAmp([first]) == first;
    if c.trim(name) != "" {
      JoinHeadTail([first], ["dn=" + c.escape(name)]);
      assert "&" + ("dn=" + c.escape(name)) == "&dn=" + c.escape(name);
    }
  }

  /** What the link says: the hash, then the name if there is one, then the trackers. */
  lemma LinkMeans(c: Codec, hexHash: string, name: string, announces: seq<string>) returns (ts: seq<string>)
    requires c.trim(hexHash) != ""
    ensures RisingAnnounces(c, announces, ts) && MagnetLink(c, hexHash, name, announces) == Link(c, hexHash, name, ts)
  {
    ts := Sort(Unique(c, announces));
    SortedUniqueContents(c, announces);
    hide JoinAmp, HeadParts, TrackerParts, Trackers, Less, Sort, Unique;
    JoinHead(c, hexHash, name);
    JoinHeadTail(HeadParts(c, hexHash, name), TrackerParts(c, ts));
    JoinTrackers(c, ts);
    NoParts(c, ts);
  }

  lemma NoParts(c: Codec, ts: seq<string>)
    ensures TrackerParts(c, ts) == [] <==> ts == []
  {
    assert |TrackerParts(c, ts)| == |ts|;
  }

  /** Order and repetition of announces do not matter, only which ones there are. */
  lemma MagnetDependsOnAnnounceSet(c: Codec, hexHash: string, name: string, a: seq<string>, b: seq<string>)
    requires Announced(c, a) == Announced(c, b)
    ensures MagnetLink(c, hexHash, name, a) == MagnetLink(c, hexHash, name, b)
  {
    SortedUniqueContents(c, a);
    SortedUniqueContents(c, b);
    SortedUnique(Sort(Unique(c, a)), Sort(Unique(c, b)));
  }

  /** The outcome for a .torrent: a link, an error, or a panic. */
  function MagnetOf(c: Codec, data: string, withTrackers: bool): Parsed<string>
    requires |data| <= MAX_INT
  {
    match ReadMeta(data)
    case Failed => Err
    case Panicked => Panic
    case Got(m, _) =>
      assert |m.info| <= MAX_INT by { ReadMetaInfoFits(data); }
      match NameFromInfo(m.info)
      case Panicked => Panic
      case named =>
        var name := if named.Got? then named.value else "";
        if m.info == "" then Err
        else Ok(MagnetLink(c, c.sha1Hex(m.info), name, if withTrackers then m.announces else []))
  }

  method TorrentBytesToMagnet(c: Codec, data: string, withTrackers: bool) returns (p: Parsed<string>)
    requires |data| <= MAX_INT
    ensures p == MagnetOf(c, data, withTrackers)
  {
    var meta, name := ParseTorrentMeta(data);
    match meta
    case Err => p := Err;
    case Panic => p := Panic;
    case Ok(m) =>
      if m.info == "" {
        p := Err;
      } else {
        var link := BuildTorrentMagnet(c, c.sha1Hex(m.info), name, if withTrackers then m.announces else []);
        p := Ok(link);
      }
  }

  /** The link without trackers is the same for any two torrents with the same info value: nothing
      else in the file, the announces in particular, can reach it. */
  lemma BareMagnetDependsOnInfo(c: Codec, d: string, e: string, ds: seq<Entry>, es: seq<Entry>)
    requires |d| <= MAX_INT && |e| <= MAX_INT && IsTorrent(d, ds) && IsTorrent(e, es)
    requires Readable(ds) && Readable(es) && InfoOf(ds, "") == InfoOf(es, "")
    ensures MagnetOf(c, d, false) == MagnetOf(c, e, false)
  {
    MetaOfTorrent(d, ds);
    MetaOfTorrent(e, es);
  }

  /** The full link depends on nothing more than the set of announces. */
  lemma FullMagnetDependsOnInfoAndAnnounces(c: Codec, d: string, e: string, ds: seq<Entry>, es: seq<Entry>)
    requires |d| <= MAX_INT && |e| <= MAX_INT && IsTorrent(d, ds) && IsTorrent(e, es)
    requires Readable(ds) && Readable(es) && InfoOf(ds, "") == InfoOf(es, "")
    requires Announced(c, AnnouncesOf(ds)) == Announced(c, AnnouncesOf(es))
    ensures MagnetOf(c, d, true) == MagnetOf(c, e, true)
  {
    hide ReadMeta, NameFromInfo, MagnetLink, IsTorrent, Readable, InfoOf, AnnouncesOf, Announced, Encode;
    MetaOfTorrent(d, ds);
    MetaOfTorrent(e, es);
    ReadMetaInfoFits(d);
    var info := InfoOf(ds, "");
    var named := NameFromInfo(info);
    MagnetDependsOnAnnounceSet(c, c.sha1Hex(info), if named.Got? then named.value else "",
                               AnnouncesOf(ds), AnnouncesOf(es));
  }

  /** A torrent with an info value gives a link and never a panic. */
  lemma TorrentGivesMagnet(c: Codec, d: string, ds: seq<Entry>, withTrackers: bool)
    requires |d| <= MAX_INT && IsTorrent(d, ds) && Readable(ds)
    ensures MagnetOf(c, d, withTrackers).Ok? <==> exists e :: e in ds && e.key == "info"
    ensures !MagnetOf(c, d, withTrackers).Panic?
  {
    MetaOfTorrent(d, ds);
    ReadMetaInfoFits(d);
    InfoOfIsEncoding(ds, "");
    InfoOfPresent(ds, "");
    if e :| e in ds && e.key == "info" && InfoOf(ds, "") == Encode(e.val) {
      NameOfInfo(e.val);
    }
  }

  lemma {:induction false} InfoOfPresent(entries: seq<Entry>, otherwise: string)
    requires EntriesWellFormed(entries)
    ensures InfoOf(entries, otherwise) != ""
            <==> otherwise != "" || exists e :: e in entries && e.key == "info"
  {
    if entries != [] {
      EncodeFirst(entries[0].val);
      assert entries == [entries[0]] + entries[1..];
      InfoOfPresent(entries[1..], if entries[0].key == "info" then Encode(entries[0].val) else otherwise);
    }
  }

  /** The file d9223372036854775807: makes the whole function panic, with or without trackers. */
  lemma OverflowTorrentPanics(c: Codec, withTrackers: bool)
    ensures var data := "d" + LARGEST + ":";
            |data| <= MAX_INT && ReadMeta(data) == Panicked && MagnetOf(c, data, withTrackers) == Panic
  {
    LargestIsMaxInt();
    LargestPanics(c, LARGEST, withTrackers);
  }

  lemma LargestPanics(c: Codec, h: string, withTrackers: bool)
    requires h == LARGEST != "" && IsDigit(h[0]) && |h| <= MAX_INT / 2
    ensures var data := "d" + h + ":";
            |data| <= MAX_INT && ReadMeta(data) == Panicked && MagnetOf(c, data, withTrackers) == Panic
  {
    hide ReadBytes, ReadField, NameFromInfo, LARGEST;
    var data := "d" + h + ":";
    assert data[1] == h[0];
    assert data[1..1 + |h + ":"|] == h + ":";
    LargestLengthPanics(data, 1);
  }

  /** What the link of a torrent says: the hash of the last info value's own bytes, its name, and the
      announces in the file, or none of them. */
  lemma TorrentLinkMeans(c: Codec, d: string, ds: seq<Entry>, k: nat, withTrackers: bool) returns (ts: seq<string>)
    requires |d| <= MAX_INT && IsTorrent(d, ds) && Readable(ds)
    requires k < |ds| && ds[k].key == "info" && forall j :: k < j < |ds| ==> ds[j].key != "info"
    requires c.trim(c.sha1Hex(Encode(ds[k].val))) != ""
    ensures RisingAnnounces(c, if withTrackers then AnnouncesOf(ds) else [], ts)
    ensures MagnetOf(c, d, withTrackers)
         == Ok(Link(c, c.sha1Hex(Encode(ds[k].val)), if ds[k].val.Dict? then NameIn(ds[k].val.entries) else "", ts))
  {
    hide ReadMeta, NameFromInfo, MagnetLink, IsTorrent, Readable, InfoOf, AnnouncesOf, RisingAnnounces, Link, Encode;
    MetaOfTorrent(d, ds);
    ReadMetaInfoFits(d);
    LastInfo(ds, "", k);
    var info := Encode(ds[k].val);
    InfoWellFormed(d, ds, k);
    NameOfInfo(ds[k].val);
    var name := if ds[k].val.Dict? then NameIn(ds[k].val.entries) else "";
    ts := LinkMeans(c, c.sha1Hex(info), name, if withTrackers then AnnouncesOf(ds) else []);
  }

  lemma InfoWellFormed(d: string, ds: seq<Entry>, k: nat)
    requires IsTorrent(d, ds) && k < |ds|
    ensures WellFormed(ds[k].val) && Encode(ds[k].val) != ""
  {
    assert ds[k] in ds;
    EncodeFirst(ds[k].val);
  }

  /** A file with one announce and one info dictionary, which has a name and nothing else. */
  function Small(ht: string, t: string, hn: string, n: string): seq<Entry> {
    [Entry("8", "announce", Str(ht, t)), Entry("4", "info", Dict([Entry("4", "name", Str(hn, n))]))]
  }

  lemma OneDigit(h: string, t: string)
    requires (h == "4" && |t| == 4) || (h == "8" && |t| == 8)
    ensures GoodHeader(h, t)
  {
    assert h[..0] == "";
    assert Number(h[..0]) == 0;
  }

  lemma EncodedTwo(e: Entry, f: Entry)
    ensures EncodeEntries([e, f]) == EncodeEntry(e) + EncodeEntry(f) && EncodeEntries([e]) == EncodeEntry(e)
  {
    hide EncodeEntry;
    assert [e, f][1..] == [f] && [e][1..] == [] && [f][1..] == [];
    assert EncodeEntries([f]) == EncodeEntry(f);
  }

  lemma Wrapped(a: string, b: string, c: string)
    ensures "d" + (a + b) + c == "d" + a + b + c
  {
  }

  lemma SmallEncoded(ht: string, t: string, hn: string, n: string)
    ensures var info := "d" + ("4:name" + (hn + ":" + n)) + "e";
            && Encode(Small(ht, t, hn, n)[1].val) == info
            && Encode(Dict(Small(ht, t, hn, n))) == "d" + ("8:announce" + (ht + ":" + t) + ("4:info" + info)) + "e"
  {
    var ds := Small(ht, t, hn, n);
    EncodedTwo(ds[0], ds[1]);
    EncodedTwo(ds[1].val.entries[0], ds[0]);
    hide EncodeEntries;
    assert "4" + ":" + "name" == "4:name" && "4" + ":" + "info" == "4:info" && "8" + ":" + "announce" == "8:announce";
  }

  lemma SmallIsTorrent(d: string, ht: string, t: string, hn: string, n: string)
    requires GoodHeader(ht, t) && GoodHeader(hn, n) && d == Encode(Dict(Small(ht, t, hn, n)))
    ensures IsTorrent(d, Small(ht, t, hn, n)) && Readable(Small(ht, t, hn, n))
    ensures AnnouncesOf(Small(ht, t, hn, n)) == [t] && NameIn(Small(ht, t, hn, n)[1].val.entries) == n
  {
    var ds := Small(ht, t, hn, n);
    OneDigit("8", "announce");
    OneDigit("4", "info");
    OneDigit("4", "name");
    AnnouncesInOrder([ds[0]], [ds[1]]);
    AnnouncesOfOne(ds[0]);
    AnnouncesOfOne(ds[1]);
    FirstName(ds[1].val.entries, 0);
    hide GoodHeader, Encode, AnnouncesOf, NameIn;
    assert ds == [ds[0]] + [ds[1]];
    assert WellFormed(Str(hn, n)) && WellFormed(Str(ht, t)) && WellFormed(ds[1].val);
    assert d[0..|d|] == d;
  }

  /** One kind of torrent and its two links written out, for any announce and name. */
  lemma SmallTorrentLinks(c: Codec, d: string, ht: string, t: string, hn: string, n: string)
    requires |d| <= MAX_INT && GoodHeader(ht, t) && GoodHeader(hn, n)
    requires var info := "d" + ("4:name" + (hn + ":" + n)) + "e";
             && d == "d" + ("8:announce" + (ht + ":" + t) + ("4:info" + info)) + "e"
             && c.trim(c.sha1Hex(info)) != "" && c.trim(n) != "" && c.trim(t) != ""
    ensures var info := "d" + ("4:name" + (hn + ":" + n)) + "e";
            var bare := "magnet:?xt=urn:btih:" + c.lower(c.trim(c.sha1Hex(info))) + ("&dn=" + c.escape(n));
            MagnetOf(c, d, false) == Ok(bare) && MagnetOf(c, d, true) == Ok(bare + ("&tr=" + c.escape(c.trim(t))))
  {
    hide MagnetOf, IsTorrent, Readable, AnnouncesOf, NameIn, GoodHeader, Encode;
    SmallEncoded(ht, t, hn, n);
    SmallIsTorrent(d, ht, t, hn, n);
    var ds := Small(ht, t, hn, n);
    var info := Encode(ds[1].val);
    var with := TorrentLinkMeans(c, d, ds, 1, true);
    var bare := TorrentLinkMeans(c, d, ds, 1, false);
    OneRising(c, t, with);
    SameEmptiness(bare, []);
    OneTracker(c, c.trim(t));
    NoTracker(c, "magnet:?xt=urn:btih:" + c.lower(c.trim(c.sha1Hex(info))) + ("&dn=" + c.escape(n)));
  }

  lemma NoTracker(c: Codec, head: string)
    ensures head + Trackers(c, []) == head
  {
  }

  lemma OneTracker(c: Codec, t: string)
    ensures Trackers(c, [t]) == "&tr=" + c.escape(t)
  {
    assert [t][1..] == [];
  }

  lemma FirstTwo(ts: seq<string>)
    requires forall i, j :: 0 <= i < j < |ts| ==> Less(ts[i], ts[j])
    ensures |ts| > 1 ==> ts[0] in ts && ts[1] in ts && Less(ts[0], ts[1])
  {
  }

  lemma OneRising(c: Codec, t: string, ts: seq<string>)
    requires RisingAnnounces(c, [t], ts) && c.trim(t) != ""
    ensures ts == [c.trim(t)]
  {
    LessIrreflexive(c.trim(t));
    assert t in [t] && c.trim(t) in ts;
    assert forall x :: x in ts ==> x == c.trim(t);
    FirstTwo(ts);
  }
}
