/** The cursor methods of bparser (core/torrent_bencode.go).

    Each is proved against the function of the buffer and the cursor that describes it, and so is the
    parse of a whole torrent. */
module BencodeReader {
  import opened Numerals
  import opened Bencode
  import opened TorrentMeta
  import opened Text

  datatype Parsed<+T> = Ok(value: T) | Err | Panic

  /** p is the outcome that the description r of a read asks for; the cursor must then stand at
      `next` when the read succeeded. */
  ghost predicate Agrees<T>(p: Parsed<T>, cursor: nat, r: Read<T>) {
    match r
    case Got(v, next) => p == Ok(v) && cursor == next
    case Failed => p == Err
    case Panicked => p == Panic
  }

  class Reader {
    const b: string
    var i: nat

    constructor (b: string)
      requires |b| <= MAX_INT
      ensures this.b == b && i == 0 && Valid()
    {
      this.b, i := b, 0;
    }

    ghost predicate Valid()
      reads this
    {
      i <= |b| <= MAX_INT
    }

    method ParseBytes() returns (p: Parsed<string>)
      requires Valid()
      modifies this
      ensures Valid() && i >= old(i)
      ensures Agrees(p, i, ReadBytes(b, old(i)))
    {
      var start := i;
      while i < |b| && b[i] != ':'
        invariant Valid() && start <= i && DigitsEnd(b, start) == DigitsEnd(b, i)
      {
        if !IsDigit(b[i]) {
          return Err;
        }
        i := i + 1;
      }
      if i >= |b| {
        return Err;
      }
      if i == start || Number(b[start..i]) > MAX_INT {
        return Err;
      }
      var n := Number(b[start..i]);
      i := i + 1;
      var end := Add64(i, n);
      if end > |b| {
        return Err;
      }
      if end < i {
        return Panic;
      }
      p := Ok(b[i..end]);
      i := end;
    }

    method SkipInt() returns (p: Parsed<()>)
      requires Valid() && i < |b| && b[i] == 'i'
      modifies this
      ensures Valid() && i >= old(i)
      ensures Agrees(p, i, Skip(b, old(i)))
    {
      i := i + 1;
      ghost var start := i;
      while i < |b| && b[i] != 'e'
        invariant Valid() && start <= i && Find(b, start, 'e') == Find(b, i, 'e')
      {
        i := i + 1;
      }
      if i >= |b| {
        return Err;
      }
      i := i + 1;
      p := Ok(());
    }

    method SkipValue() returns (p: Parsed<()>)
      requires Valid()
      modifies this
      ensures Valid() && i >= old(i)
      ensures Agrees(p, i, Skip(b, old(i)))
      decreases |b| - i, 1
    {
      hide ReadBytes, Find;
      if i >= |b| {
        return Err;
      }
      var ch := b[i];
      if IsDigit(ch) {
        var s := ParseBytes();
        p := match s case Ok(_) => Ok(()) case Err => Err case Panic => Panic;
      } else if ch == 'i' {
        p := SkipInt();
      } else if ch == 'l' {
        i := i + 1;
        p := SkipListBody();
      } else if ch == 'd' {
        i := i + 1;
        p := SkipDictBody();
      } else {
        p := Err;
      }
    }

    method SkipListBody() returns (p: Parsed<()>)
      requires Valid()
      modifies this
      ensures Valid() && i >= old(i)
      ensures Agrees(p, i, SkipItems(b, old(i)))
      decreases |b| - i, 2
    {
      hide Skip;
      ghost var start := i;
      while i < |b| && b[i] != 'e'
        invariant Valid() && start <= i && SkipItems(b, start) == SkipItems(b, i)
        decreases |b| - i
      {
        p := SkipValue();
        if !p.Ok? {
          return;
        }
      }
      if i >= |b| {
        return Err;
      }
      i := i + 1;
      p := Ok(());
    }

    method SkipDictBody() returns (p: Parsed<()>)
      requires Valid()
      modifies this
      ensures Valid() && i >= old(i)
      ensures Agrees(p, i, SkipEntries(b, old(i)))
      decreases |b| - i, 2
    {
      hide Skip, ReadBytes;
      ghost var start := i;
      while i < |b| && b[i] != 'e'
        invariant Valid() && start <= i && SkipEntries(b, start) == SkipEntries(b, i)
        decreases |b| - i
      {
        var key := ParseBytes();
        if !key.Ok? {
          return if key.Err? then Err else Panic;
        }
        p := SkipValue();
        if !p.Ok? {
          return;
        }
      }
      if i >= |b| {
        return Err;
      }
      i := i + 1;
      p := Ok(());
    }

    method ParseTier() returns (p: Parsed<seq<string>>)
      requires Valid()
      modifies this
      ensures Valid() && i >= old(i)
      ensures Agrees(p, i, ReadTier(b, old(i)))
    {
      hide ReadBytes, Prefixed;
      ghost var start := i;
      var out: seq<string> := [];
      PrefixedNothing(ReadTier(b, i));
      while i < |b| && b[i] != 'e'
        invariant Valid() && start <= i
        invariant ReadTier(b, start) == Prefixed(out, ReadTier(b, i))
      {
        hide ReadTier;
        TierStep(b, i);
        var v := ParseBytes();
        if !v.Ok? {
          PrefixedFailure(out);
          return if v.Err? then Err else Panic;
        }
        PrefixedTwice(out, [v.value], ReadTier(b, i));
        out := out + [v.value];
      }
      if i >= |b| {
        PrefixedFailure(out);
        return Err;
      }
      PrefixedEnd(out, i + 1);
      i := i + 1;
      p := Ok(out);
    }

    /** One element of an announce-list: a tier or a bare string. */
    method ParseTierOrBytes() returns (p: Parsed<seq<string>>)
      requires Valid() && i < |b|
      modifies this
      ensures Valid() && i >= old(i)
      ensures Agrees(p, i, ReadTierOrBytes(b, old(i)))
    {
      hide ReadBytes, ReadTier;
      if b[i] == 'l' {
        i := i + 1;
        p := ParseTier();
      } else {
        var v := ParseBytes();
        p := match v case Ok(s) => Ok([s]) case Err => Err case Panic => Panic;
      }
    }

    method ParseAnnounceList() returns (p: Parsed<seq<string>>)
      requires Valid()
      modifies this
      ensures Valid() && i >= old(i)
      ensures Agrees(p, i, ReadAnnounceList(b, old(i)))
    {
      hide ReadTierOrBytes, Skip, Prefixed;
      if i >= |b| || b[i] != 'l' {
        var s := SkipValue();
        return match s case Ok(_) => Ok([]) case Err => Err case Panic => Panic;
      }
      i := i + 1;
      ghost var start := i;
      var out: seq<string> := [];
      PrefixedNothing(ReadTiers(b, i));
      while i < |b| && b[i] != 'e'
        invariant Valid() && start <= i
        invariant ReadTiers(b, start) == Prefixed(out, ReadTiers(b, i))
      {
        hide ReadTiers;
        TiersStep(b, i);
        var tier := ParseTierOrBytes();
        if !tier.Ok? {
          PrefixedFailure(out);
          return tier;
        }
        PrefixedTwice(out, tier.value, ReadTiers(b, i));
        out := out + tier.value;
      }
      if i >= |b| {
        PrefixedFailure(out);
        return Err;
      }
      PrefixedEnd(out, i + 1);
      i := i + 1;
      p := Ok(out);
    }
  }

  method ParseTorrentMeta(data: string) returns (p: Parsed<Meta>, name: string)
    requires |data| <= MAX_INT
    ensures ReadMeta(data).Failed? ==> p.Err?
    ensures ReadMeta(data).Panicked? ==> p.Panic?
    ensures ReadMeta(data).Got? ==>
              && |ReadMeta(data).value.info| <= |data|
              && match NameFromInfo(ReadMeta(data).value.info)
                 case Got(n, _) => p == Ok(ReadMeta(data).value) && name == n
                 case Failed => p == Ok(ReadMeta(data).value) && name == ""
                 case Panicked => p == Panic
  {
    hide ReadRoot;
    name := "";
    var r := new Reader(data);
    if |data| == 0 || data[0] != 'd' {
      return Err, "";
    }
    r.i := 1;
    p := ParseRoot(r);
    if p.Ok? {
      ReadMetaInfoFits(data);
      var n := TorrentNameFromInfo(p.value.info);
      if n.Ok? {
        name := n.value;
      } else {
        p := Panic;
      }
    }
  }

  lemma {:induction false} ReadRootInfoFits(b: string, i: nat, m: Meta)
    requires i <= |b| <= MAX_INT && |m.info| <= |b|
    ensures ReadRoot(b, i, m).Got? ==> |ReadRoot(b, i, m).value.info| <= |b|
    decreases |b| - i
  {
    hide ReadBytes, Skip, ReadAnnounceList;
    if i < |b| && b[i] != 'e' && ReadBytes(b, i).Got? {
      var Got(key, j) := ReadBytes(b, i);
      var f := ReadField(b, key, j, m);
      if f.Got? {
        ReadRootInfoFits(b, f.next, f.value);
      }
    }
  }

  lemma ReadMetaInfoFits(b: string)
    requires |b| <= MAX_INT
    ensures ReadMeta(b).Got? ==> |ReadMeta(b).value.info| <= |b|
  {
    if b != "" {
      ReadRootInfoFits(b, 1, Meta("", []));
    }
  }

  /** One field of the root dictionary: the key's own reader runs, and the result is noted. */
  method ParseField(r: Reader, key: string, m: Meta) returns (p: Parsed<Meta>)
    requires r.Valid()
    modifies r
    ensures r.Valid() && r.i >= old(r.i)
    ensures Agrees(p, r.i, ReadField(r.b, key, old(r.i), m))
  {
    hide ReadBytes, Skip, ReadAnnounceList;
    if key == "announce" {
      var v := r.ParseBytes();
      p := match v case Ok(s) => Ok(m.(announces := m.announces + [s])) case Err => Err case Panic => Panic;
    } else if key == "announce-list" {
      var vs := r.ParseAnnounceList();
      p := match vs case Ok(s) => Ok(m.(announces := m.announces + s)) case Err => Err case Panic => Panic;
    } else {
      var start := r.i;
      var s := r.SkipValue();
      if s.Ok? {
        p := Ok(if key == "info" then m.(info := r.b[start..r.i]) else m);
      } else {
        p := if s.Err? then Err else Panic;
      }
    }
  }

  method ParseRoot(r: Reader) returns (p: Parsed<Meta>)
    requires r.Valid()
    modifies r
    ensures r.Valid()
    ensures Agrees(p, r.i, ReadRoot(r.b, old(r.i), Meta("", [])))
  {
    hide ReadBytes, ReadField;
    var m := Meta("", []);
    ghost var start := r.i;
    while r.i < |r.b| && r.b[r.i] != 'e'
      invariant r.Valid() && start <= r.i
      invariant ReadRoot(r.b, start, Meta("", [])) == ReadRoot(r.b, r.i, m)
      decreases |r.b| - r.i
    {
      var key := r.ParseBytes();
      if !key.Ok? {
        return if key.Err? then Err else Panic;
      }
      p := ParseField(r, key.value, m);
      if !p.Ok? {
        return;
      }
      m := p.value;
    }
    if r.i >= |r.b| {
      return Err;
    }
    r.i := r.i + 1;
    p := Ok(m);
  }

  method TorrentNameFromInfo(info: string) returns (p: Parsed<string>)
    requires |info| <= MAX_INT
    ensures match NameFromInfo(info) case Got(n, _) => p == Ok(n) case Failed => p == Ok("") case Panicked => p == Panic
  {
    hide ReadBytes, Skip;
    if |info| == 0 || info[0] != 'd' {
      return Ok("");
    }
    var r := new Reader(info);
    r.i := 1;
    while r.i < |r.b| && r.b[r.i] != 'e'
      invariant r.Valid() && fresh(r) && 1 <= r.i && r.b == info
      invariant SameName(ReadName(info, 1), ReadName(info, r.i))
      decreases |r.b| - r.i
    {
      var key := r.ParseBytes();
      if !key.Ok? {
        return if key.Err? then Ok("") else Panic;
      }
      if key.value == "name" {
        p := r.ParseBytes();
        if p.Err? {
          p := Ok("");
        }
        return;
      }
      var s := r.SkipValue();
      if !s.Ok? {
        return if s.Err? then Ok("") else Panic;
      }
    }
    p := Ok("");
  }

  ghost predicate SameName(x: Read<string>, y: Read<string>) {
    (x.Got? <==> y.Got?) && (x.Got? ==> x.value == y.value) && (x.Panicked? <==> y.Panicked?)
  }

  /** The list `out` read so far, put before what remains to be read. */
  ghost function Prefixed(out: seq<string>, r: Read<seq<string>>): Read<seq<string>> {
    match r
    case Got(vs, k) => Got(out + vs, k)
    case Failed => Failed
    case Panicked => Panicked
  }

  lemma PrefixedNothing(r: Read<seq<string>>)
    ensures Prefixed([], r) == r
  {
    if r.Got? { assert [] + r.value == r.value; }
  }

  lemma PrefixedTwice(out: seq<string>, vs: seq<string>, r: Read<seq<string>>)
    ensures Prefixed(out, Prefixed(vs, r)) == Prefixed(out + vs, r)
  {
    if r.Got? { assert out + (vs + r.value) == (out + vs) + r.value; }
  }

  lemma PrefixedFailure(out: seq<string>)
    ensures Prefixed(out, Failed) == Failed && Prefixed(out, Panicked) == Panicked
  {
  }

  lemma PrefixedEnd(out: seq<string>, k: nat)
    ensures Prefixed(out, Got([], k)) == Got(out, k)
  {
    assert out + [] == out;
  }

  lemma TierStep(b: string, i: nat)
    requires i < |b| <= MAX_INT && b[i] != 'e'
    ensures match ReadBytes(b, i)
            case Got(v, j) => ReadTier(b, i) == Prefixed([v], ReadTier(b, j))
            case Failed => ReadTier(b, i) == Failed
            case Panicked => ReadTier(b, i) == Panicked
  {
  }

  lemma TiersStep(b: string, i: nat)
    requires i < |b| <= MAX_INT && b[i] != 'e'
    ensures match ReadTierOrBytes(b, i)
            case Got(vs, j) => ReadTiers(b, i) == Prefixed(vs, ReadTiers(b, j))
            case Failed => ReadTiers(b, i) == Failed
            case Panicked => ReadTiers(b, i) == Panicked
  {
  }
}
