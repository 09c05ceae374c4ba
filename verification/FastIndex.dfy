/** The inverted index over the keys of the store: built by RebuildIndexes (filedb/filedb.go), kept by
    every save (filedb/writebucket.go) and every removal (filedb/admin.go). */
module FastIndex {
  import opened Blanks
  import opened Text

  type Index = map<string, seq<string>>

  /** What a key is split into. */
  function Parts(key: string): seq<string> { Split(key, ':') }

  /** key is listed under the part. */
  predicate Lists(fast: Index, part: string, key: string) { part in fast && key in fast[part] }

  ghost predicate Good(fast: Index) { forall p :: p in fast ==> Sorted(fast[p]) && fast[p] != [] }

  /** Listed under a part exactly the keys that have it, each list sorted and none empty. */
  ghost predicate Agree<Info>(master: map<string, Info>, fast: Index) {
    Good(fast) && forall p, k :: Lists(fast, p, k) <==> k in master && p != "" && p in Parts(k)
  }

  /** No part of the key has blanks at its ends. */
  predicate Tidy(key: string) { forall p :: p in Parts(key) ==> TrimSpace(p) == p }

  /** The parts a save lists a key under. */
  predicate SavedUnder(key: string, part: string) { part != "" && exists p :: p in Parts(key) && TrimSpace(p) == part }

  ghost predicate SavedInto(fast: Index, key: string, after: Index) {
    (forall p, k :: Lists(after, p, k) <==> Lists(fast, p, k) || (k == key && SavedUnder(key, p)))
        && (Good(fast) ==> Good(after))
  }

  ghost predicate RemovedFrom(fast: Index, key: string, after: Index) {
    (forall p, k :: Lists(after, p, k) <==> Lists(fast, p, k) && k != key) && (Good(fast) ==> Good(after))
    && forall p :: p in after ==> after[p] != []
  }

  function Without(keys: seq<string>, key: string): seq<string> {
    if keys == [] then []
    else Without(keys[..|keys| - 1], key) + if keys[|keys| - 1] == key then [] else [keys[|keys| - 1]]
  }

  lemma {:induction false} WithoutIs(keys: seq<string>, key: string)
    ensures forall k :: k in Without(keys, key) <==> k in keys && k != key
    ensures Sorted(keys) ==> Sorted(Without(keys, key))
  {
    if keys != [] {
      var n := |keys| - 1;
      WithoutIs(keys[..n], key);
      assert keys == keys[..n] + [keys[n]];
      if Sorted(keys) {
        forall i | 0 <= i < |Without(keys[..n], key)| ensures AtMost(Without(keys[..n], key)[i], keys[n]) {
          assert Without(keys[..n], key)[i] in keys[..n];
        }
      }
    }
  }

  lemma AppendedSorted(keys: seq<string>, key: string)
    ensures Sorted(Sort(keys + [key])) && Sort(keys + [key]) != []
    ensures forall k :: k in Sort(keys + [key]) <==> k in keys || k == key
  {
    SortSorts(keys + [key]);
    SameMembers(keys + [key], Sort(keys + [key]));
  }

  /** How often a key is listed under a part. */
  function Times(fast: Index, part: string, key: string): nat { if part in fast then multiset(fast[part])[key] else 0 }

  lemma ListsTimes(fast: Index, part: string, key: string)
    ensures Lists(fast, part, key) <==> Times(fast, part, key) > 0
  {
  }

  /** A key is listed under a part as often as it has it. */
  ghost predicate CountsParts(keys: set<string>, fast: Index) {
    && (forall p :: p in fast ==> p != "" && fast[p] != [])
    && (forall p, k :: p != "" ==> Times(fast, p, k) == if k in keys then multiset(Parts(k))[p] else 0)
  }

  // ---------------------------------------------------------------- the index in memory

  class Indexes<Info> {
    var master: map<string, Info>
    var fast: Index

    constructor ()
      ensures master == map[] && fast == map[]
    {
      master, fast := map[], map[];
    }

    /** From the keys that were read. */
    method RebuildIndexes(loaded: map<string, Info>)
      modifies this
      ensures master == loaded && Good(fast) && CountsParts(loaded.Keys, fast)
    {
      var f: Index := map[];
      var left := loaded.Keys;
      while left != {}
        invariant left <= loaded.Keys && CountsParts(loaded.Keys - left, f)
        decreases left
      {
        var key :| key in left;
        ghost var done := loaded.Keys - left;
        f := ListKey(f, key, done);
        left := left - {key};
        assert loaded.Keys - left == done + {key};
      }
      assert loaded.Keys - {} == loaded.Keys;
      f := SortLists(f, loaded.Keys);
      master := loaded;
      fast := f;
    }

    /** The index side of a save. */
    method SaveKey(key: string, info: Info)
      modifies this
      ensures if TrimSpace(key) == "" then master == old(master) && fast == old(fast)
              else master == old(master)[key := info] && SavedInto(old(fast), key, fast)
    {
      if TrimSpace(key) == "" {
        return;
      }
      master := master[key := info];
      var parts := Parts(key);
      ghost var before := fast;
      hide *;
      SavedNone(fast, key);
      for i := 0 to |parts|
        invariant SavedSome(before, key, parts[..i], fast)
        invariant master == old(master)[key := info]
      {
        var part := TrimSpace(parts[i]);
        SavedNext(before, key, parts[..i], parts[i], fast);
        assert parts[..i + 1] == parts[..i] + [parts[i]];
        if part != "" {
          var keys := ListOf(fast, part);
          WithKeyIs(fast, part, key);
          if key !in keys {
            fast := fast[part := Sort(keys + [key])];
          }
        }
      }
      assert parts[..|parts|] == parts;
      SavedAll(before, key, fast);
    }

    /** A removal, and the index side of a save that empties the bucket. */
    method RemoveKey(key: string)
      modifies this
      ensures master == old(master) - {key} && RemovedFrom(old(fast), key, fast)
    {
      master := master - {key};
      ghost var before := fast;
      var left := fast.Keys;
      while left != {}
        invariant left <= before.Keys
        invariant forall p :: p in left ==> p in fast && fast[p] == before[p]
        invariant forall p :: p in before && p !in left && p in fast ==>
                    fast[p] == Without(before[p], key) && fast[p] != []
        invariant forall p :: p in before && p !in left && p !in fast ==> Without(before[p], key) == []
        invariant fast.Keys <= before.Keys && master == old(master) - {key}
        decreases left
      {
        var p :| p in left;
        left := left - {p};
        var filtered := Without(fast[p], key);
        if filtered == [] {
          fast := fast - {p};
        } else {
          fast := fast[p := filtered];
        }
      }
      forall p | p in before
        ensures forall k :: Lists(fast, p, k) <==> Lists(before, p, k) && k != key
        ensures Good(before) && p in fast ==> Sorted(fast[p]) && fast[p] != []
      {
        WithoutIs(before[p], key);
      }
    }
  }

  predicate UnderSome(parts: seq<string>, part: string) {
    part != "" && exists i :: 0 <= i < |parts| && TrimSpace(parts[i]) == part
  }

  lemma UnderNext(parts: seq<string>, last: string)
    ensures forall p :: UnderSome(parts + [last], p) <==> UnderSome(parts, p) || (p != "" && p == TrimSpace(last))
  {
    hide TrimSpace;
    var all := parts + [last];
    assert all[|parts|] == last;
    assert forall i :: 0 <= i < |parts| ==> all[i] == parts[i];
  }

  function ListOf(fast: Index, part: string): seq<string> { if part in fast then fast[part] else [] }

  lemma TimesAppended(f: Index, part: string, key: string)
    ensures forall q, k :: Times(f[part := ListOf(f, part) + [key]], q, k) == Times(f, q, k) + if q == part && k == key
            then 1 else 0
  {
    assert multiset(ListOf(f, part) + [key]) == multiset(ListOf(f, part)) + multiset{key};
  }

  lemma TimesSorted(f: Index, part: string)
    requires part in f
    ensures forall q, k :: Times(f[part := Sort(f[part])], q, k) == Times(f, q, k)
  {
    SortSorts(f[part]);
  }

  lemma SortKeepsCounts(keys: set<string>, f: Index, part: string)
    requires CountsParts(keys, f) && part in f
    ensures CountsParts(keys, f[part := Sort(f[part])]) && Sorted(Sort(f[part]))
  {
    var after := f[part := Sort(f[part])];
    SortSorts(f[part]);
    TimesSorted(f, part);
    assert |Sort(f[part])| == |f[part]| > 0;
    hide Split, Times, Sort;
    forall p, k | p != "" ensures Times(after, p, k) == if k in keys then multiset(Parts(k))[p] else 0 {
      assert Times(after, p, k) == Times(f, p, k);
    }
  }

  /** The list under a part after a save: in order, with the key added unless it is there. */
  function WithKey(fast: Index, part: string, key: string): Index {
    if key in ListOf(fast, part) then fast else fast[part := Sort(ListOf(fast, part) + [key])]
  }

  lemma WithKeyLists(fast: Index, part: string, key: string)
    ensures forall p, k :: Lists(WithKey(fast, part, key), p, k) <==> Lists(fast, p, k) || (p == part && k == key)
    ensures Good(fast) ==> Good(WithKey(fast, part, key))
  {
    AppendedSorted(ListOf(fast, part), key);
  }

  lemma WithKeyIs(fast: Index, part: string, key: string)
    ensures WithKey(fast, part, key)
         == if key in ListOf(fast, part) then fast else fast[part := Sort(ListOf(fast, part) + [key])]
  {
  }

  /** fast is `before` with the key saved under the first of its parts. */
  ghost predicate SavedSome(before: Index, key: string, parts: seq<string>, fast: Index) {
    (forall p, k :: Lists(fast, p, k) <==> Lists(before, p, k) || (k == key && UnderSome(parts, p)))
        && (Good(before) ==> Good(fast))
  }

  lemma SavedNone(fast: Index, key: string)
    ensures SavedSome(fast, key, [], fast)
  {
  }

  lemma SavedNext(before: Index, key: string, parts: seq<string>, last: string, fast: Index)
    requires SavedSome(before, key, parts, fast)
    ensures var part := TrimSpace(last);
            SavedSome(before, key, parts + [last], if part == "" then fast else WithKey(fast, part, key))
  {
    hide TrimSpace, Lists, UnderSome, Good, WithKey;
    UnderNext(parts, last);
    WithKeyLists(fast, TrimSpace(last), key);
  }

  lemma SavedAll(before: Index, key: string, fast: Index)
    requires SavedSome(before, key, Parts(key), fast)
    ensures SavedInto(before, key, fast)
  {
    hide TrimSpace, Split, Lists, Good;
    var parts := Parts(key);
    forall p ensures UnderSome(parts, p) <==> SavedUnder(key, p) {
      assert forall i :: 0 <= i < |parts| ==> parts[i] in parts;
    }
  }

  method ListKey(fast: Index, key: string, ghost done: set<string>) returns (f: Index)
    requires key !in done && CountsParts(done, fast)
    ensures CountsParts(done + {key}, f)
  {
    f := fast;
    var parts := Parts(key);
    hide Split, Times;
    for i := 0 to |parts|
      invariant forall p :: p in f ==> p != "" && f[p] != []
      invariant forall p, k :: p != "" && k != key ==> Times(f, p, k) == Times(fast, p, k)
      invariant forall p :: p != "" ==> Times(f, p, key) == multiset(parts[..i])[p]
    {
      assert parts[..i + 1] == parts[..i] + [parts[i]];
      if parts[i] != "" {
        TimesAppended(f, parts[i], key);
        f := f[parts[i] := ListOf(f, parts[i]) + [key]];
      }
    }
    assert parts[..|parts|] == parts;
  }

  method SortLists(fast: Index, ghost keys: set<string>) returns (f: Index)
    requires CountsParts(keys, fast)
    ensures Good(f) && CountsParts(keys, f)
  {
    f := fast;
    var left := f.Keys;
    hide CountsParts;
    while left != {}
      invariant left <= f.Keys && CountsParts(keys, f)
      invariant forall p :: p in f && p !in left ==> Sorted(f[p])
      decreases left
    {
      var p :| p in left;
      left := left - {p};
      SortKeepsCounts(keys, f, p);
      f := f[p := Sort(f[p])];
    }
  }

  // ---------------------------------------------------------------- the promises

  /** A rebuild makes the index agree with the keys, whatever they are. */
  lemma RebuiltAgrees<Info>(master: map<string, Info>, fast: Index)
    requires Good(fast) && CountsParts(master.Keys, fast)
    ensures Agree(master, fast)
  {
    forall p, k ensures Lists(fast, p, k) <==> k in master && p != "" && p in Parts(k) {
      ListsTimes(fast, p, k);
    }
  }

  /** A rebuild lists a key once under each of its parts exactly when no key has a part twice. */
  lemma RebuiltOnceIff(keys: set<string>, fast: Index)
    requires CountsParts(keys, fast)
    ensures (forall p, k :: p != "" ==> Times(fast, p, k) <= 1)
            <==> forall p, k :: p != "" && k in keys ==> multiset(Parts(k))[p] <= 1
  {
    if forall p, k :: p != "" ==> Times(fast, p, k) <= 1 {
      forall p, k | p != "" && k in keys ensures multiset(Parts(k))[p] <= 1 {
        assert Times(fast, p, k) <= 1;
      }
    }
  }

  lemma SavedUnderTidy(key: string, p: string)
    requires Tidy(key)
    ensures SavedUnder(key, p) <==> p != "" && p in Parts(key)
  {
  }

  lemma TrimmedTwice(s: string)
    ensures TrimSpace(TrimSpace(s)) == TrimSpace(s)
  {
    var a, b := TrimSpaceParts(s);
    TrimSpaceIs("", TrimSpace(s), "");
    assert "" + TrimSpace(s) + "" == TrimSpace(s);
  }

  /** Saving a new key keeps the index in agreement exactly when no part of the key has blanks at its
      ends. */
  lemma SaveAgreesIff<Info>(master: map<string, Info>, fast: Index, key: string, info: Info, after: Index)
    requires Agree(master, fast) && key !in master && SavedInto(fast, key, after)
    ensures Agree(master[key := info], after) <==> Tidy(key)
  {
    hide TrimSpace, Split;
    if Tidy(key) {
      forall p, k ensures Lists(after, p, k) <==> k in master[key := info] && p != "" && p in Parts(k) {
        SavedUnderTidy(key, p);
      }
    } else {
      var p :| p in Parts(key) && TrimSpace(p) != p;
      TrimmedTwice(p);
      EmptyTrims();
      assert Lists(after, p, key) <==> SavedUnder(key, p);
      if SavedUnder(key, p) {
        var q :| q in Parts(key) && TrimSpace(q) == p;
        TrimmedTwice(q);
      }
    }
  }

  lemma EmptyTrims()
    ensures TrimSpace("") == ""
  {
  }

  /** No trimming of a part of the key gives a name that is not a part of it. */
  predicate TrimsWithin(key: string) {
    forall p :: p in Parts(key) ==> TrimSpace(p) == "" || TrimSpace(p) in Parts(key)
  }

  /** Saving a key that is there already keeps the index in agreement exactly when the key trims within
      itself. */
  lemma SaveAgainAgreesIff<Info>(master: map<string, Info>, fast: Index, key: string, info: Info, after: Index)
    requires Agree(master, fast) && key in master && SavedInto(fast, key, after)
    ensures Agree(master[key := info], after) <==> TrimsWithin(key)
  {
    hide TrimSpace, Split;
    if TrimsWithin(key) {
      forall p, k ensures Lists(after, p, k) <==> k in master[key := info] && p != "" && p in Parts(k) {
        assert Lists(fast, p, k) <==> k in master && p != "" && p in Parts(k);
      }
    } else {
      var q :| q in Parts(key) && TrimSpace(q) != "" && TrimSpace(q) !in Parts(key);
      assert SavedUnder(key, TrimSpace(q));
      assert Lists(after, TrimSpace(q), key);
    }
  }

  /** Removing any key keeps the index in agreement. */
  lemma RemoveAgrees<Info>(master: map<string, Info>, fast: Index, key: string, after: Index)
    requires Agree(master, fast) && RemovedFrom(fast, key, after)
    ensures Agree(master - {key}, after)
  {
    hide Split;
  }

  /** Looking a part up finds what a scan of all the keys finds. */
  lemma LookupIsFullScan<Info>(master: map<string, Info>, fast: Index, part: string)
    requires Agree(master, fast) && part != ""
    ensures (set k | part in fast && k in fast[part]) == (set k | k in master && part in Parts(k))
  {
    hide Split;
    assert forall k :: Lists(fast, part, k) <==> k in master && part in Parts(k);
  }

  /** What a run of the store does to the index. */
  datatype Change<Info> = Rebuild(loaded: map<string, Info>) | Save(key: string, info: Info) | Remove(key: string)

  ghost predicate Changed<Info>(m: map<string, Info>, f: Index, c: Change<Info>, m2: map<string, Info>, f2: Index) {
    match c
    case Rebuild(loaded) => m2 == loaded && Good(f2) && CountsParts(loaded.Keys, f2)
    case Save(key, info) =>
      if TrimSpace(key) == "" then m2 == m && f2 == f else m2 == m[key := info] && SavedInto(f, key, f2)
    case Remove(key) => m2 == m - {key} && RemovedFrom(f, key, f2)
  }

  /** A key whose save keeps the index in agreement: a new one without blanks at the ends of its parts,
      or one that is there and trims within itself; a blank key is not saved. */
  predicate SaveKeeps<Info>(master: map<string, Info>, key: string) {
    TrimSpace(key) == "" || if key in master then TrimsWithin(key) else Tidy(key)
  }

  lemma ChangeAgreesIff<Info(!new)>(m: map<string, Info>, f: Index, c: Change<Info>, m2: map<string, Info>, f2: Index)
    requires Agree(m, f) && Changed(m, f, c, m2, f2)
    ensures Agree(m2, f2) <==> (c.Save? ==> SaveKeeps(m, c.key))
  {
    hide Agree, SavedInto, RemovedFrom, CountsParts, Good, Tidy, TrimsWithin;
    match c
    case Rebuild(loaded) => RebuiltAgrees(loaded, f2);
    case Save(key, info) =>
      if TrimSpace(key) != "" {
        if key in m {
          SaveAgainAgreesIff(m, f, key, info, f2);
        } else {
          SaveAgreesIff(m, f, key, info, f2);
        }
      }
    case Remove(key) => RemoveAgrees(m, f, key, f2);
  }

  /** Over any run the index agrees with the keys in every state exactly when every save keeps it so. */
  lemma {:induction false} RunAgreesIff<Info(!new)>(masters: seq<map<string, Info>>, fasts: seq<Index>,
                                             changes: seq<Change<Info>>)
    requires |masters| == |fasts| == |changes| + 1 && Agree(masters[0], fasts[0])
    requires forall i :: 0 <= i < |changes| ==> Changed(masters[i], fasts[i], changes[i], masters[i + 1], fasts[i + 1])
    ensures (forall i :: 0 <= i <= |changes| ==> Agree(masters[i], fasts[i]))
            <==> forall i :: 0 <= i < |changes| && changes[i].Save? ==> SaveKeeps(masters[i], changes[i].key)
    decreases |changes|
  {
    if changes != [] {
      hide Agree, Changed, SaveKeeps;
      var n := |changes| - 1;
      var ms, fs, cs := masters[..n + 1], fasts[..n + 1], changes[..n];
      RunAgreesIff(ms, fs, cs);
      assert forall i :: 0 <= i <= n ==> ms[i] == masters[i] && fs[i] == fasts[i];
      assert forall i :: 0 <= i < n ==> cs[i] == changes[i];
      if Agree(masters[n], fasts[n]) {
        ChangeAgreesIff(masters[n], fasts[n], changes[n], masters[n + 1], fasts[n + 1]);
      }
    }
  }

  // ---------------------------------------------------------------- keys that fail

  lemma PartsOfTwo(a: string, b: string)
    requires !HasChar(a, ':') && !HasChar(b, ':')
    ensures Parts(a + ":" + b) == [a, b]
  {
    SplitJoin(a, b, ':');
    SplitJoin(b, "", ':');
  }

  /** A new key with a blank at the end of a part is saved under the trimmed part only. */
  lemma BlankPartDisagrees<Info>(a: string, b: string, info: Info, after: Index)
    requires !HasChar(a, ':') && !HasChar(b, ':') && TrimSpace(b) != b && SavedInto(map[], a + ":" + b, after)
    ensures !Agree(map[a + ":" + b := info], after)
  {
    hide TrimSpace, Split, SavedInto, HasChar;
    var none: map<string, Info> := map[];
    assert Agree(none, map[]);
    PartsOfTwo(a, b);
    assert Parts(a + ":" + b)[1] == b;
    SaveAgreesIff(none, map[], a + ":" + b, info, after);
    assert none[a + ":" + b := info] == map[a + ":" + b := info];
  }

  /** So is, for one, the key "nba: 2024". */
  lemma BlankBeforeYear<Info>(info: Info, after: Index)
    requires SavedInto(map[], "nba" + ":" + " 2024", after)
    ensures !Agree(map["nba" + ":" + " 2024" := info], after)
  {
    BlankInFront("2024");
    assert " " + "2024" == " 2024";
    hide *;
    NoColon();
    BlankPartDisagrees("nba", " 2024", info, after);
  }

  lemma BlankInFront(s: string)
    requires s != "" && !IsBlank(s[0]) && !IsBlank(s[|s| - 1])
    ensures TrimSpace(" " + s) == s
  {
    TrimSpaceIs(" ", s, "");
    assert " " + s + "" == " " + s;
  }

  lemma NoColon()
    ensures !HasChar("nba", ':') && !HasChar(" 2024", ':') && !HasChar("nba20242025", ':')
  {
  }

  /** A key with the same part twice is listed twice under it by a rebuild. */
  lemma SamePartTwice(part: string, fast: Index)
    requires part != "" && !HasChar(part, ':') && CountsParts({part + ":" + part}, fast)
    ensures Times(fast, part, part + ":" + part) == 2
  {
    hide Split, Times, HasChar;
    PartsOfTwo(part, part);
    assert multiset([part, part])[part] == 2;
  }

  /** So is, for one, the key of a bucket whose two names are the same. */
  lemma SeasonListedTwice(fast: Index)
    requires CountsParts({"nba20242025" + ":" + "nba20242025"}, fast)
    ensures Times(fast, "nba20242025", "nba20242025" + ":" + "nba20242025") == 2
  {
    hide *;
    NoColon();
    SamePartTwice("nba20242025", fast);
  }
}
