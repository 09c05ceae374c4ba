/** The waiting buckets, the read cache and the files of the bucket store
    (filedb/filedb.go, filedb/writebucket.go, filedb/evercache.go).

    Each method is one step, and buckets are values. */
module BucketStore {
  import opened Blanks
  import opened Options
  import opened Text

  /** Records by their url. */
  datatype Bucket = Bucket(records: map<string, string>)

  const EMPTY := Bucket(map[])

  datatype Path = Path(name: string)

  /** A bucket file: what it decodes to, or damaged. */
  datatype File = Holding(bucket: Bucket) | Damaged

  datatype Entry = Entry(bucket: Bucket, accessedAt: int)

  /** validFor is how long an entry may go unread; maxEntries and take bound the cache. */
  datatype Config = Config(enabled: bool, validFor: int, maxEntries: int, take: int)

  datatype ReadResult = Got(bucket: Bucket) | Missing | Corrupt

  /** What a key reads as: the version not yet written, else its file. */
  function Current(dirty: map<string, Bucket>, disk: map<Path, File>, path: Path, key: string): ReadResult {
    if key in dirty then Got(dirty[key])
    else if path !in disk then Missing
    else if disk[path].Damaged? then Corrupt
    else Got(disk[path].bucket)
  }

  /** Nothing but cached copies of what the files hold. */
  ghost predicate Mirrors(cache: map<Path, Entry>, disk: map<Path, File>) {
    forall p :: p in cache ==> p in disk && disk[p] == Holding(cache[p].bucket)
  }

  ghost predicate Injective(pathOf: string -> Path) { forall a, b :: pathOf(a) == pathOf(b) ==> a == b }

  /** Every key that was saved or restored reads as it was last, from memory or from its file, and
      nothing stale is cached. */
  ghost predicate Coherent(dirty: map<string, Bucket>, disk: map<Path, File>, cache: map<Path, Entry>,
                           last: map<string, Bucket>, pathOf: string -> Path) {
    && Mirrors(cache, disk)
    && (forall k :: k in dirty ==> pathOf(k) !in cache && k in last && dirty[k] == last[k])
    && (forall k :: k in last && k !in dirty ==> pathOf(k) in disk && disk[pathOf(k)] == Holding(last[k]))
  }

  lemma SaveKeeps(dirty: map<string, Bucket>, disk: map<Path, File>, cache: map<Path, Entry>,
                  last: map<string, Bucket>, pathOf: string -> Path, key: string, bucket: Bucket)
    requires Coherent(dirty, disk, cache, last, pathOf)
    ensures Coherent(dirty[key := bucket], disk, cache - {pathOf(key)}, last[key := bucket], pathOf)
  {
  }

  /** A bucket put straight into its file. */
  lemma ReplaceKeeps(dirty: map<string, Bucket>, disk: map<Path, File>, cache: map<Path, Entry>,
                     last: map<string, Bucket>, pathOf: string -> Path, key: string, bucket: Bucket)
    requires Coherent(dirty, disk, cache, last, pathOf) && Injective(pathOf)
    ensures Coherent(dirty - {key}, disk[pathOf(key) := Holding(bucket)], cache - {pathOf(key)}, last[key := bucket],
            pathOf)
  {
    assert forall k :: k != key ==> pathOf(k) != pathOf(key);
    hide Injective;
    assert Mirrors(cache - {pathOf(key)}, disk[pathOf(key) := Holding(bucket)]);
    hide Mirrors;
  }

  lemma ForgetKeeps(dirty: map<string, Bucket>, disk: map<Path, File>, cache: map<Path, Entry>,
                    last: map<string, Bucket>, pathOf: string -> Path, key: string)
    requires Coherent(dirty, disk, cache, last, pathOf)
    ensures Coherent(dirty - {key}, disk, cache - {pathOf(key)}, last - {key}, pathOf)
  {
  }

  lemma NothingWritten(disk: map<Path, File>, pathOf: string -> Path)
    ensures Written(disk, disk, map[], pathOf)
  {
  }

  lemma CoherentParts(dirty: map<string, Bucket>, disk: map<Path, File>, cache: map<Path, Entry>,
                      last: map<string, Bucket>, pathOf: string -> Path)
    requires Coherent(dirty, disk, cache, last, pathOf)
    ensures Mirrors(cache, disk) && forall k :: k in dirty ==> pathOf(k) !in cache
  {
  }

  lemma StaysMirror(cache: map<Path, Entry>, disk: map<Path, File>, path: Path, bucket: Bucket)
    requires Mirrors(cache, disk) && path !in cache
    ensures Mirrors(cache, disk[path := Holding(bucket)])
  {
  }

  /** What has been taken out of left is written, or waits again because its write failed. */
  ghost predicate Midway(toFlush: map<string, Bucket>, left: set<string>, failing: set<string>,
                         dirty: map<string, Bucket>, written: map<string, Bucket>) {
    && (forall k :: k in left || k in dirty || k in written ==> k in toFlush)
    && (forall k :: k in toFlush ==> MidwayAt(toFlush[k], k in left, k in failing, dirty, written, k))
  }

  predicate MidwayAt(version: Bucket, waiting: bool, fails: bool, dirty: map<string, Bucket>,
                     written: map<string, Bucket>, k: string) {
    && (k in dirty <==> !waiting && fails) && (k in dirty ==> dirty[k] == version)
    && (k in written <==> !waiting && !fails) && (k in written ==> written[k] == version)
  }

  lemma MidwayStart(toFlush: map<string, Bucket>, failing: set<string>)
    ensures Midway(toFlush, toFlush.Keys, failing, map[], map[])
  {
  }

  lemma MidwayStep(toFlush: map<string, Bucket>, left: set<string>, failing: set<string>,
                   dirty: map<string, Bucket>, written: map<string, Bucket>, k: string)
    requires Midway(toFlush, left, failing, dirty, written) && k in left
    ensures k in toFlush && k !in dirty && k !in written
    ensures k in failing ==> Midway(toFlush, left - {k}, failing, dirty[k := toFlush[k]], written)
    ensures k !in failing ==> Midway(toFlush, left - {k}, failing, dirty, written[k := toFlush[k]])
  {
    var dirty2 := if k in failing then dirty[k := toFlush[k]] else dirty;
    var written2 := if k in failing then written else written[k := toFlush[k]];
    forall j | j in toFlush ensures MidwayAt(toFlush[j], j in left - {k}, j in failing, dirty2, written2, j) {
      assert MidwayAt(toFlush[j], j in left, j in failing, dirty, written, j);
    }
  }

  lemma SizeGrows(written: map<string, Bucket>, k: string, bucket: Bucket)
    requires k !in written
    ensures |written[k := bucket]| == |written| + 1
  {
    assert written[k := bucket].Keys == written.Keys + {k};
    assert |written| == |written.Keys| && |written[k := bucket]| == |written[k := bucket].Keys|;
  }

  lemma MidwayEnd(toFlush: map<string, Bucket>, failing: set<string>, dirty: map<string, Bucket>,
                  written: map<string, Bucket>)
    requires Midway(toFlush, {}, failing, dirty, written)
    ensures dirty.Keys == toFlush.Keys * failing && toFlush.Keys == dirty.Keys + written.Keys
            && dirty.Keys !! written.Keys
    ensures (forall k :: k in dirty ==> dirty[k] == toFlush[k])
            && (forall k :: k in written ==> written[k] == toFlush[k])
    ensures |toFlush| == |dirty| + |written|
  {
    forall k | k in toFlush
      ensures (k in dirty <==> k in failing) && (k in written <==> k !in failing)
      ensures (k in dirty ==> dirty[k] == toFlush[k]) && (k in written ==> written[k] == toFlush[k])
    {
      assert MidwayAt(toFlush[k], false, k in failing, dirty, written, k);
    }
    hide MidwayAt;
    assert forall k :: k in dirty || k in written ==> k in toFlush;
    hide Midway;
    SizesAdd(toFlush, dirty, written);
  }

  lemma SizesAdd(whole: map<string, Bucket>, a: map<string, Bucket>, b: map<string, Bucket>)
    requires whole.Keys == a.Keys + b.Keys && a.Keys !! b.Keys
    ensures |whole| == |a| + |b|
  {
    assert |whole| == |whole.Keys| && |a| == |a.Keys| && |b| == |b.Keys|;
  }

  /** Files that other keys do not use do not change what they read as. */
  lemma OthersRead(dirty: map<string, Bucket>, disk: map<Path, File>, dirty2: map<string, Bucket>,
                   disk2: map<Path, File>,
                   pathOf: string -> Path, key: string)
    requires Injective(pathOf) && dirty2 - {key} == dirty - {key} && disk2 - {pathOf(key)} == disk - {pathOf(key)}
    ensures forall k :: k != key ==> Current(dirty2, disk2, pathOf(k), k) == Current(dirty, disk, pathOf(k), k)
  {
    forall k | k != key ensures Current(dirty2, disk2, pathOf(k), k) == Current(dirty, disk, pathOf(k), k) {
      assert k in dirty2 - {key} <==> k in dirty - {key};
      assert pathOf(k) in disk2 - {pathOf(key)} <==> pathOf(k) in disk - {pathOf(key)};
      assert k in dirty ==> dirty[k] == (dirty - {key})[k] == (dirty2 - {key})[k] == dirty2[k];
      assert pathOf(k) in disk ==>
               disk[pathOf(k)] == (disk - {pathOf(key)})[pathOf(k)]
               == (disk2 - {pathOf(key)})[pathOf(k)];
    }
  }

  /** A restore, for which no version may be waiting. */
  lemma RestoreKeeps(dirty: map<string, Bucket>, disk: map<Path, File>, cache: map<Path, Entry>,
                     last: map<string, Bucket>, pathOf: string -> Path, key: string, bucket: Bucket)
    requires Coherent(dirty, disk, cache, last, pathOf) && Injective(pathOf) && key !in dirty
    ensures Coherent(dirty, disk[pathOf(key) := Holding(bucket)], cache - {pathOf(key)}, last[key := bucket], pathOf)
    ensures forall k :: k != key ==>
              Current(dirty, disk[pathOf(key) := Holding(bucket)], pathOf(k), k)
              == Current(dirty, disk, pathOf(k), k)
  {
    ReplaceKeeps(dirty, disk, cache, last, pathOf, key, bucket);
    assert dirty - {key} == dirty;
    hide Coherent;
    OthersRead(dirty, disk, dirty, disk[pathOf(key) := Holding(bucket)], pathOf, key);
  }

  /** Part of a flush: written holds the versions that have reached their files. */
  ghost predicate Written(disk0: map<Path, File>, disk: map<Path, File>, written: map<string, Bucket>,
                          pathOf: string -> Path) {
    forall k :: WrittenAt(disk0, disk, written, pathOf(k), k)
  }

  predicate WrittenAt(disk0: map<Path, File>, disk: map<Path, File>, written: map<string, Bucket>, path: Path,
                      k: string) {
    if k in written then path in disk && disk[path] == Holding(written[k])
    else (path in disk <==> path in disk0) && (path in disk ==> disk[path] == disk0[path])
  }

  lemma WriteOne(disk0: map<Path, File>, disk: map<Path, File>, written: map<string, Bucket>, pathOf: string -> Path,
                 key: string, bucket: Bucket)
    requires Injective(pathOf) && Written(disk0, disk, written, pathOf)
    ensures Written(disk0, disk[pathOf(key) := Holding(bucket)], written[key := bucket], pathOf)
  {
    var disk2, written2 := disk[pathOf(key) := Holding(bucket)], written[key := bucket];
    forall k | k != key ensures pathOf(k) != pathOf(key) && (k in written2 <==> k in written)
        && (pathOf(k) in disk2 <==> pathOf(k) in disk) {
    }
    hide Injective;
    forall k ensures WrittenAt(disk0, disk2, written2, pathOf(k), k) {
      assert WrittenAt(disk0, disk, written, pathOf(k), k);
    }
  }

  /** A whole flush: what was waiting is now written or waits again. */
  lemma FlushKeeps(dirty0: map<string, Bucket>, disk0: map<Path, File>, dirty: map<string, Bucket>,
                   disk: map<Path, File>,
                   cache: map<Path, Entry>, last: map<string, Bucket>, pathOf: string -> Path,
                       written: map<string, Bucket>)
    requires Coherent(dirty0, disk0, cache, last, pathOf) && Mirrors(cache, disk)
             && Written(disk0, disk, written, pathOf)
    requires dirty0.Keys == dirty.Keys + written.Keys && dirty.Keys !! written.Keys
    requires (forall k :: k in dirty ==> dirty[k] == dirty0[k]) && forall k :: k in written ==> written[k] == dirty0[k]
    ensures Coherent(dirty, disk, cache, last, pathOf)
    ensures forall k :: Current(dirty, disk, pathOf(k), k) == Current(dirty0, disk0, pathOf(k), k)
  {
    assert forall k :: k in dirty0 <==> k in dirty || k in written;
    forall k ensures WrittenAt(disk0, disk, written, pathOf(k), k) {
    }
  }

  /** a is b with some entries gone. */
  ghost predicate Fewer(a: map<Path, Entry>, b: map<Path, Entry>) {
    a.Keys <= b.Keys && forall p :: p in a ==> a[p] == b[p]
  }

  /** The same entries, read at other times. */
  ghost predicate Touched(a: map<Path, Entry>, b: map<Path, Entry>) {
    a.Keys == b.Keys && forall p :: p in a ==> a[p].bucket == b[p].bucket
  }

  class Buckets {
    const config: Config
    const pathOf: string -> Path
    var dirty: map<string, Bucket>
    var disk: map<Path, File>
    var cache: map<Path, Entry>
    var now: int
    /** The bucket last saved or restored under each key. */
    ghost var last: map<string, Bucket>

    constructor (config: Config, pathOf: string -> Path, disk: map<Path, File>, now: int)
      requires Injective(pathOf)
      ensures Valid() && this.disk == disk && dirty == map[] && cache == map[] && last == map[] && this.now == now
      ensures this.config == config && this.pathOf == pathOf
    {
      this.config, this.pathOf, this.disk, this.now := config, pathOf, disk, now;
      dirty, cache, last := map[], map[], map[];
    }

    ghost predicate Valid()
      reads this
    {
      Injective(pathOf) && Coherent(dirty, disk, cache, last, pathOf)
          && (config.maxEntries > 0 ==> |cache| <= config.maxEntries)
    }

    function Reads(key: string): ReadResult
      reads this
    {
      Current(dirty, disk, pathOf(key), key)
    }

    /** The clock goes on. */
    method Pass(t: nat)
      requires Valid()
      modifies `now
      ensures Valid() && now == old(now) + t
    {
      now := now + t;
    }

    // -------------------------------------------------------------- the read cache

    method EcGet(path: Path) returns (r: Option<Bucket>)
      requires Valid()
      modifies `cache
      ensures Valid() && Touched(cache, old(cache))
      ensures r.Some? ==> path in old(cache) && r.value == old(cache)[path].bucket
      ensures cache == if r.Some? then old(cache)[path := Entry(r.value, now)] else old(cache)
      ensures r.Some? <==> config.enabled && path in old(cache) && old(cache)[path].accessedAt >= now - config.validFor
    {
      if !config.enabled || path !in cache || cache[path].accessedAt < now - config.validFor {
        return None;
      }
      r := Some(cache[path].bucket);
      cache := cache[path := cache[path].(accessedAt := now)];
    }

    method EcPut(path: Path, bucket: Bucket)
      requires Mirrors(cache, disk) && path in disk && disk[path] == Holding(bucket)
      requires config.maxEntries > 0 ==> |cache| <= config.maxEntries
      modifies `cache
      ensures Mirrors(cache, disk) && (config.maxEntries > 0 ==> |cache| <= config.maxEntries)
      ensures if !config.enabled then cache == old(cache)
              else Fewer(cache, old(cache)[path := Entry(bucket, now)])
                   && (config.maxEntries <= 0 || |old(cache)[path := Entry(bucket, now)]| <= config.maxEntries
                       ==> cache == old(cache)[path := Entry(bucket, now)])
      ensures config.enabled && 0 < config.maxEntries < |old(cache)[path := Entry(bucket, now)]| ==>
                && |cache| == (var n := |old(cache)[path := Entry(bucket, now)]|;
                               var take := if config.take <= 0 then 200 else config.take;
                               if take > n then 0 else n - take)
                && forall p, q :: p in old(cache)[path := Entry(bucket, now)] && p !in cache && q in cache ==>
                     old(cache)[path := Entry(bucket, now)][p].accessedAt <= old(cache)[path := Entry(bucket,
                         now)][q].accessedAt
    {
      if !config.enabled {
        return;
      }
      OneMore(cache, path, Entry(bucket, now));
      cache := cache[path := Entry(bucket, now)];
      if config.maxEntries > 0 && |cache| > config.maxEntries {
        var take := if config.take <= 0 then 200 else config.take;
        EvictOldest(take);
      }
    }

    /** Drops the entries that have gone unread for longest. */
    method EvictOldest(take: int)
      requires take > 0
      modifies `cache
      ensures Fewer(cache, old(cache))
      ensures |cache| == if take > |old(cache)| then 0 else |old(cache)| - take
      ensures forall p, q :: p in old(cache) && p !in cache && q in cache ==>
                old(cache)[p].accessedAt <= old(cache)[q].accessedAt
    {
      ghost var before := cache;
      var entries := ByAccess(cache);
      SizeOfList(entries, cache.Keys);
      var n := if take > |entries| then |entries| else take;
      assert cache == before - MembersOf(entries[..0]);
      hide MembersOf, OldestFirst, Fewer;
      for i := 0 to n
        invariant cache == before - MembersOf(entries[..i])
      {
        OneMoreGone(before, entries, i);
        cache := cache - {entries[i]};
      }
      OldestGone(before, entries, n);
    }

    method EcDelete(path: Path)
      modifies `cache
      ensures cache == old(cache) - {path}
    {
      cache := cache - {path};
    }

    /** Drops stale entries, at most take of them if take is positive. */
    method EvictCache(take: int) returns (removed: nat)
      requires Valid()
      modifies `cache
      ensures Valid() && Fewer(cache, old(cache))
      ensures forall p :: p in old(cache) && p !in cache ==> old(cache)[p].accessedAt < now - config.validFor
      ensures removed == |old(cache)| - |cache| && (take > 0 ==> removed <= take)
      ensures config.enabled && (take <= 0 || removed < take) ==>
                forall p :: p in cache ==> cache[p].accessedAt >= now - config.validFor
    {
      removed := 0;
      if !config.enabled {
        return;
      }
      var left := cache.Keys;
      while left != {} && !(take > 0 && removed >= take)
        invariant left <= cache.Keys && Fewer(cache, old(cache)) && Valid()
        invariant forall p :: p in old(cache) && p !in cache ==> old(cache)[p].accessedAt < now - config.validFor
        invariant forall p :: p in cache && p !in left ==> cache[p].accessedAt >= now - config.validFor
        invariant removed == |old(cache)| - |cache| && (take > 0 ==> removed <= take)
        decreases left
      {
        var p :| p in left;
        left := left - {p};
        if cache[p].accessedAt < now - config.validFor {
          OneLess(cache, p);
          cache := cache - {p};
          removed := removed + 1;
        }
      }
    }

    // -------------------------------------------------------------- reading

    method OpenReadPath(path: Path) returns (r: ReadResult)
      ensures r == Current(map[], disk, path, "")
    {
      if path !in disk {
        r := Missing;
      } else if disk[path].Damaged? {
        r := Corrupt;
      } else {
        r := Got(disk[path].bucket);
      }
    }

    /** Whatever is cached, a read gives the version not yet written, else the file. */
    method OpenRead(key: string) returns (r: ReadResult)
      requires Valid()
      modifies `cache
      ensures Valid() && r == Reads(key)
      ensures r.Missing? <==> key !in dirty && pathOf(key) !in disk
      ensures r.Corrupt? <==> key !in dirty && pathOf(key) in disk && disk[pathOf(key)] == Damaged
      ensures r.Got? ==> if key in dirty then r.bucket == dirty[key] else disk[pathOf(key)] == Holding(r.bucket)
      ensures key in dirty ==> cache == old(cache)
      ensures key !in dirty && r.Got? && config.enabled
              && (config.maxEntries <= 0 || |old(cache)| < config.maxEntries || pathOf(key) in old(cache)) ==>
                pathOf(key) in cache && cache[pathOf(key)].accessedAt == now
    {
      if key in dirty {
        return Got(dirty[key]);
      }
      var path := pathOf(key);
      var cached := EcGet(path);
      if cached.Some? {
        return Got(cached.value);
      }
      r := OpenReadPath(path);
      if r.Got? {
        OneMore(cache, path, Entry(r.bucket, now));
        EcPut(path, r.bucket);
      }
    }

    method OpenReadNoCache(key: string) returns (r: ReadResult)
      requires Valid()
      ensures r == Reads(key)
      ensures r.Missing? <==> key !in dirty && pathOf(key) !in disk
      ensures r.Corrupt? <==> key !in dirty && pathOf(key) in disk && disk[pathOf(key)] == Damaged
      ensures r.Got? ==> if key in dirty then r.bucket == dirty[key] else disk[pathOf(key)] == Holding(r.bucket)
    {
      if key in dirty {
        return Got(dirty[key]);
      }
      r := OpenReadPath(pathOf(key));
    }

    /** A missing bucket reads as empty; a damaged one is put aside and reads as empty. */
    method OpenReadOrEmpty(key: string) returns (bucket: Bucket)
      requires Valid()
      modifies `cache, `disk
      ensures Valid()
      ensures bucket == if key in dirty then dirty[key]
                        else if pathOf(key) in old(disk) && old(disk)[pathOf(key)].Holding?
                            then old(disk)[pathOf(key)].bucket
                        else Bucket(map[])
      ensures disk == if key !in dirty && pathOf(key) in old(disk) && old(disk)[pathOf(key)] == Damaged
                      then old(disk) - {pathOf(key)} else old(disk)
    {
      var r := OpenRead(key);
      match r
      case Got(b) => bucket := b;
      case Missing => bucket := EMPTY;
      case Corrupt =>
        disk := disk - {pathOf(key)};
        bucket := EMPTY;
    }

    // -------------------------------------------------------------- writing

    /** A save is kept in memory until it is flushed; one that empties the bucket is written at once.
        logging reads the old bucket first; written tells whether the write of an empty bucket works,
        for when it does not the bucket reads as its file has it. */
    method SaveBucket(key: string, bucket: Bucket, logging: bool, written: bool)
      requires Valid()
      modifies `dirty, `disk, `cache, `last
      ensures Valid() && forall k :: k != key ==> Reads(k) == old(Reads(k))
      ensures if TrimSpace(key) == "" then last == old(last) && dirty == old(dirty) && disk == old(disk)
              else if bucket != EMPTY then dirty == old(dirty)[key := bucket] && disk == old(disk)
              else key !in dirty && dirty == old(dirty) - {key}
      ensures TrimSpace(key) != "" && (bucket != EMPTY || written)
              ==> last == old(last)[key := bucket] && Reads(key) == Got(bucket)
      ensures TrimSpace(key) != "" && bucket == EMPTY && !written ==>
                last == old(last) - {key} && Reads(key) == Current(map[], old(disk), pathOf(key), key)
    {
      hide TrimSpace, Coherent;
      if TrimSpace(key) == "" {
        return;
      }
      if logging {
        var r := OpenRead(key);
      }
      EcDeleteKeepsSize(cache, pathOf(key));
      if bucket == EMPTY {
        Empty(key, written);
      } else {
        Keep(key, bucket);
      }
    }

    method Keep(key: string, bucket: Bucket)
      requires Valid() && |cache - {pathOf(key)}| <= |cache|
      modifies `dirty, `cache, `last
      ensures Valid() && last == old(last)[key := bucket] && dirty == old(dirty)[key := bucket]
      ensures forall k :: k != key ==> Reads(k) == old(Reads(k))
    {
      SaveKeeps(dirty, disk, cache, last, pathOf, key, bucket);
      hide Coherent;
      dirty := dirty[key := bucket];
      EcDelete(pathOf(key));
      last := last[key := bucket];
    }

    method Empty(key: string, written: bool)
      requires Valid() && |cache - {pathOf(key)}| <= |cache|
      modifies `dirty, `disk, `cache, `last
      ensures Valid() && dirty == old(dirty) - {key}
      ensures disk == if written then old(disk)[pathOf(key) := Holding(EMPTY)] else old(disk)
      ensures last == if written then old(last)[key := EMPTY] else old(last) - {key}
      ensures forall k :: k != key ==> Reads(k) == old(Reads(k))
    {
      hide Coherent, Injective, Current;
      if written {
        ReplaceKeeps(dirty, disk, cache, last, pathOf, key, EMPTY);
        disk := disk[pathOf(key) := Holding(EMPTY)];
        last := last[key := EMPTY];
      } else {
        ForgetKeeps(dirty, disk, cache, last, pathOf, key);
        last := last - {key};
      }
      EcDelete(pathOf(key));
      dirty := dirty - {key};
      SameWithout(old(dirty), key);
      WithoutReplaced(old(disk), pathOf(key));
      OthersRead(old(dirty), old(disk), dirty, disk, pathOf, key);
    }

    /** Writes what is waiting; the buckets of failing keys are put back. */
    method FlushDirtyBuckets(failing: set<string>) returns (flushed: nat)
      requires Valid()
      modifies `dirty, `disk
      ensures Valid() && dirty.Keys == old(dirty).Keys * failing
      ensures forall k :: Reads(k) == old(Reads(k))
      ensures flushed == |old(dirty)| - |dirty|
    {
      var toFlush := dirty;
      ghost var written: map<string, Bucket> := map[];
      dirty := map[];
      flushed := 0;
      var left := toFlush.Keys;
      NothingWritten(disk, pathOf);
      CoherentParts(toFlush, disk, cache, last, pathOf);
      hide Written, Mirrors, Midway, Coherent, Injective, Current;
      MidwayStart(toFlush, failing);
      while left != {}
        invariant Midway(toFlush, left, failing, dirty, written)
        invariant Written(old(disk), disk, written, pathOf) && Mirrors(cache, disk)
        invariant flushed == |written|
        decreases left
      {
        var k :| k in left;
        MidwayStep(toFlush, left, failing, dirty, written, k);
        left := left - {k};
        if k in failing {
          if k !in dirty {
            dirty := dirty[k := toFlush[k]];
          }
        } else {
          WriteOne(old(disk), disk, written, pathOf, k, toFlush[k]);
          StaysMirror(cache, disk, pathOf(k), toFlush[k]);
          SizeGrows(written, k, toFlush[k]);
          written := written[k := toFlush[k]];
          disk := disk[pathOf(k) := Holding(toFlush[k])];
          flushed := flushed + 1;
        }
      }
      MidwayEnd(toFlush, failing, dirty, written);
      FlushKeeps(toFlush, old(disk), dirty, disk, cache, last, pathOf, written);
    }

    /** copy is what the chosen snapshot holds, if there is one that can be read. */
    method RestoreBucketFromSnapshot(key: string, copy: Option<Bucket>) returns (ok: bool)
      requires Valid()
      modifies `disk, `cache, `last
      ensures Valid() && (ok <==> TrimSpace(key) != "" && ':' in key && key !in dirty && copy.Some?)
      ensures if ok then last == old(last)[key := copy.value] && Reads(key) == Got(copy.value)
              else last == old(last) && disk == old(disk) && cache == old(cache)
      ensures forall k :: k != key ==> Reads(k) == old(Reads(k))
    {
      hide TrimSpace;
      if !IsKey(key) || key in dirty || copy.None? {
        return false;
      }
      RestoreKeeps(dirty, disk, cache, last, pathOf, key, copy.value);
      EcDeleteKeepsSize(cache, pathOf(key));
      hide Coherent;
      disk := disk[pathOf(key) := Holding(copy.value)];
      EcDelete(pathOf(key));
      last := last[key := copy.value];
      ok := true;
    }

    /** A read of a key that was ever saved or restored gives what it was given last. */
    lemma ReadsWhatWasLast(key: string)
      requires Valid() && key in last
      ensures Reads(key) == Got(last[key])
    {
    }
  }

  lemma SameWithout(m: map<string, Bucket>, k: string)
    ensures m - {k} - {k} == m - {k}
  {
  }

  lemma WithoutReplaced(m: map<Path, File>, p: Path)
    ensures m[p := Holding(EMPTY)] - {p} == m - {p}
  {
  }

  predicate IsKey(key: string) { TrimSpace(key) != "" && ':' in key }

  // ---------------------------------------------------------------- sizes and order

  lemma OneMore(m: map<Path, Entry>, p: Path, e: Entry)
    ensures |m[p := e]| == if p in m then |m| else |m| + 1
  {
    assert m[p := e].Keys == m.Keys + {p};
    assert |m[p := e]| == |m[p := e].Keys| && |m| == |m.Keys|;
  }

  lemma OneLess(m: map<Path, Entry>, p: Path)
    requires p in m
    ensures |m - {p}| == |m| - 1
  {
    assert (m - {p}).Keys == m.Keys - {p};
    assert |m - {p}| == |(m - {p}).Keys| && |m| == |m.Keys|;
  }

  lemma EcDeleteKeepsSize(m: map<Path, Entry>, p: Path)
    ensures |m - {p}| <= |m|
  {
    if p in m {
      OneLess(m, p);
    } else {
      assert m - {p} == m;
    }
  }

  lemma {:induction false} SizeOfList(list: seq<Path>, keys: set<Path>)
    requires NoDuplicates(list) && forall p :: p in list <==> p in keys
    ensures |list| == |keys|
  {
    if list == [] {
      assert keys == {};
    } else {
      TailMembers(list);
      assert list[0] in list;
      SizeOfList(list[1..], keys - {list[0]});
    }
  }

  ghost predicate OldestFirst(list: seq<Path>, cache: map<Path, Entry>) {
    (forall p :: p in list ==> p in cache)
    && forall i, j :: 0 <= i < j < |list| ==>
         list[i] != list[j] && cache[list[i]].accessedAt <= cache[list[j]].accessedAt
  }

  function MembersOf(list: seq<Path>): set<Path> { set p | p in list }

  lemma OneMoreGone(cache: map<Path, Entry>, list: seq<Path>, i: nat)
    requires i < |list|
    ensures cache - MembersOf(list[..i]) - {list[i]} == cache - MembersOf(list[..i + 1])
  {
    assert list[..i + 1] == list[..i] + [list[i]];
  }

  lemma {:induction false} SplitMembers(list: seq<Path>, keys: set<Path>, n: nat)
    requires NoDuplicates(list) && (forall p :: p in list <==> p in keys) && n <= |list|
    ensures forall p :: p in list[n..] <==> p in keys - MembersOf(list[..n])
  {
    assert list == list[..n] + list[n..];
    forall p | p in list[n..] ensures p !in list[..n] {
      var j :| n <= j < |list| && list[j] == p;
      assert forall i :: 0 <= i < n ==> list[i] != list[j];
    }
  }

  lemma OldestGone(cache: map<Path, Entry>, list: seq<Path>, n: nat)
    requires OldestFirst(list, cache) && NoDuplicates(list) && (forall p :: p in list <==> p in cache) && n <= |list|
    ensures var after := cache - MembersOf(list[..n]);
            Fewer(after, cache) && |after| == |cache| - n
            && forall p, q :: p in cache && p !in after && q in after ==> cache[p].accessedAt <= cache[q].accessedAt
  {
    var after := cache - MembersOf(list[..n]);
    SplitMembers(list, cache.Keys, n);
    assert after.Keys == cache.Keys - MembersOf(list[..n]);
    SizeOfList(list, cache.Keys);
    SizeOfList(list[n..], after.Keys);
    assert |after| == |after.Keys| && |cache| == |cache.Keys|;
    forall p, q | p in cache && p !in after && q in after ensures cache[p].accessedAt <= cache[q].accessedAt {
      assert p in list[..n] && q in list[n..];
      OldestPair(cache, list, n, p, q);
    }
  }

  lemma OldestPair(cache: map<Path, Entry>, list: seq<Path>, n: nat, p: Path, q: Path)
    requires OldestFirst(list, cache) && n <= |list| && p in list[..n] && q in list[n..]
    ensures p in cache && q in cache && cache[p].accessedAt <= cache[q].accessedAt
  {
    var i :| 0 <= i < n && list[i] == p;
    var j :| n <= j < |list| && list[j] == q;
  }

  function InsertByAccess(list: seq<Path>, p: Path, cache: map<Path, Entry>): seq<Path>
    requires p in cache && forall q :: q in list ==> q in cache
  {
    if list == [] || cache[p].accessedAt <= cache[list[0]].accessedAt then [p] + list
    else [list[0]] + InsertByAccess(list[1..], p, cache)
  }

  lemma {:induction false} InsertByAccessKeeps(list: seq<Path>, p: Path, cache: map<Path, Entry>)
    requires p in cache && OldestFirst(list, cache) && p !in list
    ensures OldestFirst(InsertByAccess(list, p, cache), cache)
    ensures forall q :: q in InsertByAccess(list, p, cache) <==> q == p || q in list
  {
    if list == [] || cache[p].accessedAt <= cache[list[0]].accessedAt {
    } else {
      assert list == [list[0]] + list[1..];
      InsertByAccessKeeps(list[1..], p, cache);
      var r := InsertByAccess(list[1..], p, cache);
      forall j | 0 <= j < |r| ensures list[0] != r[j] && cache[list[0]].accessedAt <= cache[r[j]].accessedAt {
        assert r[j] in r;
      }
    }
  }

  method ByAccess(cache: map<Path, Entry>) returns (list: seq<Path>)
    ensures OldestFirst(list, cache) && NoDuplicates(list) && forall p :: p in list <==> p in cache
  {
    list := [];
    var left := cache.Keys;
    while left != {}
      invariant left <= cache.Keys && OldestFirst(list, cache) && forall p :: p in list <==> p in cache && p !in left
      decreases left
    {
      var p :| p in left;
      left := left - {p};
      InsertByAccessKeeps(list, p, cache);
      list := InsertByAccess(list, p, cache);
    }
  }
}
