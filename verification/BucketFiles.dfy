/** The file operations of filedb as the sequences of steps they take: writeBucket and the index write
    in filedb/admin.go, the restore in filedb/restore.go, the quarantine in filedb/writebucket.go and
    the daily snapshot in filedb/admin.go.

    Power may be lost between any two of the steps. */
module BucketFiles {
  import opened Disk
  import opened DiskSafety
  import opened Options
  import opened Text

  /** The first system call of a replacement that fails, if any. */
  datatype Fault = NoFault | CreateFails | WriteFails | SyncFails | CloseFails | RenameFails

  /** The steps from one disk to another. */
  ghost predicate Ran(before: Fs, events: seq<Event>, after: Fs) {
    Runnable(before, events) && after == Run(before, events)
  }

  lemma {:induction false} RanOne(before: Fs, events: seq<Event>, mid: Fs, e: Event)
    requires Ran(before, events, mid) && Enabled(mid, e)
    ensures Ran(before, events + [e], Apply(mid, e))
    decreases |events|
  {
    hide Apply, Enabled;
    if events == [] {
      assert events + [e] == [e] && [e][1..] == [];
      assert Runnable(Apply(mid, e), []) && Run(Apply(mid, e), []) == Apply(mid, e);
    } else {
      RanOne(Apply(before, events[0]), events[1..], mid, e);
      assert (events + [e])[1..] == events[1..] + [e];
    }
  }

  class Files {
    var fs: Fs
    /** The steps taken since it was opened. */
    ghost var log: seq<Event>
    ghost const origin: Fs

    constructor (fs: Fs)
      requires Inv(fs)
      ensures this.fs == fs && origin == fs && log == [] && Valid()
    {
      this.fs := fs;
      origin := fs;
      log := [];
    }

    ghost predicate Valid()
      reads this
    {
      Inv(fs) && Ran(origin, log, fs)
    }

    method Take(e: Event)
      requires Valid() && Enabled(fs, e)
      modifies this
      ensures Valid() && fs == Apply(old(fs), e) && log == old(log) + [e]
    {
      RanOne(origin, log, fs, e);
      StepKeepsInv(fs, e);
      fs := Apply(fs, e);
      log := log + [e];
    }

    /** Replaces a bucket file, or the index: temp file, sync, rename. */
    method WriteBucket(f: File, value: string, fault: Fault, removeFails: bool) returns (ok: bool)
      requires Valid() && f !in fs.jobs
      modifies this
      ensures Valid() && f !in fs.jobs && fs.snapJob == old(fs.snapJob)
      ensures ok <==> fault == NoFault
      ensures ReadLive(fs, f) == if ok then Some(Whole(value)) else old(ReadLive(fs, f))
      ensures forall g :: g != f ==> ReadLive(fs, g) == old(ReadLive(fs, g))
      ensures fs.cur.dirs == old(fs.cur.dirs)
    {
      if fault == CreateFails {
        return false;
      }
      hide Inv, Ran;
      ghost var start := fs;
      Take(StartWrite(f, value));
      StartLeaves(start, StartWrite(f, value), f);
      ok := Finish(f, Tmp(f), Whole(value), fault, removeFails);
    }

    /** The steps after the temp file has been created, up to the rename onto the live path. */
    method Finish(f: File, ghost temp: Name, ghost goal: Content, fault: Fault, removeFails: bool) returns (ok: bool)
      requires Valid() && f in fs.jobs && fs.jobs[f].stage == Filling && fs.jobs[f].goal == goal
      requires temp == Tmp(f) && fs.jobs[f].temp == temp && fault != CreateFails
      modifies this
      ensures Valid() && fs.jobs == old(fs.jobs) - {f} && fs.snapJob == old(fs.snapJob)
      ensures ok <==> fault == NoFault
      ensures ReadLive(fs, f) == if ok then Some(goal) else old(ReadLive(fs, f))
      ensures forall g :: g != f ==> ReadLive(fs, g) == old(ReadLive(fs, g))
      ensures fs.cur.dirs == old(fs.cur.dirs)
    {
      hide Inv, Ran, Apply, Enabled, ReadLive;
      ok := WriteTemp(f, fault);
      if !ok {
        Drop(f, removeFails);
        return;
      }
      MoveOntoLive(f);
    }

    /** The last step: the temp file is renamed onto the live path. */
    method MoveOntoLive(f: File)
      requires Valid() && f in fs.jobs && fs.jobs[f].stage == Synced && fs.jobs[f].temp == Tmp(f)
      modifies this
      ensures Valid() && fs.jobs == old(fs.jobs) - {f} && fs.snapJob == old(fs.snapJob)
      ensures ReadLive(fs, f) == Some(old(fs.jobs)[f].goal)
      ensures forall g :: g != f ==> ReadLive(fs, g) == old(ReadLive(fs, g))
      ensures fs.cur.dirs == old(fs.cur.dirs)
    {
      ghost var start := fs;
      JobFacts(fs, f);
      Take(Commit(f));
      CommitLeaves(start, f);
    }

    /** Writes, syncs and closes the temp file. */
    method WriteTemp(f: File, fault: Fault) returns (ok: bool)
      requires Valid() && f in fs.jobs && fs.jobs[f].stage == Filling && fault != CreateFails
      modifies this
      ensures Valid() && f in fs.jobs && fs.jobs == old(fs.jobs)[f := fs.jobs[f]]
      ensures fs.jobs[f] == old(fs.jobs)[f].(stage := fs.jobs[f].stage) && fs.snapJob == old(fs.snapJob)
      ensures ok <==> fault == NoFault
      ensures ok ==> fs.jobs[f].stage == Synced
      ensures forall g :: ReadLive(fs, g) == old(ReadLive(fs, g))
      ensures fs.cur == old(fs.cur)
    {
      hide Inv, Ran;
      ghost var start := fs;
      Take(Fill(f, fault != WriteFails));
      TempLeaves(start, Fill(f, fault != WriteFails));
      if fault == WriteFails {
        return false;
      }
      start := fs;
      if fault == SyncFails {
        return false;
      }
      Take(Sync(f));
      TempLeaves(start, Sync(f));
      ok := fault == NoFault;
    }

    method Drop(f: File, removeFails: bool)
      requires Valid() && f in fs.jobs
      modifies this
      ensures Valid() && fs.jobs == old(fs.jobs) - {f} && fs.snapJob == old(fs.snapJob)
      ensures forall g :: ReadLive(fs, g) == old(ReadLive(fs, g))
      ensures fs.cur.dirs == old(fs.cur.dirs)
    {
      ghost var start := fs;
      Take(Abort(f, !removeFails));
      AbortLeaves(start, f, !removeFails);
    }

    /** Puts a bucket back from the snapshot of a date: copied beside the live file, moved to the temp
        name, read back, and only then renamed onto the live path. */
    method RestoreBucket(f: File, date: Date, copyFault: Fault, renameFails: bool, removeFails: bool) returns (ok: bool)
      requires Valid() && f !in fs.jobs && f.Bucket?
      modifies this
      ensures Valid() && f !in fs.jobs && fs.snapJob == old(fs.snapJob)
      ensures ok <==> copyFault == NoFault && !renameFails
                      && old(ReadSnapshot(fs, date, Main(f))).Some? && old(ReadSnapshot(fs, date, Main(f))).value.Whole?
      ensures ReadLive(fs, f) == if ok then old(ReadSnapshot(fs, date, Main(f))) else old(ReadLive(fs, f))
      ensures forall g :: g != f ==> ReadLive(fs, g) == old(ReadLive(fs, g))
      ensures fs.cur.dirs == old(fs.cur.dirs)
    {
      var copy := ReadSnapshot(fs, date, Main(f));
      if copy.None? || copy.value.Torn? {
        return false;
      }
      ghost var start := fs;
      if copyFault == CreateFails {
        Take(DropTmp(f));
        DropTmpLeaves(start, f);
        return false;
      }
      Take(StartRestore(f, date));
      StartLeaves(start, StartRestore(f, date), f);
      hide Inv, Ran, Create, Apply, Enabled;
      ok := WriteTemp(f, if copyFault == RenameFails then NoFault else copyFault);
      ok := ok && copyFault != RenameFails;
      if ok {
        Install(f, renameFails, removeFails);
        ok := !renameFails;
      } else {
        Drop(f, removeFails);
      }
    }

    /** From the finished copy to the live path. */
    method Install(f: File, renameFails: bool, removeFails: bool)
      requires Valid() && f in fs.jobs && fs.jobs[f].stage == Synced && fs.jobs[f].temp == Partial(f)
      modifies this
      ensures Valid() && fs.jobs == old(fs.jobs) - {f} && fs.snapJob == old(fs.snapJob)
      ensures ReadLive(fs, f) == if renameFails then old(ReadLive(fs, f)) else Some(old(fs.jobs)[f].goal)
      ensures forall g :: g != f ==> ReadLive(fs, g) == old(ReadLive(fs, g))
      ensures fs.cur.dirs == old(fs.cur.dirs)
    {
      hide Inv, Ran, Apply, Enabled, ReadLive;
      MoveToTmp(f);
      var back := Read(fs, fs.cur, Tmp(f));
      if back.None? || back.value.Torn? || renameFails {
        Drop(f, removeFails);
        return;
      }
      MoveOntoLive(f);
    }

    method MoveToTmp(f: File)
      requires Valid() && f in fs.jobs && fs.jobs[f].stage == Synced && fs.jobs[f].temp == Partial(f)
      modifies this
      ensures Valid() && fs.jobs == old(fs.jobs)[f := old(fs.jobs)[f].(temp := Tmp(f))] && fs.snapJob == old(fs.snapJob)
      ensures Read(fs, fs.cur, Tmp(f)) == Some(fs.jobs[f].goal) && fs.jobs[f].goal.Whole?
      ensures forall g :: ReadLive(fs, g) == old(ReadLive(fs, g))
      ensures fs.cur.dirs == old(fs.cur.dirs)
    {
      ghost var start := fs;
      JobFacts(fs, f);
      Take(MovePartial(f));
      MoveLeaves(start, f);
    }

    /** Puts a damaged bucket aside. */
    method QuarantineBucket(f: File, renameFails: bool)
      requires Valid() && f.Bucket? && Main(f) in fs.cur.live
      modifies this
      ensures Valid() && fs.jobs == old(fs.jobs) && fs.snapJob == old(fs.snapJob)
      ensures ReadLive(fs, f) == None
      ensures !renameFails ==> Read(fs, fs.cur, Corrupt(f)) == old(ReadLive(fs, f))
      ensures forall g :: g != f ==> ReadLive(fs, g) == old(ReadLive(fs, g))
      ensures fs.cur.dirs == old(fs.cur.dirs)
    {
      ghost var start := fs;
      Take(Quarantine(f, !renameFails));
      QuarantineLeaves(start, f, !renameFails);
    }

    /** The snapshot of a day, and then the pruning, which also runs when the day has its snapshot. */
    method DailyDataSnapshot(date: Date, beginFails: bool, failing: set<Name>, renameFails: bool,
                             dayOf: Date -> Option<int>, cutoff: int)
                             returns (published: bool)
      requires Valid() && fs.snapJob.None?
      modifies this
      ensures Valid() && fs.snapJob.None? && fs.jobs == old(fs.jobs) && fs.cur.live == old(fs.cur.live)
              && fs.data == old(fs.data)
      ensures published
              <==> Published(date) !in old(fs.cur.dirs) && !beginFails && !renameFails
                   && exists n :: n in old(fs.cur.live) && n.file.Bucket? && !n.Tmp? && n !in failing
      ensures published || Published(date) in old(fs.cur.dirs) ==>
                forall p :: p in fs.cur.dirs
                            <==> (p in old(fs.cur.dirs) || (published && p == Published(date)))
                                 && p.Published? && (dayOf(p.date).Some? ==> dayOf(p.date).value >= cutoff)
      ensures published && Published(date) in fs.cur.dirs ==>
                forall n ::
                  ReadSnapshot(fs, date, n)
                  == if n in old(fs.cur.live) && n !in failing && ((n.file.Bucket? && !n.Tmp?) || n == Main(MasterDb))
                     then old(Read(fs, fs.cur, n)) else None
      ensures !published && Published(date) !in old(fs.cur.dirs) ==>
                forall d :: Published(d) in fs.cur.dirs <==> Published(d) in old(fs.cur.dirs)
    {
      hide Inv, Ran, Linked;
      if Published(date) in fs.cur.dirs {
        PruneDataSnapshots(dayOf, cutoff);
        return false;
      }
      published := TakeSnapshot(date, beginFails, failing, renameFails);
      if published {
        PruneDataSnapshots(dayOf, cutoff);
      }
    }

    /** A directory of links, built aside and renamed into place. beginFails says that its directory cannot
        be made, and failing are the names that cannot be linked. */
    method TakeSnapshot(date: Date, beginFails: bool, failing: set<Name>, renameFails: bool) returns (published: bool)
      requires Valid() && fs.snapJob.None? && Published(date) !in fs.cur.dirs
      modifies this
      ensures Valid() && fs.snapJob.None? && fs.jobs == old(fs.jobs) && fs.cur.live == old(fs.cur.live)
              && fs.data == old(fs.data)
      ensures published
              <==> !beginFails && !renameFails
                   && exists n :: n in old(fs.cur.live) && n.file.Bucket? && !n.Tmp? && n !in failing
      ensures forall d ::
                Published(d) in fs.cur.dirs <==> Published(d) in old(fs.cur.dirs) || (published && d == date)
      ensures published ==>
                forall n ::
                  ReadSnapshot(fs, date, n)
                  == if n in old(fs.cur.live) && n !in failing && ((n.file.Bucket? && !n.Tmp?) || n == Main(MasterDb))
                     then old(Read(fs, fs.cur, n)) else None
    {
      if beginFails {
        DropStaging(date);
        return false;
      }
      ghost var start := fs;
      hide Inv, Ran, Apply, Enabled, Linking, Entries, ReadSnapshot, Linked;
      BeginSnapshot(date);
      var linked := LinkAll(date, failing, start);
      if !linked || renameFails {
        Abandon(date, start);
        return false;
      }
      Publish(date, start);
      published := true;
    }

    method DropStaging(date: Date)
      requires Valid() && fs.snapJob.None?
      modifies this
      ensures Valid() && fs.snapJob.None? && fs.jobs == old(fs.jobs) && fs.cur.live == old(fs.cur.live)
              && fs.data == old(fs.data)
      ensures forall d :: Published(d) in fs.cur.dirs <==> Published(d) in old(fs.cur.dirs)
    {
      Take(PruneStaging(date));
      hide Inv, Ran;
    }

    method BeginSnapshot(date: Date)
      requires Valid() && fs.snapJob.None? && Published(date) !in fs.cur.dirs
      modifies this
      ensures Valid() && Linking(old(fs), fs, date) && Entries(fs, date) == map[]
    {
      ghost var start := fs;
      Take(SnapBegin(date));
      SnapBeginLeaves(start, date);
    }

    /** Links the buckets, and beside them the index unless there was no bucket to link. */
    method LinkAll(date: Date, failing: set<Name>, ghost start: Fs) returns (linked: bool)
      requires Valid() && Linking(start, fs, date) && Entries(fs, date) == map[]
      modifies this
      ensures Valid() && Linking(start, fs, date)
      ensures linked <==> exists n :: n in start.cur.live && n.file.Bucket? && !n.Tmp? && n !in failing
      ensures linked ==> Entries(fs, date) != map[]
      ensures linked ==>
                forall n ::
                  n in Entries(fs, date)
                  <==> n in start.cur.live && n !in failing && ((n.file.Bucket? && !n.Tmp?) || n == Main(MasterDb))
    {
      LinkBuckets(date, failing, start);
      assert fs.cur.live == start.cur.live;
      hide Inv, Ran, Linking, Linked;
      LinkedNames();
      linked := Entries(fs, date) != map[];
      SomeEntry(Entries(fs, date));
      if linked && Main(MasterDb) in fs.cur.live && Main(MasterDb) !in failing {
        Link(date, Main(MasterDb), start);
      }
    }

    /** Drops what is left of unfinished snapshots, and the snapshots older than the cutoff. dayOf gives
        the day of a date, or nothing when it is not one. */
    method PruneDataSnapshots(dayOf: Date -> Option<int>, cutoff: int)
      requires Valid() && fs.snapJob.None?
      modifies this
      ensures Valid() && fs.snapJob.None? && fs.jobs == old(fs.jobs) && fs.cur.live == old(fs.cur.live)
              && fs.data == old(fs.data)
      ensures forall p ::
                p in fs.cur.dirs
                <==> p in old(fs.cur.dirs) && p.Published? && (dayOf(p.date).Some? ==> dayOf(p.date).value >= cutoff)
      ensures forall p :: p in fs.cur.dirs ==> fs.cur.dirs[p] == old(fs.cur.dirs)[p]
    {
      hide Inv, Ran;
      var left := set p | p in fs.cur.dirs && Expired(p, dayOf, cutoff);
      while left != {}
        invariant Valid() && fs.snapJob.None? && fs.jobs == old(fs.jobs) && fs.cur.live == old(fs.cur.live)
                  && fs.data == old(fs.data)
        invariant forall p :: p in left ==> Expired(p, dayOf, cutoff)
        invariant forall p :: p in fs.cur.dirs <==> p in old(fs.cur.dirs) && (!Expired(p, dayOf, cutoff) || p in left)
        invariant forall p :: p in fs.cur.dirs ==> fs.cur.dirs[p] == old(fs.cur.dirs)[p]
        decreases left
      {
        var p :| p in left;
        left := left - {p};
        if p.Published? {
          Take(PruneDir(p.date));
        } else {
          Take(PruneStaging(p.date));
        }
      }
    }

    /** The snapshots of a file, newest first; dates that are not dates are passed over. */
    method SnapshotDays(dayOf: Date -> Option<int>) returns (dates: seq<Date>)
      ensures forall d :: d in dates <==> Published(d) in fs.cur.dirs && dayOf(d).Some?
      ensures forall i, j :: 0 <= i < j < |dates| ==> dayOf(dates[i]).value >= dayOf(dates[j]).value
      ensures NoDuplicates(dates)
    {
      dates := [];
      var left := set p | p in fs.cur.dirs && p.Published?;
      while left != {}
        invariant left <= fs.cur.dirs.Keys && forall p :: p in left ==> p.Published?
        invariant forall d :: d in dates <==> Published(d) in fs.cur.dirs && Published(d) !in left && dayOf(d).Some?
        invariant NewestFirst(dates, dayOf) && NoDuplicates(dates)
        decreases left
      {
        var p :| p in left;
        left := left - {p};
        if dayOf(p.date).Some? {
          InsertDateKeeps(dates, p.date, dayOf);
          InsertDateDistinct(dates, p.date, dayOf);
          dates := InsertDate(dates, p.date, dayOf);
        }
      }
    }

    /** The newest snapshot that holds a readable copy, or the one of the wanted date. */
    method PickSnapshot(f: File, wanted: Option<Date>, dayOf: Date -> Option<int>) returns (pick: Option<Date>)
      ensures pick.None? <==> forall d :: !Usable(fs, f, wanted, dayOf, d)
      ensures pick.Some? ==> Usable(fs, f, wanted, dayOf, pick.value)
      ensures pick.Some? ==> forall d :: Usable(fs, f, wanted, dayOf, d) ==> dayOf(d).value <= dayOf(pick.value).value
      ensures pick.Some? ==>
                Published(pick.value) in fs.cur.dirs && (wanted.Some? ==> pick == wanted)
                && exists v :: ReadSnapshot(fs, pick.value, Main(f)) == Some(Whole(v))
      ensures pick.None? ==>
                forall d, v :: Published(d) in fs.cur.dirs && dayOf(d).Some? && (wanted.None? || wanted == Some(d)) ==>
                                 ReadSnapshot(fs, d, Main(f)) != Some(Whole(v))
    {
      var dates := SnapshotDays(dayOf);
      for k := 0 to |dates|
        invariant forall i :: 0 <= i < k ==> !Usable(fs, f, wanted, dayOf, dates[i])
      {
        assert dates[k] in dates;
        if (wanted.None? || dates[k] == wanted.value) && Readable(fs, f, dates[k]) {
          FirstIsNewest(fs, f, wanted, dayOf, dates, k);
          assert Usable(fs, f, wanted, dayOf, dates[k]);
          return Some(dates[k]);
        }
      }
      forall d ensures !Usable(fs, f, wanted, dayOf, d) {
        if d in dates {
          var i :| 0 <= i < |dates| && dates[i] == d;
        }
      }
      pick := None;
    }

    method Link(date: Date, n: Name, ghost start: Fs)
      requires Valid() && Linking(start, fs, date) && n in fs.cur.live && Linked(n) && n !in Entries(fs, date)
      modifies this
      ensures Valid() && Linking(start, fs, date) && Entries(fs, date).Keys == old(Entries(fs, date)).Keys + {n}
    {
      ghost var before := fs;
      Take(SnapLink(n));
      hide Inv, Ran;
      SnapLinkLeaves(start, before, date, n);
    }

    /** The walk over the bucket directory. */
    method LinkBuckets(date: Date, failing: set<Name>, ghost start: Fs)
      requires Valid() && Linking(start, fs, date) && Entries(fs, date) == map[]
      modifies this
      ensures Valid() && Linking(start, fs, date)
      ensures forall n ::
                n in Entries(fs, date) <==> n in start.cur.live && n.file.Bucket? && !n.Tmp? && n !in failing
    {
      LinkedNames();
      var left := set n | n in fs.cur.live && Linked(n) && n.file.Bucket?;
      assert fs.cur.live == start.cur.live;
      ghost var all := left;
      hide Inv, Ran;
      while left != {}
        invariant Valid() && Linking(start, fs, date) && left <= all
        invariant Entries(fs, date).Keys == all - left - failing
        decreases left
      {
        var n :| n in left;
        left := left - {n};
        if n !in failing {
          Link(date, n, start);
        }
      }
    }

    method Abandon(date: Date, ghost start: Fs)
      requires Valid() && Linking(start, fs, date)
      modifies this
      ensures Valid() && fs.snapJob.None? && fs.jobs == start.jobs && fs.cur.live == start.cur.live
              && fs.data == start.data
      ensures forall d :: Published(d) in fs.cur.dirs <==> Published(d) in start.cur.dirs
    {
      ghost var before := fs;
      Take(SnapAbandon);
      SnapAbandonLeaves(start, before, date);
    }

    method Publish(date: Date, ghost start: Fs)
      requires Valid() && Linking(start, fs, date) && Entries(fs, date) != map[]
      modifies this
      ensures Valid() && fs.snapJob.None? && fs.jobs == start.jobs && fs.cur.live == start.cur.live
              && fs.data == start.data
      ensures forall d :: Published(d) in fs.cur.dirs <==> Published(d) in start.cur.dirs || d == date
      ensures forall n :: ReadSnapshot(fs, date, n) == if n in old(Entries(fs, date)) then Read(start, start.cur, n)
              else None
    {
      ghost var before := fs;
      Take(SnapPublish);
      hide Inv, Ran;
      SnapPublishLeaves(start, before, date);
    }
  }

  /** The snapshot takes the bucket files that do not end in the temp suffix, and the index. */
  lemma LinkedNames()
    ensures forall n :: Linked(n) <==> (n.file.Bucket? && !n.Tmp?) || n == Main(MasterDb)
  {
  }

  lemma SomeEntry(m: map<Name, Ino>)
    ensures m != map[] <==> exists n :: n in m
  {
  }

  predicate Expired(p: Place, dayOf: Date -> Option<int>, cutoff: int) {
    match p
    case Staging(_) => true
    case Published(date) => dayOf(date).Some? && dayOf(date).value < cutoff
  }

  predicate Readable(fs: Fs, f: File, date: Date) {
    ReadSnapshot(fs, date, Main(f)).Some? && ReadSnapshot(fs, date, Main(f)).value.Whole?
  }

  predicate Usable(fs: Fs, f: File, wanted: Option<Date>, dayOf: Date -> Option<int>, date: Date) {
    Published(date) in fs.cur.dirs && dayOf(date).Some? && (wanted.None? || date == wanted.value)
        && Readable(fs, f, date)
  }

  ghost predicate NewestFirst(dates: seq<Date>, dayOf: Date -> Option<int>) {
    && (forall i :: 0 <= i < |dates| ==> dayOf(dates[i]).Some?)
    && (forall i, j :: 0 <= i < j < |dates| ==> dayOf(dates[i]).value >= dayOf(dates[j]).value)
  }

  function InsertDate(dates: seq<Date>, date: Date, dayOf: Date -> Option<int>): seq<Date>
    requires NewestFirst(dates, dayOf) && dayOf(date).Some?
  {
    if dates == [] || dayOf(dates[0]).value <= dayOf(date).value then [date] + dates
    else [dates[0]] + InsertDate(dates[1..], date, dayOf)
  }

  lemma {:induction false} InsertDateKeeps(dates: seq<Date>, date: Date, dayOf: Date -> Option<int>)
    requires NewestFirst(dates, dayOf) && dayOf(date).Some?
    ensures NewestFirst(InsertDate(dates, date, dayOf), dayOf)
    ensures forall d :: d in InsertDate(dates, date, dayOf) <==> d == date || d in dates
  {
    if dates == [] || dayOf(dates[0]).value <= dayOf(date).value {
    } else {
      InsertDateKeeps(dates[1..], date, dayOf);
      assert dates == [dates[0]] + dates[1..];
      var r := InsertDate(dates[1..], date, dayOf);
      forall j | 0 <= j < |r| ensures dayOf(r[j]).value <= dayOf(dates[0]).value {
        assert r[j] in r;
      }
    }
  }

  lemma {:induction false} InsertDateDistinct(dates: seq<Date>, date: Date, dayOf: Date -> Option<int>)
    requires NewestFirst(dates, dayOf) && dayOf(date).Some? && NoDuplicates(dates) && date !in dates
    ensures NoDuplicates(InsertDate(dates, date, dayOf))
  {
    if dates == [] || dayOf(dates[0]).value <= dayOf(date).value {
    } else {
      InsertDateDistinct(dates[1..], date, dayOf);
      InsertDateKeeps(dates[1..], date, dayOf);
      TailMembers(dates);
      assert dates[0] !in InsertDate(dates[1..], date, dayOf);
      hide NewestFirst;
    }
  }

  lemma FirstIsNewest(fs: Fs, f: File, wanted: Option<Date>, dayOf: Date -> Option<int>, dates: seq<Date>, k: nat)
    requires NewestFirst(dates, dayOf) && k < |dates|
    requires forall d :: d in dates <==> Published(d) in fs.cur.dirs && dayOf(d).Some?
    requires forall i :: 0 <= i < k ==> !Usable(fs, f, wanted, dayOf, dates[i])
    ensures forall d :: Usable(fs, f, wanted, dayOf, d) ==> dayOf(d).value <= dayOf(dates[k]).value
  {
    forall d | Usable(fs, f, wanted, dayOf, d) ensures dayOf(d).value <= dayOf(dates[k]).value {
      assert d in dates;
      var i :| 0 <= i < |dates| && dates[i] == d;
    }
  }

  function Entries(fs: Fs, date: Date): map<Name, Ino> {
    if Staging(date) in fs.cur.dirs then fs.cur.dirs[Staging(date)].entries else map[]
  }

  /** While the snapshot of a date is being built: links to the live files as they were. */
  ghost predicate Linking(start: Fs, fs: Fs, date: Date) {
    && fs.snapJob.Some? && fs.snapJob.value.date == date && Staging(date) in fs.cur.dirs
    && fs.cur.live == start.cur.live && fs.data == start.data && fs.jobs == start.jobs
    && Published(date) !in fs.cur.dirs
    && (forall d :: Published(d) in fs.cur.dirs <==> Published(d) in start.cur.dirs)
    && var entries := fs.cur.dirs[Staging(date)].entries;
       forall n :: n in entries ==> n in start.cur.live && Linked(n) && entries[n] == start.cur.live[n]
  }

  lemma SnapBeginLeaves(fs: Fs, date: Date)
    requires Inv(fs) && Enabled(fs, SnapBegin(date))
    ensures Linking(fs, Apply(fs, SnapBegin(date)), date)
    ensures Apply(fs, SnapBegin(date)).cur.dirs[Staging(date)].entries == map[]
  {
  }

  lemma SnapLinkLeaves(start: Fs, fs: Fs, date: Date, n: Name)
    requires Linking(start, fs, date) && Enabled(fs, SnapLink(n))
    ensures Linking(start, Apply(fs, SnapLink(n)), date)
    ensures Apply(fs, SnapLink(n)).cur.dirs[Staging(date)].entries.Keys == fs.cur.dirs[Staging(date)].entries.Keys + {n}
  {
  }

  lemma SnapAbandonLeaves(start: Fs, fs: Fs, date: Date)
    requires Linking(start, fs, date)
    ensures var after := Apply(fs, SnapAbandon);
            after.snapJob.None? && after.jobs == start.jobs && after.cur.live == start.cur.live
                && after.data == start.data
            && forall d :: Published(d) in after.cur.dirs <==> Published(d) in start.cur.dirs
  {
  }

  lemma SnapPublishLeaves(start: Fs, fs: Fs, date: Date)
    requires Linking(start, fs, date) && Enabled(fs, SnapPublish)
    ensures var after := Apply(fs, SnapPublish);
            after.snapJob.None? && after.jobs == start.jobs && after.cur.live == start.cur.live
                && after.data == start.data
            && (forall d :: Published(d) in after.cur.dirs <==> Published(d) in start.cur.dirs || d == date)
            && forall n :: ReadSnapshot(after, date, n)
                 == if n in fs.cur.dirs[Staging(date)].entries then Read(start, start.cur, n) else None
  {
  }

  lemma DropTmpLeaves(fs: Fs, f: File)
    requires Inv(fs) && Enabled(fs, DropTmp(f))
    ensures var after := Apply(fs, DropTmp(f));
            after.cur.dirs == fs.cur.dirs && after.jobs == fs.jobs && after.snapJob == fs.snapJob
            && forall g :: ReadLive(after, g) == ReadLive(fs, g)
  {
  }

  lemma MoveLeaves(fs: Fs, f: File)
    requires Inv(fs) && Enabled(fs, MovePartial(f))
    ensures var after := Apply(fs, MovePartial(f));
            after.cur.dirs == fs.cur.dirs && after.snapJob == fs.snapJob
            && after.jobs == fs.jobs[f := fs.jobs[f].(temp := Tmp(f))]
            && Read(after, after.cur, Tmp(f)) == Some(fs.jobs[f].goal) && fs.jobs[f].goal.Whole?
            && forall g :: ReadLive(after, g) == ReadLive(fs, g)
  {
    assert JobInv(fs, f, fs.jobs[f]);
  }

  lemma QuarantineLeaves(fs: Fs, f: File, renamed: bool)
    requires Inv(fs) && Enabled(fs, Quarantine(f, renamed))
    ensures var after := Apply(fs, Quarantine(f, renamed));
            after.cur.dirs == fs.cur.dirs && after.jobs == fs.jobs && after.snapJob == fs.snapJob
            && ReadLive(after, f) == None && (renamed ==> Read(after, after.cur, Corrupt(f)) == ReadLive(fs, f))
            && forall g :: g != f ==> ReadLive(after, g) == ReadLive(fs, g)
  {
  }

  lemma JobFacts(fs: Fs, f: File)
    requires Inv(fs) && f in fs.jobs
    ensures fs.jobs[f].temp in fs.cur.live && OwnName(f, fs.jobs[f].temp)
  {
    assert JobInv(fs, f, fs.jobs[f]);
  }

  lemma AllLiveKept(fs: Fs, e: Event)
    requires Inv(fs) && Enabled(fs, e)
    ensures forall g :: Read(Apply(fs, e), fs.cur, Main(g)) == ReadLive(fs, g)
  {
    hide Inv, Apply, Enabled, Read;
    forall g ensures Read(Apply(fs, e), fs.cur, Main(g)) == ReadLive(fs, g) {
      LiveContentsKept(fs, e, fs.cur, g);
    }
  }

  lemma StartLeaves(fs: Fs, e: Event, f: File)
    requires Inv(fs) && Enabled(fs, e) && (e.StartWrite? || e.StartRestore?) && e.file == f
    ensures var after := Apply(fs, e);
            after.cur.dirs == fs.cur.dirs && after.snapJob == fs.snapJob && after.jobs == fs.jobs[f := after.jobs[f]]
            && (forall g :: ReadLive(after, g) == ReadLive(fs, g))
  {
    AllLiveKept(fs, e);
    CreateFrame(fs, if e.StartWrite? then Tmp(f) else Partial(f));
    hide Inv;
  }

  lemma TempLeaves(fs: Fs, e: Event)
    requires Inv(fs) && Enabled(fs, e) && (e.Fill? || e.Sync?)
    ensures Apply(fs, e).cur == fs.cur && forall g :: ReadLive(Apply(fs, e), g) == ReadLive(fs, g)
  {
    AllLiveKept(fs, e);
    hide Inv;
  }

  lemma CommitLeaves(fs: Fs, f: File)
    requires Inv(fs) && Enabled(fs, Commit(f))
    ensures var after := Apply(fs, Commit(f));
            after.cur.dirs == fs.cur.dirs && ReadLive(after, f) == Some(fs.jobs[f].goal)
            && forall g :: g != f ==> ReadLive(after, g) == ReadLive(fs, g)
  {
    assert JobInv(fs, f, fs.jobs[f]);
  }

  lemma AbortLeaves(fs: Fs, f: File, removed: bool)
    requires Inv(fs) && Enabled(fs, Abort(f, removed))
    ensures var after := Apply(fs, Abort(f, removed));
            after.cur.dirs == fs.cur.dirs && forall g :: ReadLive(after, g) == ReadLive(fs, g)
  {
    assert JobInv(fs, f, fs.jobs[f]);
  }
}
