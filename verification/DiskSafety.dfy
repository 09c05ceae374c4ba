/** What every run over the file system keeps: published snapshots stay as they are until they are
    pruned, and a live path reads as a whole old or a whole new file, wherever power is lost. */
module DiskSafety {
  import opened Disk
  import opened Options

  ghost predicate Jobs(fs: Fs) { forall f :: f in fs.jobs ==> JobInv(fs, f, fs.jobs[f]) }

  ghost predicate Snap(fs: Fs) {
    fs.snapJob.Some? ==>
      && Staging(fs.snapJob.value.date) in fs.cur.dirs
      && fs.cur.dirs[Staging(fs.snapJob.value.date)].id == fs.snapJob.value.id
      && fs.snapJob.value.id !in fs.pages
  }

  lemma InvParts(fs: Fs)
    ensures Inv(fs) <==> Base(fs) && Jobs(fs) && Snap(fs)
  {
  }

  ghost predicate OwnName(f: File, n: Name) { n == Tmp(f) || n == Partial(f) }

  /** Writers are not touched by a change under the names of another file. */
  lemma OtherJobs(before: Fs, after: Fs, f: File)
    requires Base(before) && Jobs(before)
    requires forall g :: g in after.jobs && g != f ==> g in before.jobs && after.jobs[g] == before.jobs[g]
    requires forall n :: n in before.cur.live && Temp(n) && !OwnName(f, n) ==>
               n in after.cur.live && after.cur.live[n] == before.cur.live[n]
    requires forall i :: i in before.data && i !in Own(before, f) ==> i in after.data && after.data[i] == before.data[i]
    requires forall i :: i in after.unsynced && i in before.data && i !in Own(before, f) ==> i in before.unsynced
    ensures forall g :: g in after.jobs && g != f ==> JobInv(after, g, after.jobs[g])
  {
    assert SpaceInv(before, before.cur);
    forall g | g in after.jobs && g != f ensures JobInv(after, g, after.jobs[g]) {
      assert JobInv(before, g, before.jobs[g]);
      assert !OwnName(f, before.jobs[g].temp);
      assert before.jobs[g].ino !in Own(before, f);
    }
  }

  /** The inodes a file's temp names are bound to. */
  function Own(fs: Fs, f: File): set<Ino> {
    (if Tmp(f) in fs.cur.live then {fs.cur.live[Tmp(f)]} else {})
    + (if Partial(f) in fs.cur.live then {fs.cur.live[Partial(f)]} else {})
  }

  lemma StartKeeps(fs: Fs, f: File, n: Name, goal: Content)
    requires Inv(fs) && OwnName(f, n) && goal.Whole?
    ensures Inv(WithJob(Create(fs, n), f, Job(n, CreatedIno(fs, n), goal, Filling)))
  {
    var created := Create(fs, n);
    var after := WithJob(created, f, Job(n, CreatedIno(fs, n), goal, Filling));
    InvParts(fs);
    CreateKeeps(fs, n);
    CreateTouches(fs, f, n);
    hide SpaceInv, Create;
    SameBase(created, after);
    OtherJobs(fs, after, f);
    InvParts(after);
  }

  lemma CreateTouches(fs: Fs, f: File, n: Name)
    requires Inv(fs) && OwnName(f, n)
    ensures var after := Create(fs, n);
            (forall m :: m in fs.cur.live && m != n ==> m in after.cur.live && after.cur.live[m] == fs.cur.live[m])
            && (forall i :: i in fs.data && i !in Own(fs, f) ==> i in after.data && after.data[i] == fs.data[i])
            && (forall i :: i in after.unsynced && i in fs.data && i !in Own(fs, f) ==> i in fs.unsynced)
            && CreatedIno(fs, n) in after.data
            && after.jobs == fs.jobs && after.snapJob == fs.snapJob && after.pages == fs.pages
               && after.cur.dirs == fs.cur.dirs
  {
    hide SpaceInv, JobInv;
    if n in fs.cur.live {
    } else {
      assert fs.nextIno !in fs.data;
    }
  }

  /** Base does not look at the writers. */
  lemma SameBase(a: Fs, b: Fs)
    requires Base(a) && b == a.(jobs := b.jobs, snapJob := b.snapJob)
    ensures Base(b)
  {
    PagesOnlyOfData(a, b);
    hide Page;
    forall sp | Possible(b, sp) ensures SpaceInv(b, sp) {
      assert Possible(a, sp);
    }
  }

  lemma FillKeeps(fs: Fs, f: File, whole: bool)
    requires Inv(fs) && Enabled(fs, Fill(f, whole))
    ensures Inv(Apply(fs, Fill(f, whole)))
  {
    var after := Apply(fs, Fill(f, whole));
    var j := fs.jobs[f];
    InvParts(fs);
    assert JobInv(fs, f, j);
    assert j.ino in Temps(fs.cur);
    WriteKeeps(fs, j.ino, if whole then j.goal else Torn);
    OtherJobs(fs, after, f);
    hide SpaceInv;
    SameBase(after.(jobs := fs.jobs), after);
    InvParts(after);
  }

  lemma SyncStep(fs: Fs, f: File)
    requires Inv(fs) && Enabled(fs, Sync(f))
    ensures Inv(Apply(fs, Sync(f)))
  {
    var after := Apply(fs, Sync(f));
    InvParts(fs);
    assert JobInv(fs, f, fs.jobs[f]);
    SyncKeeps(fs, fs.jobs[f].ino);
    OtherJobs(fs, after, f);
    hide SpaceInv;
    SameBase(after.(jobs := fs.jobs), after);
    InvParts(after);
  }

  lemma MoveKeeps(fs: Fs, f: File)
    requires Inv(fs) && Enabled(fs, MovePartial(f))
    ensures Inv(Apply(fs, MovePartial(f)))
  {
    var after := Apply(fs, MovePartial(f));
    InvParts(fs);
    assert JobInv(fs, f, fs.jobs[f]);
    RenameKeeps(fs, Partial(f), Tmp(f));
    OtherJobs(fs, after, f);
    hide SpaceInv;
    SameBase(after.(jobs := fs.jobs), after);
    InvParts(after);
  }

  lemma CommitKeeps(fs: Fs, f: File)
    requires Inv(fs) && Enabled(fs, Commit(f))
    ensures Inv(Apply(fs, Commit(f)))
  {
    var after := Apply(fs, Commit(f));
    InvParts(fs);
    assert JobInv(fs, f, fs.jobs[f]);
    RenameKeeps(fs, Tmp(f), Main(f));
    OtherJobs(fs, after, f);
    hide SpaceInv;
    SameBase(after.(jobs := fs.jobs), after);
    InvParts(after);
  }

  lemma AbortKeeps(fs: Fs, f: File, removed: bool)
    requires Inv(fs) && Enabled(fs, Abort(f, removed))
    ensures Inv(Apply(fs, Abort(f, removed)))
  {
    var after := Apply(fs, Abort(f, removed));
    InvParts(fs);
    assert JobInv(fs, f, fs.jobs[f]);
    if removed {
      RemoveKeeps(fs, fs.jobs[f].temp);
      RemoveKeeps(Remove(fs, fs.jobs[f].temp), Tmp(f));
    }
    OtherJobs(fs, after, f);
    hide SpaceInv;
    SameBase(after.(jobs := fs.jobs), after);
    InvParts(after);
  }

  lemma DropTmpKeeps(fs: Fs, f: File)
    requires Inv(fs) && Enabled(fs, DropTmp(f))
    ensures Inv(Apply(fs, DropTmp(f)))
  {
    var after := Apply(fs, DropTmp(f));
    InvParts(fs);
    RemoveKeeps(fs, Tmp(f));
    OtherJobs(fs, after, f);
    hide SpaceInv;
    InvParts(after);
  }

  lemma QuarantineKeeps(fs: Fs, f: File, renamed: bool)
    requires Inv(fs) && Enabled(fs, Quarantine(f, renamed))
    ensures Inv(Apply(fs, Quarantine(f, renamed)))
  {
    var after := Apply(fs, Quarantine(f, renamed));
    InvParts(fs);
    if renamed {
      RenameKeeps(fs, Main(f), Corrupt(f));
    } else {
      RemoveKeeps(fs, Main(f));
    }
    assert forall g :: g in fs.jobs ==> JobInv(fs, g, fs.jobs[g]);
    hide SpaceInv;
    InvParts(after);
  }

  /** Steps that change directories only. */
  lemma DirsOnly(before: Fs, after: Fs)
    requires Jobs(before) && after.jobs == before.jobs && after.cur.live == before.cur.live
    requires after.data == before.data && after.unsynced == before.unsynced
    ensures Jobs(after)
  {
    forall f | f in after.jobs ensures JobInv(after, f, after.jobs[f]) {
      assert JobInv(before, f, before.jobs[f]);
    }
  }

  lemma SnapBeginKeeps(fs: Fs, date: Date)
    requires Inv(fs) && Enabled(fs, SnapBegin(date))
    ensures Inv(Apply(fs, SnapBegin(date)))
  {
    var after := Apply(fs, SnapBegin(date));
    InvParts(fs);
    DropDirKeeps(fs, Staging(date));
    var dropped := DropDir(fs, Staging(date));
    MoreDirs(dropped, dropped.pages, dropped.pruned, fs.nextDir + 1);
    var wider := dropped.(nextDir := fs.nextDir + 1);
    hide SpaceInv, Page;
    SetDirKeeps(wider, Staging(date), Dir(fs.nextDir, map[]));
    SameBase(SetDir(wider, Staging(date), Dir(fs.nextDir, map[])), after);
    DirsOnly(fs, after);
    InvParts(after);
  }

  lemma SnapLinkKeeps(fs: Fs, n: Name)
    requires Inv(fs) && Enabled(fs, SnapLink(n))
    ensures Inv(Apply(fs, SnapLink(n)))
  {
    var after := Apply(fs, SnapLink(n));
    InvParts(fs);
    LinkKeeps(fs, Staging(fs.snapJob.value.date), n);
    hide SpaceInv;
    DirsOnly(fs, after);
    InvParts(after);
  }

  lemma SnapPublishKeeps(fs: Fs)
    requires Inv(fs) && Enabled(fs, SnapPublish)
    ensures Inv(Apply(fs, SnapPublish))
  {
    var after := Apply(fs, SnapPublish);
    InvParts(fs);
    hide SpaceInv, Page;
    PublishKeeps(fs, fs.snapJob.value.date);
    SameBase(after.(snapJob := fs.snapJob), after);
    DirsOnly(fs, after);
    InvParts(after);
  }

  /** Dropping a directory that no snapshot is being built in. */
  lemma DropKeeps(fs: Fs, p: Place, after: Fs)
    requires Inv(fs) && after == DropDir(fs, p).(snapJob := after.snapJob, pruned := after.pruned)
             && fs.pruned <= after.pruned
    requires after.snapJob.None? || (after.snapJob == fs.snapJob && p != Staging(fs.snapJob.value.date))
    ensures Inv(after)
  {
    InvParts(fs);
    DropDirKeeps(fs, p);
    var dropped := DropDir(fs, p);
    MoreDirs(dropped, dropped.pages, after.pruned, dropped.nextDir);
    hide SpaceInv;
    SameBase(dropped.(pruned := after.pruned), after);
    DirsOnly(fs, after);
    InvParts(after);
  }

  lemma PruneEntryStep(fs: Fs, date: Date, n: Name)
    requires Inv(fs) && Enabled(fs, PruneEntry(date, n))
    ensures Inv(Apply(fs, PruneEntry(date, n)))
  {
    var after := Apply(fs, PruneEntry(date, n));
    InvParts(fs);
    PruneEntryKeeps(fs, date, n);
    hide SpaceInv;
    DirsOnly(fs, after);
    InvParts(after);
  }

  /** The invariant survives every step, power losses among them. */
  lemma StepKeepsInv(fs: Fs, e: Event)
    requires Inv(fs) && Enabled(fs, e)
    ensures Inv(Apply(fs, e))
  {
    InvParts(fs);
    InvParts(Apply(fs, e));
    hide SpaceInv, Inv, Create;
    match e
    case StartWrite(f, v) => StartKeeps(fs, f, Tmp(f), Whole(v));
    case StartRestore(f, date) => StartKeeps(fs, f, Partial(f), ReadSnapshot(fs, date, Main(f)).value);
    case Fill(f, whole) => FillKeeps(fs, f, whole);
    case Sync(f) => SyncStep(fs, f);
    case MovePartial(f) => MoveKeeps(fs, f);
    case Commit(f) => CommitKeeps(fs, f);
    case Abort(f, removed) => AbortKeeps(fs, f, removed);
    case DropTmp(f) => DropTmpKeeps(fs, f);
    case Quarantine(f, renamed) => QuarantineKeeps(fs, f, renamed);
    case SnapBegin(date) => SnapBeginKeeps(fs, date);
    case SnapLink(n) => SnapLinkKeeps(fs, n);
    case SnapPublish => SnapPublishKeeps(fs);
    case SnapAbandon => DropKeeps(fs, Staging(fs.snapJob.value.date), Apply(fs, e));
    case PruneEntry(date, n) => PruneEntryStep(fs, date, n);
    case PruneDir(date) => DropKeeps(fs, Published(date), Apply(fs, e));
    case PruneStaging(date) => DropKeeps(fs, Staging(date), Apply(fs, e));
    case Settle => SettleKeeps(fs);
    case Crash(sp, garbage) => CrashKeeps(fs, sp, garbage);
  }

  lemma SettleKeeps(fs: Fs)
    requires Inv(fs)
    ensures Inv(Apply(fs, Settle))
  {
    PagesOnlyOfData(fs, Apply(fs, Settle));
    assert SpaceInv(fs, fs.cur);
    forall f | f in fs.jobs ensures JobInv(Apply(fs, Settle), f, fs.jobs[f]) {
      assert JobInv(fs, f, fs.jobs[f]);
    }
    hide Page;
  }

  lemma {:induction false} RunKeepsInv(fs: Fs, events: seq<Event>)
    requires Inv(fs) && Runnable(fs, events)
    ensures Inv(Run(fs, events))
    decreases |events|
  {
    if events != [] {
      StepKeepsInv(fs, events[0]);
      RunKeepsInv(Apply(fs, events[0]), events[1..]);
    }
  }

  // ---------------------------------------------------------------- snapshots

  /** The snapshot of a date is the directory with this id in every space a power loss may leave. */
  ghost predicate Durable(fs: Fs, date: Date, id: DirId) {
    forall sp :: Possible(fs, sp) ==> Published(date) in sp.dirs && sp.dirs[Published(date)].id == id
  }

  lemma CreateFrame(fs: Fs, n: Name)
    ensures var after := Create(fs, n);
            after.pages == fs.pages && after.pruned == fs.pruned && after.cur.dirs == fs.cur.dirs
                && after.jobs == fs.jobs
            && (forall m :: m != n ==> (m in after.cur.live <==> m in fs.cur.live))
            && (forall m :: m != n && m in fs.cur.live ==> after.cur.live[m] == fs.cur.live[m])
            && (forall sp :: Possible(after, sp) ==> Possible(fs, sp) || sp == after.cur)
  {
  }

  /** The spaces a step adds. */
  lemma NewSpaces(fs: Fs, e: Event, sp: Space)
    requires Enabled(fs, e) && Possible(Apply(fs, e), sp)
    ensures Possible(fs, sp) || sp == Apply(fs, e).cur || (e.SnapBegin? && sp == DropDir(fs, Staging(e.date)).cur)
            || (e.Abort? && sp == Remove(fs, fs.jobs[e.file].temp).cur)
  {
    if e.StartWrite? || e.StartRestore? {
      CreateFrame(fs, if e.StartWrite? then Tmp(e.file) else Partial(e.file));
    }
    hide Create, Page;
  }

  predicate OnDirs(e: Event) {
    e.SnapBegin? || e.SnapLink? || e.SnapPublish? || e.SnapAbandon? || e.PruneEntry? || e.PruneDir? || e.PruneStaging?
  }

  lemma DirsOrFiles(fs: Fs, e: Event, sp: Space)
    requires Enabled(fs, e) && Possible(Apply(fs, e), sp) && !Possible(fs, sp)
    ensures if OnDirs(e) then sp.live == fs.cur.live else sp.dirs == fs.cur.dirs
  {
    NewSpaces(fs, e, sp);
    hide *;
    if OnDirs(e) {
      OnlyDirs(fs, e);
    } else {
      OnlyFiles(fs, e);
    }
  }

  lemma OnlyDirs(fs: Fs, e: Event)
    requires Enabled(fs, e) && OnDirs(e)
    ensures Apply(fs, e).cur.live == fs.cur.live
            && (e.SnapBegin? ==> DropDir(fs, Staging(e.date)).cur.live == fs.cur.live)
  {
    hide Create, Page, Rename, Remove, WithJob;
  }

  lemma OnlyFiles(fs: Fs, e: Event)
    requires Enabled(fs, e) && !OnDirs(e)
    ensures Apply(fs, e).cur.dirs == fs.cur.dirs || e.Crash?
    ensures e.Abort? ==> Remove(fs, fs.jobs[e.file].temp).cur.dirs == fs.cur.dirs
  {
    if e.StartWrite? || e.StartRestore? {
      CreateFrame(fs, if e.StartWrite? then Tmp(e.file) else Partial(e.file));
    }
    hide Create, Page, SetDir, DropDir;
  }

  /** A step leaves the published directories as they are, but for the one it publishes or prunes. */
  lemma NewSpaceDirs(fs: Fs, e: Event, sp: Space, date: Date)
    requires Inv(fs) && Enabled(fs, e) && Possible(Apply(fs, e), sp) && !Possible(fs, sp)
    requires Published(date) in fs.cur.dirs
    ensures fs.cur.dirs[Published(date)].id in Apply(fs, e).pruned
            || (Published(date) in sp.dirs && sp.dirs[Published(date)] == fs.cur.dirs[Published(date)])
  {
    hide Page, Inv;
    DirsOrFiles(fs, e, sp);
    if OnDirs(e) {
      NewSpaces(fs, e, sp);
      hide Create, Rename, Remove;
    }
  }

  lemma StepKeepsDurable(fs: Fs, e: Event, date: Date, id: DirId)
    requires Inv(fs) && Enabled(fs, e) && Durable(fs, date, id)
    ensures id in Apply(fs, e).pruned || Durable(Apply(fs, e), date, id)
  {
    assert Possible(fs, fs.cur);
    if id !in Apply(fs, e).pruned {
      hide Inv, Apply, Enabled;
      forall sp | Possible(Apply(fs, e), sp) ensures Published(date) in sp.dirs && sp.dirs[Published(date)].id == id {
        if !Possible(fs, sp) {
          NewSpaceDirs(fs, e, sp, date);
        }
      }
    }
  }

  lemma StepKeepsPages(fs: Fs, e: Event, id: DirId)
    requires Inv(fs) && Enabled(fs, e)
    ensures id in fs.pruned ==> id in Apply(fs, e).pruned
    ensures id in fs.pages ==> id in Apply(fs, e).pages && Apply(fs, e).pages[id] == fs.pages[id]
  {
    assert Snap(fs);
    hide *;
    if e.StartWrite? || e.StartRestore? {
      StartKeepsPages(fs, e);
    } else if e.SnapPublish? {
      PublishAddsPage(fs, id);
    } else if OnDirs(e) {
      DirsKeepPages(fs, e);
    } else {
      FilesKeepPages(fs, e);
    }
  }

  lemma StartKeepsPages(fs: Fs, e: Event)
    requires Enabled(fs, e) && (e.StartWrite? || e.StartRestore?)
    ensures Apply(fs, e).pages == fs.pages && Apply(fs, e).pruned == fs.pruned
  {
    CreateFrame(fs, if e.StartWrite? then Tmp(e.file) else Partial(e.file));
    hide Create, Page, SetDir, DropDir, Rename, Remove;
  }

  lemma PublishAddsPage(fs: Fs, id: DirId)
    requires Enabled(fs, SnapPublish) && Snap(fs)
    ensures Apply(fs, SnapPublish).pruned == fs.pruned
    ensures id in fs.pages ==> id in Apply(fs, SnapPublish).pages && Apply(fs, SnapPublish).pages[id] == fs.pages[id]
  {
    hide Page;
  }

  lemma DirsKeepPages(fs: Fs, e: Event)
    requires Enabled(fs, e) && OnDirs(e) && !e.SnapPublish?
    ensures Apply(fs, e).pages == fs.pages && fs.pruned <= Apply(fs, e).pruned
  {
    hide Page, Create, Rename, Remove;
  }

  lemma FilesKeepPages(fs: Fs, e: Event)
    requires Enabled(fs, e) && !OnDirs(e) && !e.StartWrite? && !e.StartRestore?
    ensures Apply(fs, e).pages == fs.pages && Apply(fs, e).pruned == fs.pruned
  {
    hide Page, Create, DropDir, SetDir;
  }

  lemma ReadsFromPage(fs: Fs, date: Date, n: Name)
    requires Inv(fs) && Published(date) in fs.cur.dirs && fs.cur.dirs[Published(date)].id !in fs.pruned && !Temp(n)
    ensures var id := fs.cur.dirs[Published(date)].id;
            id in fs.pages && ReadSnapshot(fs, date, n) == if n in fs.pages[id] then Some(fs.pages[id][n]) else None
  {
    assert SpaceInv(fs, fs.cur);
  }

  lemma {:induction false} RunKeepsPages(fs: Fs, events: seq<Event>, id: DirId)
    requires Inv(fs) && Runnable(fs, events)
    ensures id in fs.pruned ==> id in Run(fs, events).pruned
    ensures id in fs.pages ==> id in Run(fs, events).pages && Run(fs, events).pages[id] == fs.pages[id]
    decreases |events|
  {
    hide Inv, Apply;
    if events != [] {
      StepKeepsInv(fs, events[0]);
      StepKeepsPages(fs, events[0], id);
      RunKeepsPages(Apply(fs, events[0]), events[1..], id);
    }
  }

  /** However long the run, with writes, restores, quarantines, other snapshots and power losses in
      it: as long as a published snapshot is there and its removal has not begun, every path of it
      but those of temp files reads as it did. */
  lemma SnapshotNeverChanges(fs: Fs, events: seq<Event>, date: Date, n: Name)
    requires Inv(fs) && Runnable(fs, events) && !Temp(n)
    requires Published(date) in fs.cur.dirs
    requires var end := Run(fs, events);
             Published(date) in end.cur.dirs && end.cur.dirs[Published(date)].id == fs.cur.dirs[Published(date)].id
             && fs.cur.dirs[Published(date)].id !in end.pruned
    ensures ReadSnapshot(Run(fs, events), date, n) == ReadSnapshot(fs, date, n)
  {
    var id := fs.cur.dirs[Published(date)].id;
    hide Inv, Apply;
    RunKeepsInv(fs, events);
    RunKeepsPages(fs, events, id);
    ReadsFromPage(fs, date, n);
    ReadsFromPage(Run(fs, events), date, n);
  }

  /** Once the disk has settled a published snapshot does not go away either, until its removal
      begins. */
  lemma {:induction false} SettledSnapshotStays(fs: Fs, events: seq<Event>, date: Date, id: DirId)
    requires Inv(fs) && Runnable(fs, events) && Durable(fs, date, id)
    ensures id in Run(fs, events).pruned || Durable(Run(fs, events), date, id)
    decreases |events|
  {
    hide Inv, Apply, Durable;
    if events != [] {
      var next := Apply(fs, events[0]);
      StepKeepsInv(fs, events[0]);
      StepKeepsDurable(fs, events[0], date, id);
      if id in next.pruned {
        RunKeepsPages(next, events[1..], id);
      } else {
        SettledSnapshotStays(next, events[1..], date, id);
      }
    }
  }

  // ---------------------------------------------------------------- live files

  /** What a live path may read as after a power loss now. */
  ghost predicate MayRead(fs: Fs, f: File, c: Option<Content>) {
    exists sp :: Possible(fs, sp) && Read(fs, sp, Main(f)) == c
  }

  /** What the step itself puts at the live path. */
  ghost predicate Puts(fs: Fs, e: Event, f: File, c: Option<Content>) {
    match e
    case Commit(g) => g == f && f in fs.jobs && c == Some(fs.jobs[f].goal)
    case Quarantine(g, _) => g == f && c == None
    case _ => false
  }

  predicate Writes(e: Event) { e.StartWrite? || e.StartRestore? || e.Fill? || e.Crash? }

  lemma OtherData(fs: Fs, e: Event)
    requires Enabled(fs, e) && !Writes(e)
    ensures Apply(fs, e).data == fs.data
  {
    hide Page, Create;
  }

  lemma CreatedData(fs: Fs, n: Name, i: Ino)
    requires Base(fs) && i in fs.data && i !in Temps(fs.cur) && Temp(n)
    ensures i in Create(fs, n).data && Create(fs, n).data[i] == fs.data[i]
  {
    assert n in fs.cur.live ==> fs.cur.live[n] in Temps(fs.cur);
    assert fs.nextIno !in fs.data;
  }

  /** Contents change only where a temp file is, or where bytes were not on the disk. */
  lemma ContentsKept(fs: Fs, e: Event, i: Ino)
    requires Inv(fs) && Enabled(fs, e) && i in fs.data && i !in Temps(fs.cur) && i !in fs.unsynced
    ensures i in Apply(fs, e).data && Apply(fs, e).data[i] == fs.data[i]
  {
    InvParts(fs);
    if !Writes(e) {
      hide *;
      OtherData(fs, e);
    } else if e.Fill? {
      assert JobInv(fs, e.file, fs.jobs[e.file]);
      assert fs.jobs[e.file].ino in Temps(fs.cur);
      hide Base, Create, Temps;
    } else if e.Crash? {
      hide Base, Create, Temps;
    } else {
      CreatedData(fs, if e.StartWrite? then Tmp(e.file) else Partial(e.file), i);
      hide Base, Create, Temps;
    }
  }

  /** No step changes the contents of a live file of any space. */
  lemma LiveContentsKept(fs: Fs, e: Event, sp: Space, f: File)
    requires Inv(fs) && Enabled(fs, e) && Possible(fs, sp)
    ensures Read(Apply(fs, e), sp, Main(f)) == Read(fs, sp, Main(f))
  {
    assert SpaceInv(fs, sp);
    if Main(f) in sp.live {
      hide Apply, Enabled;
      ContentsKept(fs, e, sp.live[Main(f)]);
    }
  }

  /** A step leaves the live path bound as it was, unless it commits or quarantines it. */
  lemma NewSpaceLive(fs: Fs, e: Event, sp: Space, f: File)
    requires Enabled(fs, e) && Possible(Apply(fs, e), sp) && !Possible(fs, sp)
    requires forall g :: g in fs.jobs ==> OwnName(g, fs.jobs[g].temp)
    ensures (e == Commit(f) && Main(f) in sp.live && sp.live[Main(f)] == fs.cur.live[Tmp(f)]
            && Apply(fs, e).data == fs.data)
            || (e.Quarantine? && e.file == f && Main(f) !in sp.live)
            || (if Main(f) in fs.cur.live then Main(f) in sp.live && sp.live[Main(f)] == fs.cur.live[Main(f)]
                else Main(f) !in sp.live)
  {
    if OnDirs(e) {
      DirsOrFiles(fs, e, sp);
      hide *;
    } else if e.StartWrite? || e.StartRestore? {
      hide Apply, Enabled;
      StartedSpaceLive(fs, e, sp, f);
    } else {
      hide Apply, Enabled;
      MovedSpaceLive(fs, e, sp, f);
    }
  }

  /** The live path is bound in sp as it is now. */
  predicate SameLive(fs: Fs, sp: Space, f: File) {
    if Main(f) in fs.cur.live then Main(f) in sp.live && sp.live[Main(f)] == fs.cur.live[Main(f)]
        else Main(f) !in sp.live
  }

  lemma MovedSpaceLive(fs: Fs, e: Event, sp: Space, f: File)
    requires Enabled(fs, e) && Possible(Apply(fs, e), sp) && !Possible(fs, sp) && !OnDirs(e) && !e.StartWrite?
             && !e.StartRestore?
    requires forall g :: g in fs.jobs ==> OwnName(g, fs.jobs[g].temp)
    ensures (e == Commit(f) && Main(f) in sp.live && sp.live[Main(f)] == fs.cur.live[Tmp(f)]
            && Apply(fs, e).data == fs.data)
            || (e.Quarantine? && e.file == f && Main(f) !in sp.live) || SameLive(fs, sp, f)
  {
    NewSpaces(fs, e, sp);
    hide *;
    if e.Commit? {
      CommittedLive(fs, e.file, f);
    } else if e.MovePartial? {
      MovedLive(fs, e.file, f);
    } else if e.Quarantine? {
      QuarantinedLive(fs, e, f);
    } else if e.Abort? {
      AbortedLive(fs, e, f);
    } else {
      RestLive(fs, e, sp, f);
    }
  }

  lemma CommittedLive(fs: Fs, g: File, f: File)
    requires Enabled(fs, Commit(g))
    ensures var after := Apply(fs, Commit(g));
            if g == f then Main(f) in after.cur.live && Tmp(f) in fs.cur.live
                && after.cur.live[Main(f)] == fs.cur.live[Tmp(f)] && after.data == fs.data
            else SameLive(fs, after.cur, f)
  {
    hide Create, Page, SetDir, DropDir, Rename;
    RenameAt(fs, Tmp(g), Main(g), f);
  }

  lemma MovedLive(fs: Fs, g: File, f: File)
    requires Enabled(fs, MovePartial(g))
    ensures SameLive(fs, Apply(fs, MovePartial(g)).cur, f)
  {
    hide Create, Page, SetDir, DropDir, Rename;
    RenameAt(fs, Partial(g), Tmp(g), f);
  }

  lemma QuarantinedLive(fs: Fs, e: Event, f: File)
    requires e.Quarantine? && Enabled(fs, e)
    ensures if e.file == f then Main(f) !in Apply(fs, e).cur.live else SameLive(fs, Apply(fs, e).cur, f)
  {
    hide Create, Page, SetDir, DropDir, Rename;
    if e.renamed { RenameAt(fs, Main(e.file), Corrupt(e.file), f); }
  }

  lemma AbortedLive(fs: Fs, e: Event, f: File)
    requires e.Abort? && Enabled(fs, e) && OwnName(e.file, fs.jobs[e.file].temp)
    ensures SameLive(fs, Apply(fs, e).cur, f) && SameLive(fs, Remove(fs, fs.jobs[e.file].temp).cur, f)
  {
    hide Create, Page, SetDir, DropDir, Rename;
  }

  lemma RestLive(fs: Fs, e: Event, sp: Space, f: File)
    requires Enabled(fs, e) && Possible(Apply(fs, e), sp) && !Possible(fs, sp)
    requires e.Fill? || e.Sync? || e.DropTmp? || e.Settle? || e.Crash?
    ensures SameLive(fs, sp, f)
  {
    hide Create, Page, SetDir, DropDir, Rename;
  }

  lemma RenameAt(fs: Fs, a: Name, b: Name, f: File)
    requires a in fs.cur.live && a != b
    ensures var live := Rename(fs, a, b).cur.live;
            if b == Main(f) then Main(f) in live && live[Main(f)] == fs.cur.live[a]
            else if a == Main(f) then Main(f) !in live
            else if Main(f) in fs.cur.live then Main(f) in live && live[Main(f)] == fs.cur.live[Main(f)]
            else Main(f) !in live
    ensures Rename(fs, a, b).data == fs.data
  {
    hide Page;
  }

  lemma StartedSpaceLive(fs: Fs, e: Event, sp: Space, f: File)
    requires Enabled(fs, e) && Possible(Apply(fs, e), sp) && !Possible(fs, sp) && (e.StartWrite? || e.StartRestore?)
    ensures if Main(f) in fs.cur.live then Main(f) in sp.live && sp.live[Main(f)] == fs.cur.live[Main(f)]
            else Main(f) !in sp.live
  {
    NewSpaces(fs, e, sp);
    CreateFrame(fs, if e.StartWrite? then Tmp(e.file) else Partial(e.file));
    hide Create, Page, SetDir, DropDir, Rename, Remove;
  }

  lemma CommitGoal(fs: Fs, e: Event, f: File)
    requires Inv(fs) && Enabled(fs, e)
    ensures forall g :: g in fs.jobs ==> OwnName(g, fs.jobs[g].temp)
    ensures e == Commit(f) ==>
              f in fs.jobs && Tmp(f) in fs.cur.live
              && Read(fs, fs.cur, Tmp(f)) == Some(fs.jobs[f].goal)
  {
    assert forall g :: g in fs.jobs ==> JobInv(fs, g, fs.jobs[g]);
    hide SpaceInv;
  }

  /** A step leaves every live path reading as it might have before, or as the step puts it. */
  lemma VersionsGrow(fs: Fs, e: Event, f: File, c: Option<Content>)
    requires Inv(fs) && Enabled(fs, e) && MayRead(Apply(fs, e), f, c)
    ensures MayRead(fs, f, c) || Puts(fs, e, f, c)
  {
    CommitGoal(fs, e, f);
    assert Possible(fs, fs.cur);
    var after := Apply(fs, e);
    var sp :| Possible(after, sp) && Read(after, sp, Main(f)) == c;
    hide Inv, Apply, Enabled;
    if Possible(fs, sp) {
      LiveContentsKept(fs, e, sp, f);
    } else {
      NewSpaceLive(fs, e, sp, f);
      LiveContentsKept(fs, e, fs.cur, f);
    }
  }

  lemma EmptyDisk()
    ensures Inv(EMPTY)
  {
  }

  /** No other writer takes the file. */
  predicate Quiet(e: Event, f: File) { !((e.StartWrite? || e.StartRestore? || e.Quarantine?) && e.file == f) }

  lemma GoalKept(fs: Fs, e: Event, f: File)
    requires Enabled(fs, e) && Quiet(e, f) && f in Apply(fs, e).jobs
    ensures f in fs.jobs && Apply(fs, e).jobs[f].goal == fs.jobs[f].goal
  {
    if e.StartWrite? || e.StartRestore? {
      CreateFrame(fs, if e.StartWrite? then Tmp(e.file) else Partial(e.file));
    }
    hide Create, Page;
  }

  lemma {:induction false} OneWriter(fs: Fs, events: seq<Event>, f: File, goal: Content, c: Option<Content>)
    requires Inv(fs) && Runnable(fs, events) && forall k :: 0 <= k < |events| ==> Quiet(events[k], f)
    requires f in fs.jobs ==> fs.jobs[f].goal == goal
    requires MayRead(Run(fs, events), f, c)
    ensures MayRead(fs, f, c) || c == Some(goal)
    decreases |events|
  {
    if events != [] {
      var e := events[0];
      assert Quiet(e, f);
      if f in Apply(fs, e).jobs {
        GoalKept(fs, e, f);
      }
      hide Inv, Apply, MayRead;
      StepKeepsInv(fs, e);
      OneWriter(Apply(fs, e), events[1..], f, goal, c);
      if MayRead(Apply(fs, e), f, c) {
        VersionsGrow(fs, e, f, c);
      }
    }
  }

  lemma SettledReads(fs: Fs, f: File, c: Option<Content>)
    requires fs.past == {}
    ensures MayRead(fs, f, c) <==> c == ReadLive(fs, f)
  {
    assert Possible(fs, fs.cur);
  }

  lemma StartReads(fs: Fs, e: Event, f: File, c: Option<Content>)
    requires Inv(fs) && Enabled(fs, e) && (e.StartWrite? || e.StartRestore?) && MayRead(Apply(fs, e), f, c)
    ensures MayRead(fs, f, c)
  {
    hide Inv, Apply, Enabled, MayRead;
    VersionsGrow(fs, e, f, c);
  }

  /** From a settled disk, with one writer on the file: whatever else runs beside the replacement and
      wherever power is lost, the path reads as the complete old bucket or the complete new one. */
  lemma ReplacedOrNot(fs: Fs, v: string, rest: seq<Event>, f: File)
    requires Inv(fs) && fs.past == {} && Enabled(fs, StartWrite(f, v)) && Runnable(Apply(fs, StartWrite(f, v)), rest)
    requires forall k :: 0 <= k < |rest| ==> Quiet(rest[k], f)
    ensures var end := Run(Apply(fs, StartWrite(f, v)), rest);
            ReadLive(end, f) == ReadLive(fs, f) || ReadLive(end, f) == Some(Whole(v))
  {
    var start := Apply(fs, StartWrite(f, v));
    var end := Run(start, rest);
    assert f in start.jobs && start.jobs[f].goal == Whole(v);
    assert Possible(end, end.cur) && MayRead(end, f, ReadLive(end, f));
    hide Apply, Inv, MayRead;
    StepKeepsInv(fs, StartWrite(f, v));
    OneWriter(start, rest, f, Whole(v), ReadLive(end, f));
    if MayRead(start, f, ReadLive(end, f)) {
      StartReads(fs, StartWrite(f, v), f, ReadLive(end, f));
      SettledReads(fs, f, ReadLive(end, f));
    }
  }

  /** A restore leaves the bucket as it was or as the snapshot has it. */
  lemma RestoredOrNot(fs: Fs, date: Date, rest: seq<Event>, f: File)
    requires Inv(fs) && fs.past == {} && Enabled(fs, StartRestore(f, date))
             && Runnable(Apply(fs, StartRestore(f, date)), rest)
    requires forall k :: 0 <= k < |rest| ==> Quiet(rest[k], f)
    ensures var end := Run(Apply(fs, StartRestore(f, date)), rest);
            ReadLive(end, f) == ReadLive(fs, f) || ReadLive(end, f) == ReadSnapshot(fs, date, Main(f))
  {
    var start := Apply(fs, StartRestore(f, date));
    var end := Run(start, rest);
    var goal := ReadSnapshot(fs, date, Main(f)).value;
    assert f in start.jobs && start.jobs[f].goal == goal;
    assert Possible(end, end.cur) && MayRead(end, f, ReadLive(end, f));
    hide Apply, Inv, MayRead;
    StepKeepsInv(fs, StartRestore(f, date));
    OneWriter(start, rest, f, goal, ReadLive(end, f));
    if MayRead(start, f, ReadLive(end, f)) {
      StartReads(fs, StartRestore(f, date), f, ReadLive(end, f));
      SettledReads(fs, f, ReadLive(end, f));
    }
  }

  lemma {:induction false} MayReadRun(fs: Fs, events: seq<Event>, f: File, c: Option<Content>)
    requires Inv(fs) && Runnable(fs, events) && MayRead(Run(fs, events), f, c)
    requires forall k :: 0 <= k < |events| ==> events[k] != Commit(f) && !(events[k].Quarantine? && events[k].file == f)
    ensures MayRead(fs, f, c)
    decreases |events|
  {
    if events != [] {
      hide Inv, Apply, MayRead;
      StepKeepsInv(fs, events[0]);
      MayReadRun(Apply(fs, events[0]), events[1..], f, c);
      VersionsGrow(fs, events[0], f, c);
    }
  }

  /** Replacements and restores that fail before their rename leave the live bucket alone, however
      many they are and wherever power is lost. */
  lemma FailuresLeaveLiveAlone(fs: Fs, events: seq<Event>, f: File)
    requires Inv(fs) && fs.past == {} && Runnable(fs, events)
    requires forall k :: 0 <= k < |events| ==> events[k] != Commit(f) && !(events[k].Quarantine? && events[k].file == f)
    ensures ReadLive(Run(fs, events), f) == ReadLive(fs, f)
  {
    var end := Run(fs, events);
    assert Possible(end, end.cur) && MayRead(end, f, ReadLive(end, f));
    hide Apply, Inv, MayRead;
    MayReadRun(fs, events, f, ReadLive(end, f));
    SettledReads(fs, f, ReadLive(end, f));
  }

  /** No run damages a live file, even with a power loss at every step. */
  lemma {:induction false} NeverTorn(fs: Fs, events: seq<Event>, f: File)
    requires Inv(fs) && Runnable(fs, events) && !MayRead(fs, f, Some(Torn))
    ensures !MayRead(Run(fs, events), f, Some(Torn))
    decreases |events|
  {
    if events != [] {
      assert f in fs.jobs ==> JobInv(fs, f, fs.jobs[f]);
      hide Inv, Apply, MayRead;
      StepKeepsInv(fs, events[0]);
      if MayRead(Apply(fs, events[0]), f, Some(Torn)) {
        VersionsGrow(fs, events[0], f, Some(Torn));
      }
      NeverTorn(Apply(fs, events[0]), events[1..], f);
    }
  }

  // ---------------------------------------------------------------- what a power loss may do

  /** Until the disk settles, a power loss may take back any of the steps: every space there was may be
      found again. */
  lemma {:induction false} PowerLossMayUndo(fs: Fs, events: seq<Event>, garbage: map<Ino, Content>)
    requires Runnable(fs, events) && forall k :: 0 <= k < |events| ==> !events[k].Settle? && !events[k].Crash?
    requires garbage.Keys == Run(fs, events).unsynced
    ensures var end := Run(fs, events);
            Enabled(end, Crash(fs.cur, garbage)) && Apply(end, Crash(fs.cur, garbage)).cur == fs.cur
  {
    PastStays(fs, events, fs.cur);
    hide Run, Runnable;
  }

  lemma {:induction false} PastStays(fs: Fs, events: seq<Event>, sp: Space)
    requires Runnable(fs, events) && forall k :: 0 <= k < |events| ==> !events[k].Settle? && !events[k].Crash?
    requires Possible(fs, sp)
    ensures Possible(Run(fs, events), sp)
    decreases |events|
  {
    if events != [] {
      StepKeepsPast(fs, events[0], sp);
      hide Apply, Enabled, Possible;
      assert forall k :: 0 <= k < |events[1..]| ==> events[1..][k] == events[k + 1];
      PastStays(Apply(fs, events[0]), events[1..], sp);
    }
  }

  lemma StepKeepsPast(fs: Fs, e: Event, sp: Space)
    requires Enabled(fs, e) && !e.Settle? && !e.Crash? && Possible(fs, sp)
    ensures Possible(Apply(fs, e), sp)
  {
    hide Page, ReadSnapshot;
  }

  /** And until a file is synced, a power loss may leave anything at all in it. */
  lemma PowerLossMayTear(fs: Fs, f: File, whole: bool, garbage: map<Ino, Content>, c: Content)
    requires Enabled(fs, Fill(f, whole)) && fs.jobs[f].temp in fs.cur.live
             && fs.cur.live[fs.jobs[f].temp] == fs.jobs[f].ino
    requires garbage.Keys == Apply(fs, Fill(f, whole)).unsynced
             && (fs.jobs[f].ino in garbage ==> garbage[fs.jobs[f].ino] == c)
    ensures var mid := Apply(fs, Fill(f, whole));
            Enabled(mid, Crash(mid.cur, garbage))
            && var end := Apply(mid, Crash(mid.cur, garbage)); Read(end, end.cur, fs.jobs[f].temp) == Some(c)
  {
    assert fs.jobs[f].ino in garbage;
  }
}
