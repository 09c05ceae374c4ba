/** The file system under the bucket store, with power losses, and the steps that bucket writes, index
    writes, restores, quarantines and snapshots take on it (filedb/admin.go, filedb/restore.go). */
module Disk {
  import opened Options

  type Ino = nat
  type DirId = nat
  type Date = string

  /** A bucket file or the index file, and the names beside it. */
  datatype File = Bucket(path: string) | MasterDb
  datatype Name = Main(file: File) | Tmp(file: File) | Partial(file: File) | Corrupt(file: File)

  /** What a reader of a file gets: the whole of what was encoded, or something damaged. */
  datatype Content = Whole(value: string) | Torn

  /** A directory of a snapshot, being built or published under its date. */
  datatype Dir = Dir(id: DirId, entries: map<Name, Ino>)
  datatype Place = Staging(date: Date) | Published(date: Date)

  /** All the names there are. */
  datatype Space = Space(live: map<Name, Ino>, dirs: map<Place, Dir>)

  predicate Temp(n: Name) { n.Tmp? || n.Partial? }

  datatype Stage = Filling | Filled | Synced

  /** A file on its way to its name: goal is what it is to hold. */
  datatype Job = Job(temp: Name, ino: Ino, goal: Content, stage: Stage)
  datatype SnapJob = SnapJob(date: Date, id: DirId)

  /** cur is what programs see; after a power loss any of past, the spaces since the disk last
      settled, may be what is found, and the inodes in unsynced may hold anything. jobs and snapJob
      are the writers at work, at most one for a file. pages records what each snapshot held when it
      was published and pruned the snapshots whose removal has begun. */
  datatype Fs = Fs(cur: Space, past: set<Space>, data: map<Ino, Content>, unsynced: set<Ino>,
                   nextIno: Ino, nextDir: DirId, jobs: map<File, Job>, snapJob: Option<SnapJob>,
                   pages: map<DirId, map<Name, Content>>, pruned: set<DirId>)

  datatype Event =
    | StartWrite(file: File, value: string)
    | StartRestore(file: File, date: Date)
    | Fill(file: File, whole: bool)
    | Sync(file: File)
    | MovePartial(file: File)
    | Commit(file: File)
    | Abort(file: File, removed: bool)
    | DropTmp(file: File)
    | Quarantine(file: File, renamed: bool)
    | SnapBegin(date: Date)
    | SnapLink(name: Name)
    | SnapPublish
    | SnapAbandon
    | PruneEntry(date: Date, name: Name)
    | PruneDir(date: Date)
    | PruneStaging(date: Date)
    | Settle
    | Crash(space: Space, garbage: map<Ino, Content>)

  // ---------------------------------------------------------------- primitives

  function Turn(fs: Fs, sp: Space): Fs { fs.(cur := sp, past := fs.past + {fs.cur}) }

  function Bound(sp: Space, n: Name, i: Ino): Space { sp.(live := sp.live[n := i]) }

  function Unbound(sp: Space, n: Name): Space { sp.(live := sp.live - {n}) }

  /** os.Create: a file that is there is cut to nothing in place. */
  function CreatedIno(fs: Fs, n: Name): Ino { if n in fs.cur.live then fs.cur.live[n] else fs.nextIno }

  function Create(fs: Fs, n: Name): Fs {
    var i := CreatedIno(fs, n);
    var base := fs.(data := fs.data[i := Torn], unsynced := fs.unsynced + {i});
    if n in fs.cur.live then base else Turn(base, Bound(fs.cur, n, i)).(nextIno := fs.nextIno + 1)
  }

  function Rename(fs: Fs, a: Name, b: Name): Fs
    requires a in fs.cur.live
  {
    Turn(fs, Bound(Unbound(fs.cur, a), b, fs.cur.live[a]))
  }

  function Remove(fs: Fs, n: Name): Fs { if n in fs.cur.live then Turn(fs, Unbound(fs.cur, n)) else fs }

  function SetDir(fs: Fs, p: Place, d: Dir): Fs { Turn(fs, fs.cur.(dirs := fs.cur.dirs[p := d])) }

  function DropDir(fs: Fs, p: Place): Fs {
    if p in fs.cur.dirs then Turn(fs, fs.cur.(dirs := fs.cur.dirs - {p})) else fs
  }

  function WithJob(fs: Fs, f: File, j: Job): Fs { fs.(jobs := fs.jobs[f := j]) }

  function Done(fs: Fs, f: File): Fs { fs.(jobs := fs.jobs - {f}) }

  // ---------------------------------------------------------------- reading

  function Read(fs: Fs, sp: Space, n: Name): Option<Content> {
    if n in sp.live && sp.live[n] in fs.data then Some(fs.data[sp.live[n]]) else None
  }

  function ReadLive(fs: Fs, f: File): Option<Content> { Read(fs, fs.cur, Main(f)) }

  function ReadDir(fs: Fs, d: Dir, n: Name): Option<Content> {
    if n in d.entries && d.entries[n] in fs.data then Some(fs.data[d.entries[n]]) else None
  }

  /** A file of a published snapshot. */
  function ReadSnapshot(fs: Fs, date: Date, n: Name): Option<Content> {
    if Published(date) in fs.cur.dirs then ReadDir(fs, fs.cur.dirs[Published(date)], n) else None
  }

  // ---------------------------------------------------------------- steps

  /** Whether the snapshot walk takes a name: a file under the bucket directory that does not end
      in the temp suffix. The index is linked beside them. */
  predicate Linked(n: Name) {
    match n
    case Tmp(_) => false
    case Main(_) => true
    case Partial(f) => f.Bucket?
    case Corrupt(f) => f.Bucket?
  }

  predicate Enabled(fs: Fs, e: Event) {
    match e
    case StartWrite(f, _) => f !in fs.jobs
    case StartRestore(f, date) =>
      f !in fs.jobs && f.Bucket? && ReadSnapshot(fs, date, Main(f)).Some?
          && ReadSnapshot(fs, date, Main(f)).value.Whole?
    case Fill(f, _) => f in fs.jobs && fs.jobs[f].stage == Filling
    case Sync(f) => f in fs.jobs && fs.jobs[f].stage == Filled
    case MovePartial(f) =>
      f in fs.jobs && fs.jobs[f].stage == Synced && fs.jobs[f].temp == Partial(f) && Partial(f) in fs.cur.live
    case Commit(f) => f in fs.jobs && fs.jobs[f].stage == Synced && fs.jobs[f].temp == Tmp(f) && Tmp(f) in fs.cur.live
    case Abort(f, _) => f in fs.jobs
    case DropTmp(f) => f !in fs.jobs
    case Quarantine(f, _) => f.Bucket? && Main(f) in fs.cur.live
    case SnapBegin(date) => fs.snapJob.None? && Published(date) !in fs.cur.dirs
    case SnapLink(n) =>
      fs.snapJob.Some? && Staging(fs.snapJob.value.date) in fs.cur.dirs && n in fs.cur.live && Linked(n)
      && n !in fs.cur.dirs[Staging(fs.snapJob.value.date)].entries
    case SnapPublish =>
      fs.snapJob.Some? && Staging(fs.snapJob.value.date) in fs.cur.dirs
      && Published(fs.snapJob.value.date) !in fs.cur.dirs
         && fs.cur.dirs[Staging(fs.snapJob.value.date)].entries != map[]
    case SnapAbandon => fs.snapJob.Some?
    case PruneEntry(date, n) => Published(date) in fs.cur.dirs
    case PruneDir(date) => Published(date) in fs.cur.dirs
    case PruneStaging(date) => fs.snapJob.None?
    case Settle => true
    case Crash(sp, garbage) => (sp == fs.cur || sp in fs.past) && garbage.Keys == fs.unsynced
  }

  function Apply(fs: Fs, e: Event): Fs
    requires Enabled(fs, e)
  {
    match e
    case StartWrite(f, v) => WithJob(Create(fs, Tmp(f)), f, Job(Tmp(f), CreatedIno(fs, Tmp(f)), Whole(v), Filling))
    case StartRestore(f, date) =>
      WithJob(Create(fs, Partial(f)), f,
              Job(Partial(f), CreatedIno(fs, Partial(f)), ReadSnapshot(fs, date, Main(f)).value, Filling))
    case Fill(f, whole) =>
      var j := fs.jobs[f];
      WithJob(fs.(data := fs.data[j.ino := if whole then j.goal else Torn], unsynced := fs.unsynced + {j.ino}), f,
              j.(stage := if whole then Filled else Filling))
    case Sync(f) => WithJob(fs.(unsynced := fs.unsynced - {fs.jobs[f].ino}), f, fs.jobs[f].(stage := Synced))
    case MovePartial(f) => WithJob(Rename(fs, Partial(f), Tmp(f)), f, fs.jobs[f].(temp := Tmp(f)))
    case Commit(f) => Done(Rename(fs, Tmp(f), Main(f)), f)
    case Abort(f, removed) => if removed then Done(Remove(Remove(fs, fs.jobs[f].temp), Tmp(f)), f) else Done(fs, f)
    case DropTmp(f) => Remove(fs, Tmp(f))
    case Quarantine(f, renamed) => if renamed then Rename(fs, Main(f), Corrupt(f)) else Remove(fs, Main(f))
    case SnapBegin(date) =>
      SetDir(DropDir(fs, Staging(date)), Staging(date), Dir(fs.nextDir, map[]))
        .(nextDir := fs.nextDir + 1, snapJob := Some(SnapJob(date, fs.nextDir)))
    case SnapLink(n) =>
      var p := Staging(fs.snapJob.value.date);
      var d := fs.cur.dirs[p];
      SetDir(fs, p, d.(entries := d.entries[n := fs.cur.live[n]]))
    case SnapPublish =>
      var date := fs.snapJob.value.date;
      var d := fs.cur.dirs[Staging(date)];
      Turn(fs, fs.cur.(dirs := (fs.cur.dirs - {Staging(date)})[Published(date) := d]))
        .(snapJob := None, pages := fs.pages[d.id := Page(fs, d)])
    case SnapAbandon => DropDir(fs, Staging(fs.snapJob.value.date)).(snapJob := None)
    case PruneEntry(date, n) =>
      var d := fs.cur.dirs[Published(date)];
      SetDir(fs, Published(date), d.(entries := d.entries - {n})).(pruned := fs.pruned + {d.id})
    case PruneDir(date) =>
      DropDir(fs, Published(date)).(pruned := fs.pruned + {fs.cur.dirs[Published(date)].id})
    case PruneStaging(date) => DropDir(fs, Staging(date))
    case Settle => fs.(past := {})
    case Crash(sp, garbage) =>
      fs.(cur := sp, past := {}, data := fs.data + garbage, unsynced := {}, jobs := map[], snapJob := None)
  }

  /** What a directory holds under the names that are not those of temp files. */
  function Page(fs: Fs, d: Dir): map<Name, Content> {
    map n | n in d.entries && !Temp(n) && d.entries[n] in fs.data :: fs.data[d.entries[n]]
  }

  ghost predicate Possible(fs: Fs, sp: Space) { sp == fs.cur || sp in fs.past }

  ghost predicate Runnable(fs: Fs, events: seq<Event>)
    decreases |events|
  {
    events != [] ==> Enabled(fs, events[0]) && Runnable(Apply(fs, events[0]), events[1..])
  }

  ghost function Run(fs: Fs, events: seq<Event>): Fs
    requires Runnable(fs, events)
    decreases |events|
  {
    if events == [] then fs else Run(Apply(fs, events[0]), events[1..])
  }

  /** A disk with no names. */
  const EMPTY := Fs(Space(map[], map[]), {}, map[], {}, 0, 0, map[], None, map[], {})

  // ---------------------------------------------------------------- the invariant

  function Temps(sp: Space): set<Ino> { set n | n in sp.live && Temp(n) :: sp.live[n] }

  /** No file outside the temp names is one of these inodes. */
  ghost predicate Apart(sp: Space, inos: set<Ino>) {
    && (forall n :: n in sp.live && !Temp(n) ==> sp.live[n] !in inos)
    && (forall p, n :: p in sp.dirs && n in sp.dirs[p].entries && !Temp(n) ==> sp.dirs[p].entries[n] !in inos)
  }

  ghost predicate OneTempEach(sp: Space) {
    forall a, b :: a in sp.live && b in sp.live && Temp(a) && Temp(b) && sp.live[a] == sp.live[b] ==> a == b
  }

  ghost predicate Allocated(fs: Fs, sp: Space) {
    && (forall n :: n in sp.live ==> sp.live[n] in fs.data)
    && (forall p, n :: p in sp.dirs && n in sp.dirs[p].entries ==> sp.dirs[p].entries[n] in fs.data)
    && (forall p :: p in sp.dirs ==> sp.dirs[p].id < fs.nextDir)
  }

  /** A published snapshot that is not being pruned holds what it held when it was published. */
  ghost predicate PagesHold(fs: Fs, sp: Space) {
    forall date :: Published(date) in sp.dirs && sp.dirs[Published(date)].id !in fs.pruned ==>
      sp.dirs[Published(date)].id in fs.pages
          && Page(fs, sp.dirs[Published(date)]) == fs.pages[sp.dirs[Published(date)].id]
  }

  ghost predicate SpaceInv(fs: Fs, sp: Space) {
    Apart(sp, Temps(sp)) && Apart(sp, Temps(fs.cur)) && Apart(sp, fs.unsynced)
    && OneTempEach(sp) && Allocated(fs, sp) && PagesHold(fs, sp)
  }

  ghost predicate JobInv(fs: Fs, f: File, j: Job) {
    && (j.temp == Tmp(f) || j.temp == Partial(f)) && j.goal.Whole?
    && j.temp in fs.cur.live && fs.cur.live[j.temp] == j.ino && j.ino in fs.data
    && (j.stage != Filling ==> fs.data[j.ino] == j.goal)
    && (j.stage == Synced ==> j.ino !in fs.unsynced)
  }

  ghost predicate Inv(fs: Fs) {
    && (forall sp :: Possible(fs, sp) ==> SpaceInv(fs, sp))
    && (forall f :: f in fs.jobs ==> JobInv(fs, f, fs.jobs[f]))
    && (forall i :: i in fs.data ==> i < fs.nextIno)
    && (forall i :: i in fs.unsynced ==> i in fs.data)
    && (fs.snapJob.Some? ==>
          && Staging(fs.snapJob.value.date) in fs.cur.dirs
          && fs.cur.dirs[Staging(fs.snapJob.value.date)].id == fs.snapJob.value.id
          && fs.snapJob.value.id !in fs.pages)
    && (forall id :: id in fs.pages ==> id < fs.nextDir)
  }

  // ---------------------------------------------------------------- what the primitives keep

  /** The invariant without the parts about writers at work. */
  ghost predicate Base(fs: Fs) {
    && (forall sp :: Possible(fs, sp) ==> SpaceInv(fs, sp))
    && (forall i :: i in fs.data ==> i < fs.nextIno)
    && (forall i :: i in fs.unsynced ==> i in fs.data)
    && (forall id :: id in fs.pages ==> id < fs.nextDir)
  }

  lemma PageKept(before: Fs, after: Fs, sp: Space, p: Place, inos: set<Ino>)
    requires p in sp.dirs && Apart(sp, inos) && before.data.Keys <= after.data.Keys
    requires Allocated(before, sp)
    requires forall i :: i in before.data && i !in inos ==> after.data[i] == before.data[i]
    ensures Page(after, sp.dirs[p]) == Page(before, sp.dirs[p])
  {
  }

  lemma ApartSubset(sp: Space, large: set<Ino>, small: set<Ino>)
    requires Apart(sp, large) && small <= large
    ensures Apart(sp, small)
  {
  }

  lemma ApartUnion(sp: Space, a: set<Ino>, b: set<Ino>)
    requires Apart(sp, a) && Apart(sp, b)
    ensures Apart(sp, a + b)
  {
  }

  /** Contents may change where no file but a temp file is. */
  lemma ContentsChange(before: Fs, after: Fs, sp: Space, inos: set<Ino>)
    requires SpaceInv(before, sp) && Apart(sp, inos)
    requires after.cur == before.cur && after.nextDir == before.nextDir
    requires after.pages == before.pages && after.pruned == before.pruned
    requires before.data.Keys <= after.data.Keys && after.unsynced <= before.unsynced + inos
    requires forall i :: i in before.data && i !in inos ==> after.data[i] == before.data[i]
    ensures SpaceInv(after, sp)
  {
    hide Page;
    forall date | Published(date) in sp.dirs
      ensures Page(after, sp.dirs[Published(date)]) == Page(before, sp.dirs[Published(date)])
    {
      PageKept(before, after, sp, Published(date), inos);
    }
    ApartUnion(sp, before.unsynced, inos);
    ApartSubset(sp, before.unsynced + inos, after.unsynced);
  }

  /** A new space, whose temp files are no other file of any space before it. */
  lemma TurnKeeps(fs: Fs, sp: Space)
    requires Base(fs) && SpaceInv(Turn(fs, sp), sp) && forall was :: Possible(fs, was) ==> Apart(was, Temps(sp))
    ensures Base(Turn(fs, sp))
  {
    var after := Turn(fs, sp);
    PagesOnlyOfData(fs, after);
    hide Page;
    forall was | Possible(after, was) ensures SpaceInv(after, was) {
      if was != sp {
        assert Possible(fs, was);
      }
    }
  }

  lemma FewerTemps(fs: Fs, sp: Space)
    requires Base(fs) && Temps(sp) <= Temps(fs.cur)
    ensures forall was :: Possible(fs, was) ==> Apart(was, Temps(sp))
  {
    forall was | Possible(fs, was) ensures Apart(was, Temps(sp)) {
      assert SpaceInv(fs, was);
      ApartSubset(was, Temps(fs.cur), Temps(sp));
    }
  }

  lemma PagesOnlyOfData(fs: Fs, after: Fs)
    requires fs.data == after.data
    ensures forall d :: Page(after, d) == Page(fs, d)
  {
  }

  lemma WriteKeeps(fs: Fs, i: Ino, c: Content)
    requires Base(fs) && i in Temps(fs.cur)
    ensures Base(fs.(data := fs.data[i := c], unsynced := fs.unsynced + {i}))
  {
    var after := fs.(data := fs.data[i := c], unsynced := fs.unsynced + {i});
    assert SpaceInv(fs, fs.cur);
    forall sp | Possible(after, sp) ensures SpaceInv(after, sp) {
      assert Possible(fs, sp);
      ApartSubset(sp, Temps(fs.cur), {i});
      ContentsChange(fs, after, sp, {i});
    }
  }

  function WithInode(fs: Fs): Fs {
    fs.(data := fs.data[fs.nextIno := Torn], unsynced := fs.unsynced + {fs.nextIno}, nextIno := fs.nextIno + 1)
  }

  lemma NewInode(fs: Fs)
    requires Base(fs)
    ensures Base(WithInode(fs)) && forall sp :: Possible(fs, sp) ==> Apart(sp, {fs.nextIno})
    ensures fs.nextIno !in Temps(fs.cur)
  {
    var after := WithInode(fs);
    assert SpaceInv(fs, fs.cur);
    forall sp | Possible(after, sp) ensures SpaceInv(after, sp) && Apart(sp, {fs.nextIno}) {
      assert Possible(fs, sp);
      ContentsChange(fs, after, sp, {fs.nextIno});
    }
    assert forall sp :: Possible(fs, sp) <==> Possible(after, sp);
  }

  lemma NewFile(fs: Fs, n: Name)
    requires Base(fs) && Temp(n) && n !in fs.cur.live
    ensures Base(Create(fs, n))
  {
    var i := fs.nextIno;
    var mid := WithInode(fs);
    NewInode(fs);
    var sp := Bound(fs.cur, n, i);
    assert Turn(mid, sp) == Create(fs, n);
    assert Temps(sp) == Temps(fs.cur) + {i};
    hide WithInode, Page;
    forall was | Possible(mid, was) ensures Apart(was, Temps(sp)) {
      assert Possible(fs, was);
      ApartUnion(was, Temps(fs.cur), {i});
    }
    assert Possible(mid, fs.cur);
    BindNew(mid, n, i);
  }

  lemma BindNew(fs: Fs, n: Name, i: Ino)
    requires Base(fs) && Temp(n) && n !in fs.cur.live && i in fs.data && i !in Temps(fs.cur)
    requires forall was :: Possible(fs, was) ==> Apart(was, Temps(Bound(fs.cur, n, i)))
    ensures Base(Turn(fs, Bound(fs.cur, n, i)))
  {
    var sp := Bound(fs.cur, n, i);
    assert SpaceInv(fs, fs.cur) && Possible(fs, fs.cur);
    assert Apart(fs.cur, Temps(sp));
    forall m | m in fs.cur.live && Temp(m) ensures fs.cur.live[m] != i {
      assert fs.cur.live[m] in Temps(fs.cur);
    }
    PagesOnlyOfData(fs, Turn(fs, sp));
    hide Page;
    TurnKeeps(fs, sp);
  }

  lemma CreateKeeps(fs: Fs, n: Name)
    requires Base(fs) && Temp(n)
    ensures Base(Create(fs, n)) && n in Create(fs, n).cur.live && Create(fs, n).cur.live[n] == CreatedIno(fs, n)
  {
    if n in fs.cur.live {
      WriteKeeps(fs, CreatedIno(fs, n), Torn);
    } else {
      NewFile(fs, n);
    }
  }

  lemma SyncKeeps(fs: Fs, i: Ino)
    requires Base(fs)
    ensures Base(fs.(unsynced := fs.unsynced - {i}))
  {
    var after := fs.(unsynced := fs.unsynced - {i});
    forall sp | Possible(after, sp) ensures SpaceInv(after, sp) {
      assert Possible(fs, sp);
      ContentsChange(fs, after, sp, {});
    }
  }

  lemma RenamedTemps(fs: Fs, a: Name, b: Name)
    requires Base(fs) && a in fs.cur.live && (Temp(b) ==> Temp(a))
    ensures var sp := Bound(Unbound(fs.cur, a), b, fs.cur.live[a]);
            forall i :: i in Temps(sp) ==> i in Temps(fs.cur) && (Temp(a) && !Temp(b) ==> i != fs.cur.live[a])
  {
    var sp := Bound(Unbound(fs.cur, a), b, fs.cur.live[a]);
    assert SpaceInv(fs, fs.cur);
    hide Base;
    forall i | i in Temps(sp) ensures i in Temps(fs.cur) && (Temp(a) && !Temp(b) ==> i != fs.cur.live[a]) {
      var n :| n in sp.live && Temp(n) && sp.live[n] == i;
      assert n == b || (n in fs.cur.live && n != a);
    }
  }

  /** A rename never turns another file into a temp file, and turns a temp file into another only
      when its bytes are on the disk. */
  lemma RenameKeeps(fs: Fs, a: Name, b: Name)
    requires Base(fs) && a in fs.cur.live && (Temp(b) ==> Temp(a))
             && (Temp(a) && !Temp(b) ==> fs.cur.live[a] !in fs.unsynced)
    ensures Base(Rename(fs, a, b))
  {
    var sp := Bound(Unbound(fs.cur, a), b, fs.cur.live[a]);
    var after := Turn(fs, sp);
    assert SpaceInv(fs, fs.cur);
    RenamedTemps(fs, a, b);
    ApartSubset(fs.cur, Temps(fs.cur), Temps(sp));
    PagesOnlyOfData(fs, after);
    FewerTemps(fs, sp);
    hide Page;
    TurnKeeps(fs, sp);
  }

  lemma RemoveKeeps(fs: Fs, n: Name)
    requires Base(fs)
    ensures Base(Remove(fs, n))
  {
    if n in fs.cur.live {
      var sp := Unbound(fs.cur, n);
      assert SpaceInv(fs, fs.cur);
      ApartSubset(fs.cur, Temps(fs.cur), Temps(sp));
      PagesOnlyOfData(fs, Turn(fs, sp));
      FewerTemps(fs, sp);
      hide Page;
      TurnKeeps(fs, sp);
    }
  }

  /** The same files, with one directory set. */
  lemma SetDirKeeps(fs: Fs, p: Place, d: Dir)
    requires Base(fs) && d.id < fs.nextDir
    requires forall n :: n in d.entries ==> d.entries[n] in fs.data
    requires forall n :: n in d.entries && !Temp(n) ==> d.entries[n] !in Temps(fs.cur) && d.entries[n] !in fs.unsynced
    requires p.Published? ==> d.id in fs.pruned || (d.id in fs.pages && Page(fs, d) == fs.pages[d.id])
    ensures Base(SetDir(fs, p, d))
  {
    var sp := fs.cur.(dirs := fs.cur.dirs[p := d]);
    assert SpaceInv(fs, fs.cur);
    assert Temps(sp) == Temps(fs.cur);
    FewerTemps(fs, sp);
    PagesOnlyOfData(fs, Turn(fs, sp));
    hide Page;
    TurnKeeps(fs, sp);
  }

  lemma DropDirKeeps(fs: Fs, p: Place)
    requires Base(fs)
    ensures Base(DropDir(fs, p))
  {
    if p in fs.cur.dirs {
      var sp := fs.cur.(dirs := fs.cur.dirs - {p});
      assert SpaceInv(fs, fs.cur);
      assert Temps(sp) == Temps(fs.cur);
      FewerTemps(fs, sp);
      PagesOnlyOfData(fs, Turn(fs, sp));
      hide Page;
      TurnKeeps(fs, sp);
    }
  }

  /** A link to a file that is not a temp file. */
  lemma LinkKeeps(fs: Fs, p: Place, n: Name)
    requires Base(fs) && p.Staging? && p in fs.cur.dirs && n in fs.cur.live
    ensures var d := fs.cur.dirs[p]; Base(SetDir(fs, p, d.(entries := d.entries[n := fs.cur.live[n]])))
  {
    assert SpaceInv(fs, fs.cur);
    var d := fs.cur.dirs[p];
    hide Page;
    SetDirKeeps(fs, p, d.(entries := d.entries[n := fs.cur.live[n]]));
  }

  lemma MoreDirs(fs: Fs, pages: map<DirId, map<Name, Content>>, pruned: set<DirId>, nextDir: DirId)
    requires Base(fs) && fs.nextDir <= nextDir && fs.pruned <= pruned && forall id :: id in pages ==> id < nextDir
    requires forall id :: id in fs.pages ==> id in pages && pages[id] == fs.pages[id]
    ensures Base(fs.(pages := pages, pruned := pruned, nextDir := nextDir))
  {
    var after := fs.(pages := pages, pruned := pruned, nextDir := nextDir);
    PagesOnlyOfData(fs, after);
    hide Page;
    forall sp | Possible(after, sp) ensures SpaceInv(after, sp) {
      assert Possible(fs, sp);
    }
  }

  lemma PublishKeeps(fs: Fs, date: Date)
    requires Base(fs) && Staging(date) in fs.cur.dirs && fs.cur.dirs[Staging(date)].id !in fs.pages
    ensures var d := fs.cur.dirs[Staging(date)];
            Base(Turn(fs, fs.cur.(dirs := (fs.cur.dirs - {Staging(date)})[Published(date) := d]))
                   .(pages := fs.pages[d.id := Page(fs, d)]))
  {
    var d := fs.cur.dirs[Staging(date)];
    assert SpaceInv(fs, fs.cur);
    var mid := fs.(pages := fs.pages[d.id := Page(fs, d)]);
    PagesOnlyOfData(fs, mid);
    hide Page;
    MoreDirs(fs, mid.pages, fs.pruned, fs.nextDir);
    MoveDirKeeps(mid, date);
  }

  lemma MoveDirKeeps(fs: Fs, date: Date)
    requires Base(fs) && Staging(date) in fs.cur.dirs
    requires var d := fs.cur.dirs[Staging(date)]; d.id in fs.pages && fs.pages[d.id] == Page(fs, d)
    ensures var d := fs.cur.dirs[Staging(date)];
            Base(Turn(fs, fs.cur.(dirs := (fs.cur.dirs - {Staging(date)})[Published(date) := d])))
  {
    var sp := fs.cur.(dirs := (fs.cur.dirs - {Staging(date)})[Published(date) := fs.cur.dirs[Staging(date)]]);
    assert SpaceInv(fs, fs.cur);
    assert Temps(sp) == Temps(fs.cur);
    FewerTemps(fs, sp);
    PagesOnlyOfData(fs, Turn(fs, sp));
    hide Page;
    TurnKeeps(fs, sp);
  }

  lemma PruneEntryKeeps(fs: Fs, date: Date, n: Name)
    requires Base(fs) && Published(date) in fs.cur.dirs
    ensures var d := fs.cur.dirs[Published(date)];
            Base(SetDir(fs, Published(date), d.(entries := d.entries - {n})).(pruned := fs.pruned + {d.id}))
  {
    var d := fs.cur.dirs[Published(date)];
    var mid := fs.(pruned := fs.pruned + {d.id});
    MoreDirs(fs, fs.pages, fs.pruned + {d.id}, fs.nextDir);
    assert SpaceInv(mid, mid.cur);
    hide Page;
    SetDirKeeps(mid, Published(date), d.(entries := d.entries - {n}));
  }

  /** Whatever a power loss leaves. */
  lemma CrashKeeps(fs: Fs, sp: Space, garbage: map<Ino, Content>)
    requires Base(fs) && Possible(fs, sp) && garbage.Keys == fs.unsynced
    ensures Base(fs.(cur := sp, past := {}, data := fs.data + garbage, unsynced := {}, jobs := map[], snapJob := None))
  {
    var after := fs.(cur := sp, past := {}, data := fs.data + garbage, unsynced := {}, jobs := map[], snapJob := None);
    assert SpaceInv(fs, sp);
    hide Page;
    forall date | Published(date) in sp.dirs
      ensures Page(after, sp.dirs[Published(date)]) == Page(fs, sp.dirs[Published(date)])
    {
      PageKept(fs, after, sp, Published(date), fs.unsynced);
    }
  }
}
