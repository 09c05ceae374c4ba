/** One full sweep of a task map (core/parseallcycle.go, cron/anibelka/anibelka.go): what an attempt does
    to a page, what a run does to the map, and how a cycle is begun, joined and rotated. */
module SweepCycle {
  import opened Blanks
  import opened Options
  import opened TaskMap
  import opened Text

  /** Failures a page may cost before the cycle gives up on it. */
  const BUDGET := 3

  datatype Cycle = Cycle(id: string, startedAt: string, fingerprint: string, mapCount: nat)

  /** Without a usable cycle every page is pending. */
  predicate Pending(t: Task, c: Option<Cycle>) {
    c.None? || TrimSpace(c.value.id) == "" || t.cycleId != c.value.id
  }

  function CountPending(m: Tasks, slots: seq<Slot>, c: Option<Cycle>): (n: nat)
    requires forall s :: s in slots ==> InMap(m, s)
    ensures n <= |slots|
  {
    if slots == [] then 0
    else
      var last := |slots| - 1;
      CountPending(m, slots[..last], c) + if Pending(TaskAt(m, slots[last]), c) then 1 else 0
  }

  ghost predicate SameShape(m: Tasks, r: Tasks) {
    r.Keys == m.Keys && forall s :: s in m ==>
          |r[s]| == |m[s]| && forall i :: 0 <= i < |m[s]| ==> r[s][i].page == m[s][i].page
  }

  // ---------------------------------------------------------------- one attempt

  datatype Noted = Noted(task: Task, done: bool)

  /** A success settles the page; a failure settles it once the budget is burnt. */
  function Note(t: Task, c: Option<Cycle>, ok: bool): Noted {
    if c.None? then Noted(t, ok)
    else if ok then Noted(t.(failCount := 0, cycleId := c.value.id), true)
    else if t.failCount + 1 < BUDGET then Noted(t.(failCount := t.failCount + 1), false)
    else Noted(t.(failCount := 0, cycleId := c.value.id), true)
  }

  function SettledTask(t: Task, c: Cycle, ok: bool, today: string): Task {
    var n := Note(t, Some(c), ok);
    if n.done && ok then n.task.(updateTime := today) else n.task
  }

  function SettledList(list: seq<Task>, page: int, c: Cycle, ok: bool, today: string): (r: seq<Task>)
    ensures |r| == |list|
  {
    seq(|list|, i requires 0 <= i < |list| =>
      if list[i].page == page then SettledTask(list[i], c, ok, today) else list[i])
  }

  /** How fetching a page and saving its torrents ended. */
  datatype Outcome = FetchFailed | NoTorrents | SaveFailed | Saved

  datatype Visit = Visit(section: string, page: int)
  datatype Attempt = Attempt(visit: Visit, outcome: Outcome)

  /** A page whose save failed is left as it was. */
  function AfterTask(t: Task, o: Outcome, c: Cycle, today: string): Task {
    if o.SaveFailed? then t else SettledTask(t, c, !o.FetchFailed?, today)
  }

  function AfterAttempt(m: Tasks, a: Attempt, c: Cycle, today: string): Tasks {
    if a.outcome.SaveFailed? || a.visit.section !in m then m
    else m[a.visit.section := SettledList(m[a.visit.section], a.visit.page, c, !a.outcome.FetchFailed?, today)]
  }

  function AfterAll(m: Tasks, attempts: seq<Attempt>, c: Cycle, today: string): Tasks {
    if attempts == [] then m
    else AfterAttempt(AfterAll(m, attempts[..|attempts| - 1], c, today), attempts[|attempts| - 1], c, today)
  }

  // ---------------------------------------------------------------- what a run visits

  /** The pages of a section that a run visits, in the order of the list. */
  function PlannedIn(section: string, list: seq<Task>, c: Cycle, force: bool): seq<Visit> {
    if list == [] then []
    else
      var last := list[|list| - 1];
      PlannedIn(section, list[..|list| - 1], c, force)
      + if force || Pending(last, Some(c)) then [Visit(section, last.page)] else []
  }

  /** Sections the parser does not know are passed over. */
  function Planned(m: Tasks, order: seq<string>, known: set<string>, c: Cycle, force: bool): seq<Visit>
    requires forall s :: s in order ==> s in m
  {
    if order == [] then []
    else
      var last := order[|order| - 1];
      Planned(m, order[..|order| - 1], known, c, force)
      + if last in known then PlannedIn(last, m[last], c, force) else []
  }

  /** The first n visits, each with what came of it. */
  function Attempted(plan: seq<Visit>, n: nat, world: nat -> Outcome): (r: seq<Attempt>)
    requires n <= |plan|
    ensures |r| == n
  {
    seq(n, i requires 0 <= i < n => Attempt(plan[i], world(i)))
  }

  // ---------------------------------------------------------------- beginning a cycle

  /** A checkpoint with a blank id reads as no checkpoint. */
  function Loaded(file: Option<Cycle>): (c: Option<Cycle>)
    ensures c.Some? ==> c == file && TrimSpace(c.value.id) != ""
  {
    if file.Some? && TrimSpace(file.value.id) != "" then file else None
  }

  function CarriedList(list: seq<Task>, id: string, isToday: string -> bool): (r: seq<Task>)
    ensures |r| == |list|
  {
    seq(|list|, i requires 0 <= i < |list| => if isToday(list[i].updateTime) then list[i].(cycleId := id) else list[i])
  }

  /** The very first cycle takes over the pages stamped today. */
  function Carried(m: Tasks, id: string, isToday: string -> bool): Tasks {
    map s | s in m :: CarriedList(m[s], id, isToday)
  }

  lemma CarriedShape(m: Tasks, id: string, isToday: string -> bool)
    ensures SameShape(m, Carried(m, id, isToday))
    ensures forall s :: InMap(Carried(m, id, isToday), s) <==> InMap(m, s)
  {
    forall s | s in m
      ensures |Carried(m, id, isToday)[s]| == |m[s]|
      ensures forall i :: 0 <= i < |m[s]| ==> Carried(m, id, isToday)[s][i].page == m[s][i].page
    {
      assert Carried(m, id, isToday)[s] == CarriedList(m[s], id, isToday);
    }
  }

  datatype Begun = Begun(tasks: Tasks, cycle: Cycle, pending: nat)

  /** Whether a cycle that was loaded is finished and gives way to the next one. */
  predicate Rotates(m: Tasks, slots: seq<Slot>, file: Option<Cycle>, rotateIfComplete: bool)
    requires forall s :: s in slots ==> InMap(m, s)
  {
    Loaded(file).Some? && rotateIfComplete && CountPending(m, slots, file) == 0 && |slots| > 0
  }

  function Begin(m: Tasks, slots: seq<Slot>, file: Option<Cycle>, next: Cycle, isToday: string -> bool,
                 rotateIfComplete: bool): Begun
    requires forall s :: s in slots ==> InMap(m, s)
  {
    if Loaded(file).None? then
      var carried := Carried(m, next.id, isToday);
      CarriedShape(m, next.id, isToday);
      Begun(carried, next.(mapCount := |slots|), CountPending(carried, slots, Some(next)))
    else if Rotates(m, slots, file, rotateIfComplete) then
      Begun(m, next.(mapCount := |slots|), |slots|)
    else
      Begun(m, file.value.(fingerprint := next.fingerprint, mapCount := |slots|), CountPending(m, slots, file))
  }

  // ---------------------------------------------------------------- counting

  lemma LastSlot(slots: seq<Slot>)
    requires slots != []
    ensures forall s :: s in slots <==> s in slots[..|slots| - 1] || s == slots[|slots| - 1]
  {
    assert slots == slots[..|slots| - 1] + [slots[|slots| - 1]];
  }

  lemma {:induction false} CountExtremes(m: Tasks, slots: seq<Slot>, c: Option<Cycle>)
    requires forall s :: s in slots ==> InMap(m, s)
    ensures CountPending(m, slots, c) == 0 <==> forall s :: s in slots ==> !Pending(TaskAt(m, s), c)
    ensures CountPending(m, slots, c) == |slots| <==> forall s :: s in slots ==> Pending(TaskAt(m, s), c)
  {
    if slots != [] {
      var n := |slots| - 1;
      LastSlot(slots);
      hide Pending, TaskAt, InMap;
      CountExtremes(m, slots[..n], c);
    }
  }

  ghost function PendingSlots(m: Tasks, slots: seq<Slot>, id: string): set<Slot>
    requires forall s :: s in slots ==> InMap(m, s)
  {
    set s | s in slots && TaskAt(m, s).cycleId != id
  }

  /** What is counted are the slots that do not carry the id of the cycle. */
  lemma {:induction false} CountIsSize(m: Tasks, slots: seq<Slot>, c: Cycle)
    requires (forall s :: s in slots ==> InMap(m, s)) && NoDuplicates(slots) && TrimSpace(c.id) != ""
    ensures CountPending(m, slots, Some(c)) == |PendingSlots(m, slots, c.id)|
  {
    hide TrimSpace;
    if slots != [] {
      var n := |slots| - 1;
      CountIsSize(m, slots[..n], c);
      assert slots == slots[..n] + [slots[n]];
      assert slots[n] !in slots[..n];
      assert PendingSlots(m, slots, c.id)
          == PendingSlots(m, slots[..n], c.id) + if TaskAt(m, slots[n]).cycleId != c.id then {slots[n]} else {};
    }
  }

  /** What is begun. Without a usable checkpoint it is the new cycle, and pages of today are taken over;
      a finished one gives way to the new cycle; any other goes on from its own start. */
  lemma BegunIs(m: Tasks, slots: seq<Slot>, file: Option<Cycle>, next: Cycle, isToday: string -> bool, s: Slot)
    requires IsSlotList(m, slots) && InMap(m, s)
    ensures var b := Begin(m, slots, file, next, isToday, true);
            var t := TaskAt(m, s);
            var anew := Cycle(next.id, next.startedAt, next.fingerprint, |slots|);
            InMap(b.tasks, s)
            && if file.None? || TrimSpace(file.value.id) == "" then
                 b.cycle == anew && TaskAt(b.tasks, s)
                     == if isToday(t.updateTime) then Task(t.page, t.updateTime, next.id, t.failCount) else t
               else if forall u :: InMap(m, u) ==> TaskAt(m, u).cycleId == file.value.id then
                 b.cycle == anew && b.tasks == m && b.pending == |slots|
               else
                 b.cycle == Cycle(file.value.id, file.value.startedAt, next.fingerprint, |slots|) && b.tasks == m
  {
    CountExtremes(m, slots, file);
    CarriedShape(m, next.id, isToday);
    assert s in slots;
    hide TrimSpace, SameShape, IsSlotList;
    assert forall u :: u in slots <==> InMap(m, u) by { SlotsAre(m, slots); }
  }

  lemma SlotsAre(m: Tasks, slots: seq<Slot>)
    requires IsSlotList(m, slots)
    ensures forall u :: u in slots <==> InMap(m, u)
  {
  }

  /** The pending count that is returned is the count over the map the run works on, unless a
      rotation met a slot that carries the new id already. */
  lemma BeginCountsPending(m: Tasks, slots: seq<Slot>, file: Option<Cycle>, next: Cycle, isToday: string -> bool,
                           rotateIfComplete: bool)
    requires IsSlotList(m, slots) && TrimSpace(next.id) != ""
    ensures var b := Begin(m, slots, file, next, isToday, rotateIfComplete);
            IsSlotList(b.tasks, slots)
            && (b.pending == CountPending(b.tasks, slots, Some(b.cycle))
                <==>
                      !(Rotates(m, slots, file, rotateIfComplete)
                      && exists s :: s in slots && TaskAt(m, s).cycleId == next.id))
  {
    var b := Begin(m, slots, file, next, isToday, rotateIfComplete);
    CarriedShape(m, next.id, isToday);
    assert SameShape(m, b.tasks);
    assert forall s :: InMap(b.tasks, s) <==> InMap(m, s);
    assert forall s :: InMap(m, s) ==> TaskAt(b.tasks, s).page == TaskAt(m, s).page;
    forall i, j | 0 <= i < j < |slots| ensures SlotBefore(b.tasks, slots[i], slots[j]) {
      assert slots[i] in slots && slots[j] in slots && SlotBefore(m, slots[i], slots[j]);
    }
    SameIdSameCount(b.tasks, slots, Some(next), Some(b.cycle));
    SameIdSameCount(b.tasks, slots, file, Some(b.cycle));
    CountExtremes(m, slots, Some(b.cycle));
  }

  lemma {:induction false} SameIdSameCount(m: Tasks, slots: seq<Slot>, c: Option<Cycle>, d: Option<Cycle>)
    requires forall s :: s in slots ==> InMap(m, s)
    ensures c.Some? && d.Some? && c.value.id == d.value.id ==> CountPending(m, slots, c) == CountPending(m, slots, d)
  {
    if slots != [] {
      var n := |slots| - 1;
      assert slots[n] in slots;
      SameIdSameCount(m, slots[..n], c, d);
    }
  }

  /** A loaded cycle is given up only when a full sweep finds all its pages settled and there are
      some; then every page is owed again. Otherwise the cycle in progress is joined. */
  lemma RotationMeansDone(m: Tasks, slots: seq<Slot>, file: Option<Cycle>, next: Cycle, isToday: string -> bool,
                          rotateIfComplete: bool)
    requires IsSlotList(m, slots) && Loaded(file).Some? && next.id != file.value.id
    ensures var b := Begin(m, slots, file, next, isToday, rotateIfComplete);
            b.tasks == m
            && (b.cycle.id != file.value.id
                <==>
                      rotateIfComplete && slots != []
                      && forall s :: InMap(m, s) ==> TaskAt(m, s).cycleId == file.value.id)
            && (b.cycle.id != file.value.id ==> b.cycle.id == next.id && b.pending == |slots|)
  {
    CountExtremes(m, slots, file);
    assert forall s :: InMap(m, s) ==> (Pending(TaskAt(m, s), file) <==> TaskAt(m, s).cycleId != file.value.id);
  }

  // ---------------------------------------------------------------- what attempts leave

  ghost predicate DistinctVisits(attempts: seq<Attempt>) {
    forall a, b :: 0 <= a < b < |attempts| ==> attempts[a].visit != attempts[b].visit
  }

  lemma {:induction false} AfterAllShape(m: Tasks, attempts: seq<Attempt>, c: Cycle, today: string)
    ensures SameShape(m, AfterAll(m, attempts, c, today))
  {
    if attempts != [] {
      AfterAllShape(m, attempts[..|attempts| - 1], c, today);
    }
  }

  /** Attempts at different pages: a page that was attempted is left as that attempt leaves it,
      every other page as it was. */
  lemma {:induction false} AfterAllAt(m: Tasks, attempts: seq<Attempt>, c: Cycle, today: string, s: string, i: nat)
    requires s in m && i < |m[s]| && DistinctVisits(attempts)
    ensures var r := AfterAll(m, attempts, c, today);
            s in r && i < |r[s]|
            && (forall k :: 0 <= k < |attempts| && attempts[k].visit == Visit(s, m[s][i].page)
                  ==> r[s][i] == AfterTask(m[s][i], attempts[k].outcome, c, today))
            && ((forall k :: 0 <= k < |attempts| ==> attempts[k].visit != Visit(s, m[s][i].page))
               ==> r[s][i] == m[s][i])
  {
    AfterAllShape(m, attempts, c, today);
    if attempts != [] {
      var n := |attempts| - 1;
      var p := attempts[..n];
      AfterAllShape(m, p, c, today);
      AfterAllAt(m, p, c, today, s, i);
      hide SettledTask;
      if attempts[n].visit == Visit(s, m[s][i].page) {
        assert forall k :: 0 <= k < n ==> p[k].visit != attempts[n].visit;
      }
    }
  }

  /** What the attempt at a page leaves: a success stamps it with the cycle and the day, a failure adds
      to its count, and the third one stamps it with the cycle alone. */
  lemma AttemptLeaves(m: Tasks, attempts: seq<Attempt>, c: Cycle, today: string, s: string, i: nat, k: nat)
    requires s in m && i < |m[s]| && DistinctVisits(attempts)
    requires k < |attempts| && attempts[k].visit == Visit(s, m[s][i].page)
    ensures var r := AfterAll(m, attempts, c, today);
            var t := m[s][i];
            s in r && i < |r[s]|
            && r[s][i] == match attempts[k].outcome
                          case SaveFailed => t
                          case FetchFailed =>
                            if t.failCount < 2 then Task(t.page, t.updateTime, t.cycleId, t.failCount + 1)
                            else Task(t.page, t.updateTime, c.id, 0)
                          case _ => Task(t.page, today, c.id, 0)
  {
    AfterAllAt(m, attempts, c, today, s, i);
    hide AfterAll;
  }

  ghost predicate UniquePages(list: seq<Task>) {
    forall i, j :: 0 <= i < j < |list| ==> list[i].page != list[j].page
  }

  ghost predicate PendingPage(list: seq<Task>, page: int, c: Cycle, force: bool) {
    exists i :: 0 <= i < |list| && list[i].page == page && (force || Pending(list[i], Some(c)))
  }

  lemma {:induction false} PlannedInContents(section: string, list: seq<Task>, c: Cycle, force: bool, v: Visit)
    ensures v in PlannedIn(section, list, c, force) <==> v.section == section && PendingPage(list, v.page, c, force)
  {
    if list != [] {
      var n := |list| - 1;
      PlannedInContents(section, list[..n], c, force, v);
      assert PendingPage(list, v.page, c, force)
        <==>
              PendingPage(list[..n], v.page, c, force)
              || (list[n].page == v.page && (force || Pending(list[n], Some(c))));
    }
  }

  lemma {:induction false} PlannedContents(m: Tasks, order: seq<string>, known: set<string>, c: Cycle, force: bool,
                                           v: Visit)
    requires forall s :: s in order ==> s in m
    ensures v in Planned(m, order, known, c, force)
            <==> v.section in order && v.section in known && PendingPage(m[v.section], v.page, c, force)
  {
    if order != [] {
      var n := |order| - 1;
      assert order == order[..n] + [order[n]];
      PlannedContents(m, order[..n], known, c, force, v);
      PlannedInContents(order[n], m[order[n]], c, force, v);
    }
  }

  /** The visits of a section come in the order of its list ... */
  lemma {:induction false} PlannedInOrder(section: string, a: seq<Task>, b: seq<Task>, c: Cycle, force: bool)
    ensures PlannedIn(section, a + b, c, force) == PlannedIn(section, a, c, force) + PlannedIn(section, b, c, force)
  {
    if b == [] {
      assert a + b == a;
    } else {
      var n := |b| - 1;
      assert (a + b)[..|a + b| - 1] == a + b[..n];
      PlannedInOrder(section, a, b[..n], c, force);
    }
  }

  /** ... and those of sections in the order in which the map is walked. */
  lemma {:induction false} PlannedOrder(m: Tasks, a: seq<string>, b: seq<string>, known: set<string>, c: Cycle,
                                        force: bool)
    requires forall s :: s in a + b ==> s in m
    requires (forall s :: s in a ==> s in m) && forall s :: s in b ==> s in m
    ensures Planned(m, a + b, known, c, force) == Planned(m, a, known, c, force) + Planned(m, b, known, c, force)
  {
    if b == [] {
      assert a + b == a;
    } else {
      var n := |b| - 1;
      assert (a + b)[..|a + b| - 1] == a + b[..n];
      PlannedOrder(m, a, b[..n], known, c, force);
    }
  }

  ghost predicate Distinct(plan: seq<Visit>) { forall a, b :: 0 <= a < b < |plan| ==> plan[a] != plan[b] }

  lemma {:induction false} PlannedInDistinct(section: string, list: seq<Task>, c: Cycle, force: bool)
    requires UniquePages(list)
    ensures Distinct(PlannedIn(section, list, c, force))
  {
    if list != [] {
      var n := |list| - 1;
      PlannedInDistinct(section, list[..n], c, force);
      PlannedInContents(section, list[..n], c, force, Visit(section, list[n].page));
    }
  }

  lemma {:induction false} PlannedDistinct(m: Tasks, order: seq<string>, known: set<string>, c: Cycle, force: bool)
    requires (forall s :: s in order ==> s in m && UniquePages(m[s])) && NoDuplicates(order)
    ensures Distinct(Planned(m, order, known, c, force))
  {
    if order != [] {
      var n := |order| - 1;
      var before, here := Planned(m, order[..n], known, c, force), PlannedIn(order[n], m[order[n]], c, force);
      assert order[n] in order;
      PlannedDistinct(m, order[..n], known, c, force);
      PlannedInDistinct(order[n], m[order[n]], c, force);
      forall a, b | 0 <= a < |before| && 0 <= b < |here| ensures before[a] != here[b] {
        PlannedContents(m, order[..n], known, c, force, before[a]);
        PlannedInContents(order[n], m[order[n]], c, force, here[b]);
        assert before[a] in before && here[b] in here;
      }
    }
  }
}
