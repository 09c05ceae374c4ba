/** The parser that drives the sweep (cron/anibelka/anibelka.go): it rebuilds its task map in place,
    begins a cycle over it, and settles its pages one at a time. */
module AnibelkaParser {
  import opened Blanks
  import opened Options
  import opened SweepCycle
  import opened SweepRuns
  import opened TaskMap
  import opened Text

  datatype Result = AlreadyRunning | NotSaved | Finished | Cancelled

  class Parser {
    var tasks: Tasks
    var file: Option<Cycle>
    var busy: bool
    /** The ids of the sections that are swept. */
    const sections: seq<string>

    constructor (sections: seq<string>, tasks: Tasks, file: Option<Cycle>)
      ensures this.sections == sections && this.tasks == tasks && this.file == file && !busy
    {
      this.sections := sections;
      this.tasks := tasks;
      this.file := file;
      busy := false;
    }

    function Known(): set<string> { set s | s in sections }

    /** pagers holds the last page read for each section whose first page could be fetched. */
    method UpdateTasksParse(pagers: map<string, int>)
      requires NoDuplicates(sections)
      modifies `tasks
      ensures tasks.Keys == old(tasks).Keys + (pagers.Keys * Known())
      ensures forall s :: s in pagers && s in sections ==>
                Rebuilt(if s in old(tasks) then old(tasks)[s] else [], pagers[s], tasks[s])
      ensures forall s :: s in old(tasks) && !(s in pagers && s in sections) ==> tasks[s] == old(tasks)[s]
    {
      for k := 0 to |sections|
        invariant tasks.Keys == old(tasks).Keys + (set s | s in sections[..k] && s in pagers)
        invariant forall s :: s in pagers && s in sections[..k] ==>
                    Rebuilt(if s in old(tasks) then old(tasks)[s] else [], pagers[s], tasks[s])
        invariant forall s :: s in old(tasks) && !(s in pagers && s in sections[..k]) ==> tasks[s] == old(tasks)[s]
      {
        var sec := sections[k];
        assert sections[..k + 1] == sections[..k] + [sec];
        if sec in pagers {
          var existing := if sec in tasks then tasks[sec] else [];
          var merged := RebuildSection(existing, pagers[sec]);
          tasks := tasks[sec := merged];
        }
      }
      assert sections[..|sections|] == sections;
    }

    /** Records what came of one page on every slot that has it. */
    method Settle(c: Cycle, section: string, page: int, ok: bool, today: string)
      modifies `tasks
      ensures tasks == AfterAttempt(old(tasks), Attempt(Visit(section, page), if ok then Saved else FetchFailed), c,
              today)
      ensures tasks.Keys == old(tasks).Keys && forall s :: s in old(tasks) && s != section ==> tasks[s] == old(tasks)[s]
      ensures section in old(tasks) ==>
                |tasks[section]| == |old(tasks)[section]| && forall i :: 0 <= i < |tasks[section]| ==>
                  var t := old(tasks)[section][i];
                  tasks[section][i] == if t.page != page then t
                                       else if ok then Task(page, today, c.id, 0)
                                       else if t.failCount < 2 then Task(page, t.updateTime, t.cycleId, t.failCount + 1)
                                       else Task(page, t.updateTime, c.id, 0)
    {
      if section in tasks {
        var list := tasks[section];
        for i := 0 to |list|
          invariant |list| == |tasks[section]|
          invariant forall k :: 0 <= k < i ==> list[k] == SettledList(tasks[section], page, c, ok, today)[k]
          invariant forall k :: i <= k < |list| ==> list[k] == tasks[section][k]
        {
          if list[i].page == page {
            var n := Note(list[i], Some(c), ok);
            list := list[i := if n.done && ok then n.task.(updateTime := today) else n.task];
          }
        }
        assert list == SettledList(tasks[section], page, c, ok, today);
        tasks := tasks[section := list];
      }
    }

    /** Puts the id on the pages stamped today, through the slots. */
    method CarryToday(slots: seq<Slot>, id: string, isToday: string -> bool)
      requires IsSlotList(tasks, slots)
      modifies `tasks
      ensures tasks == Carried(old(tasks), id, isToday)
    {
      ghost var before := tasks;
      CarriedNone(before, slots, id, isToday);
      hide SameShape, CarriedSome, Carried, IsSlotList;
      for k := 0 to |slots|
        invariant CarriedSome(before, tasks, slots, k, id, isToday)
      {
        var s := slots[k];
        CarriedNext(before, tasks, slots, k, id, isToday);
        if isToday(TaskAt(tasks, s).updateTime) {
          tasks := tasks[s.section := tasks[s.section][s.index := TaskAt(tasks, s).(cycleId := id)]];
        }
      }
      CarriedAll(before, tasks, slots, id, isToday);
    }

    /** Opens, joins or rotates the cycle; the checkpoint is written. */
    method BeginCycle(next: Cycle, isToday: string -> bool) returns (c: Cycle, pending: nat, slots: seq<Slot>)
      modifies `tasks, `file
      ensures IsSlotList(old(tasks), slots)
      ensures tasks == Begin(old(tasks), slots, old(file), next, isToday, true).tasks
      ensures c == Begin(old(tasks), slots, old(file), next, isToday, true).cycle
      ensures pending == Begin(old(tasks), slots, old(file), next, isToday, true).pending
      ensures file == Some(c)
    {
      slots := CycleSlotsFromMap(tasks);
      var state := Loaded(file);
      if state.None? {
        c := next.(mapCount := |slots|);
        CarriedShape(tasks, next.id, isToday);
        CarryToday(slots, c.id, isToday);
        SameIdSameCount(tasks, slots, Some(next), Some(c));
        pending := CountPendingInCycle(slots, Some(c));
      } else {
        c := state.value.(fingerprint := next.fingerprint, mapCount := |slots|);
        SameIdSameCount(tasks, slots, state, Some(c));
        pending := CountPendingInCycle(slots, Some(c));
        if pending == 0 && |slots| > 0 {
          c := next.(mapCount := |slots|);
          pending := |slots|;
        }
      }
      file := Some(c);
    }

    method CountPendingInCycle(slots: seq<Slot>, c: Option<Cycle>) returns (n: nat)
      requires forall s :: s in slots ==> InMap(tasks, s)
      ensures n == CountPending(tasks, slots, c)
    {
      n := 0;
      for k := 0 to |slots|
        invariant n == CountPending(tasks, slots[..k], c)
      {
        assert slots[..k + 1][..k] == slots[..k] && slots[k] in slots;
        if Pending(TaskAt(tasks, slots[k]), c) {
          n := n + 1;
        }
      }
      assert slots[..|slots|] == slots;
    }

    /** The pages of one section, after the visits made before it. */
    method SweepSection(c: Cycle, section: string, list: seq<Task>, force: bool, today: string, world: nat -> Outcome,
                        limit: nat, before: seq<Visit>, ghost start: Tasks)
      returns (visits: seq<Visit>, stopped: bool)
      requires |before| <= limit && tasks == AfterAll(start, Attempted(before, |before|, world), c, today)
      modifies `tasks
      ensures |visits| <= limit && tasks == AfterAll(start, Attempted(visits, |visits|, world), c, today)
      ensures !stopped ==> visits == before + PlannedIn(section, list, c, force)
      ensures stopped ==> |visits| == limit && visits < before + PlannedIn(section, list, c, force)
    {
      hide *;
      visits := before;
      PlannedInNone(section, list, c, force);
      for i := 0 to |list|
        invariant visits == before + PlannedIn(section, list[..i], c, force) && |visits| <= limit
        invariant tasks == AfterAll(start, Attempted(visits, |visits|, world), c, today)
      {
        PlannedInNext(section, list, i, c, force);
        if force || Pending(list[i], Some(c)) {
          if |visits| == limit {
            PlannedInGoesOn(section, list, i + 1, c, force);
            StopsBefore(before, PlannedIn(section, list[..i], c, force), Visit(section, list[i].page),
                        PlannedIn(section, list, c, force));
            return visits, true;
          }
          var outcome := world(|visits|);
          AttemptNext(start, visits, Visit(section, list[i].page), world, c, today);
          if !outcome.SaveFailed? {
            Settle(c, section, list[i].page, !outcome.FetchFailed?, today);
          }
          visits := visits + [Visit(section, list[i].page)];
        }
      }
      assert list[..|list|] == list;
      stopped := false;
    }

    /** Section after section, passing over those that are not known. */
    method Sweep(c: Cycle, order: seq<string>, force: bool, today: string, world: nat -> Outcome, limit: nat)
      returns (visits: seq<Visit>, stopped: bool)
      requires forall s :: s in order ==> s in tasks
      modifies `tasks
      ensures var plan := Planned(old(tasks), order, Known(), c, force);
              visits == plan[..Min(|plan|, limit)] && (stopped <==> limit < |plan|)
              && tasks == AfterAll(old(tasks), Attempted(visits, |visits|, world), c, today)
    {
      var snapshot := tasks;
      visits := [];
      for k := 0 to |order|
        invariant visits == Planned(snapshot, order[..k], Known(), c, force) && |visits| <= limit
        invariant tasks == AfterAll(snapshot, Attempted(visits, |visits|, world), c, today)
      {
        assert order[k] in order;
        assert order[..k + 1][..k] == order[..k];
        if order[k] in sections {
          visits, stopped := SweepSection(c, order[k], snapshot[order[k]], force, today, world, limit, visits,
              snapshot);
          if stopped {
            PlannedGoesOn(snapshot, order, k + 1, Known(), c, force);
            return;
          }
        }
      }
      assert order[..|order|] == order;
      stopped := false;
    }

    /** A sweep of what is pending, or of everything when forced. world tells how each attempt ends
        and limit after how many the run is cancelled; saveFails says that a map that had to be rebuilt
        cannot be written. order is the order the sections came in and visits the attempts made. */
    method ParseAllTask(force: bool, next: Cycle, isToday: string -> bool, today: string, world: nat -> Outcome,
                        limit: nat, pagers: map<string, int>, saveFails: bool)
      returns (result: Result, ghost started: Tasks, ghost slots: seq<Slot>, order: seq<string>, visits: seq<Visit>)
      requires NoDuplicates(sections)
      modifies this
      ensures result == AlreadyRunning <==> old(busy)
      ensures old(busy) ==> busy && tasks == old(tasks) && file == old(file) && visits == []
      ensures !old(busy) ==> !busy
      ensures result == NotSaved <==> !old(busy) && old(tasks) == map[] && saveFails
      ensures result == NotSaved ==> file == old(file) && visits == [] && tasks == started
      ensures !old(busy) && old(tasks) != map[] ==> started == old(tasks)
      ensures !old(busy) && result != NotSaved ==> IsSlotList(started, slots) && Orders(started, order)
      ensures !old(busy) && result != NotSaved ==>
                var b := Begin(started, slots, old(file), next, isToday, true);
                file == Some(b.cycle) && Orders(b.tasks, order)
                && var plan := Planned(b.tasks, order, Known(), b.cycle, force);
                   visits == plan[..Min(|plan|, limit)]
                   && (result == Finished <==> |plan| <= limit)
                   && tasks == AfterAll(b.tasks, Attempted(visits, |visits|, world), b.cycle, today)
      ensures !old(busy) && result != NotSaved && !force && TrimSpace(next.id) != "" ==>
                var st := Store(started, old(file));
                var r := RunInput(slots, next, isToday, today, order, world, limit);
                CanRun(st, r) && Store(tasks, file) == AfterRun(st, r, Known())
    {
      order, visits := [], [];
      if busy {
        return AlreadyRunning, tasks, [], [], [];
      }
      busy := true;
      if tasks == map[] {
        UpdateTasksParse(pagers);
        if saveFails {
          busy := false;
          return NotSaved, tasks, [], [], [];
        }
      }
      started := tasks;
      hide *;
      var c, pending, found := BeginCycle(next, isToday);
      slots := found;
      order := KeysInSomeOrder(tasks);
      OrderOfBegun(started, slots, old(file), next, isToday, tasks, order);
      var stopped;
      visits, stopped := Sweep(c, order, force, today, world, limit);
      busy := false;
      if !force && TrimSpace(next.id) != "" {
        var st, r := Store(started, old(file)), RunInput(slots, next, isToday, today, order, world, limit);
        CallIsOneRun(st, r, Known(), visits, Store(tasks, file));
      }
      result := if stopped then Cancelled else Finished;
    }
  }

  /** The sections are the same after a cycle has begun. */
  lemma OrderOfBegun(started: Tasks, slots: seq<Slot>, file: Option<Cycle>, next: Cycle, isToday: string -> bool,
                     tasks: Tasks, order: seq<string>)
    requires IsSlotList(started, slots) && tasks == Begin(started, slots, file, next, isToday, true).tasks
             && Orders(tasks, order)
    ensures Orders(started, order) && (forall s :: s in order ==> s in tasks)
    ensures forall s :: s in slots ==> InMap(started, s)
  {
    CarriedShape(started, next.id, isToday);
  }

  /** What an unforced call leaves is what one run of the sweep leaves. */
  lemma CallIsOneRun(st: Store, r: RunInput, known: set<string>, visits: seq<Visit>, after: Store)
    requires IsSlotList(st.tasks, r.slots) && Orders(st.tasks, r.order) && TrimSpace(r.next.id) != ""
    requires forall s :: s in r.slots ==> InMap(st.tasks, s)
    requires var b := Begin(st.tasks, r.slots, st.file, r.next, r.isToday, true);
             (forall s :: s in r.order ==> s in b.tasks) && after.file == Some(b.cycle)
             && (var plan := Planned(b.tasks, r.order, known, b.cycle, false); visits == plan[..Min(|plan|, r.limit)])
             && after.tasks == AfterAll(b.tasks, Attempted(visits, |visits|, r.world), b.cycle, r.today)
    ensures CanRun(st, r) && Attempted(visits, |visits|, r.world) == Made(st, r, known)
            && after == AfterRun(st, r, known)
  {
    hide AfterAll, Begin, Planned, IsSlotList, Orders, TrimSpace;
    assert CanRun(st, r);
    assert Attempted(visits, |visits|, r.world) == Made(st, r, known);
  }

  lemma CarriedIs(before: Tasks, after: Tasks, id: string, isToday: string -> bool)
    requires SameShape(before, after)
    requires forall s :: InMap(before, s) ==>
               TaskAt(after, s) == if isToday(TaskAt(before, s).updateTime) then TaskAt(before, s).(cycleId := id)
                   else TaskAt(before, s)
    ensures after == Carried(before, id, isToday)
  {
    forall s | s in before ensures after[s] == CarriedList(before[s], id, isToday) {
      forall i | 0 <= i < |before[s]| ensures after[s][i] == CarriedList(before[s], id, isToday)[i] {
        assert TaskAt(after, Slot(s, i)) == after[s][i] && TaskAt(before, Slot(s, i)) == before[s][i];
        assert InMap(before, Slot(s, i));
      }
    }
  }

  /** The slots before the k-th have been carried over. */
  ghost predicate CarriedSome(before: Tasks, tasks: Tasks, slots: seq<Slot>, k: nat, id: string,
                              isToday: string -> bool)
    requires k <= |slots|
  {
    SameShape(before, tasks)
    && forall s :: InMap(before, s) ==>
         TaskAt(tasks, s) == if s in slots[..k] && isToday(TaskAt(before, s).updateTime)
                             then TaskAt(before, s).(cycleId := id) else TaskAt(before, s)
  }

  lemma CarriedNone(before: Tasks, slots: seq<Slot>, id: string, isToday: string -> bool)
    ensures CarriedSome(before, before, slots, 0, id, isToday)
  {
  }

  lemma CarriedNext(before: Tasks, tasks: Tasks, slots: seq<Slot>, k: nat, id: string, isToday: string -> bool)
    requires k < |slots| && IsSlotList(before, slots) && CarriedSome(before, tasks, slots, k, id, isToday)
    ensures InMap(tasks, slots[k])
    ensures var s := slots[k];
            CarriedSome(before,
                        if isToday(TaskAt(tasks, s).updateTime)
                        then tasks[s.section := tasks[s.section][s.index := TaskAt(tasks, s).(cycleId := id)]]
                            else tasks,
                        slots, k + 1, id, isToday)
  {
    var s := slots[k];
    assert s in slots && InMap(before, s);
    assert slots[..k + 1] == slots[..k] + [s];
    LessIrreflexive(s.section);
    assert forall j :: 0 <= j < k ==> SlotBefore(before, slots[j], s);
    hide IsSlotList, Less;
    assert s !in slots[..k];
  }

  lemma CarriedAll(before: Tasks, after: Tasks, slots: seq<Slot>, id: string, isToday: string -> bool)
    requires IsSlotList(before, slots) && CarriedSome(before, after, slots, |slots|, id, isToday)
    ensures after == Carried(before, id, isToday)
  {
    assert slots[..|slots|] == slots;
    CarriedIs(before, after, id, isToday);
  }

  lemma PlannedInNone(section: string, list: seq<Task>, c: Cycle, force: bool)
    ensures PlannedIn(section, list[..0], c, force) == []
  {
  }

  lemma PlannedInNext(section: string, list: seq<Task>, i: nat, c: Cycle, force: bool)
    requires i < |list|
    ensures PlannedIn(section, list[..i + 1], c, force)
         == PlannedIn(section, list[..i], c, force)
            + if force || Pending(list[i], Some(c)) then [Visit(section, list[i].page)] else []
  {
    assert list[..i + 1][..i] == list[..i];
  }

  lemma StopsBefore(before: seq<Visit>, some: seq<Visit>, v: Visit, all: seq<Visit>)
    requires some + [v] <= all
    ensures before + some < before + all
  {
  }

  /** What one more attempt does; a failed save does nothing, and whether there were torrents does not
      matter. */
  lemma AttemptNext(start: Tasks, visits: seq<Visit>, v: Visit, world: nat -> Outcome, c: Cycle, today: string)
    ensures var before := AfterAll(start, Attempted(visits, |visits|, world), c, today);
            var outcome := world(|visits|);
            AfterAll(start, Attempted(visits + [v], |visits| + 1, world), c, today)
            == if outcome.SaveFailed? then before
               else AfterAttempt(before, Attempt(v, if !outcome.FetchFailed? then Saved else FetchFailed), c, today)
  {
    AttemptedNext(visits, v, world);
    var made := Attempted(visits, |visits|, world);
    var a := Attempt(v, world(|visits|));
    assert (made + [a])[..|made|] == made;
    hide SettledList, Attempted;
  }

  lemma AttemptedNext(visits: seq<Visit>, v: Visit, world: nat -> Outcome)
    ensures Attempted(visits + [v], |visits| + 1, world)
            == Attempted(visits, |visits|, world) + [Attempt(v, world(|visits|))]
  {
  }

  lemma {:induction false} PlannedInGoesOn(section: string, list: seq<Task>, i: nat, c: Cycle, force: bool)
    requires i <= |list|
    ensures PlannedIn(section, list[..i], c, force) <= PlannedIn(section, list, c, force)
  {
    if i < |list| {
      PlannedInGoesOn(section, list[..|list| - 1], i, c, force);
      assert list[..|list| - 1][..i] == list[..i];
    } else {
      assert list[..i] == list;
    }
  }

  lemma {:induction false} PlannedGoesOn(m: Tasks, order: seq<string>, k: nat, known: set<string>, c: Cycle,
                                         force: bool)
    requires (forall s :: s in order ==> s in m) && k <= |order|
    ensures Planned(m, order[..k], known, c, force) <= Planned(m, order, known, c, force)
  {
    if k < |order| {
      PlannedGoesOn(m, order[..|order| - 1], k, known, c, force);
      assert order[..|order| - 1][..k] == order[..k];
    } else {
      assert order[..k] == order;
    }
  }

  /** A walk over the sections as a map gives them. */
  method KeysInSomeOrder(m: Tasks) returns (order: seq<string>)
    ensures Orders(m, order)
  {
    order := [];
    var left := m.Keys;
    while left != {}
      invariant left <= m.Keys && NoDuplicates(order) && forall k :: k in order <==> k in m && k !in left
      decreases left
    {
      var k :| k in left;
      order := order + [k];
      left := left - {k};
    }
  }
}
