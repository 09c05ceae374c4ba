/** Runs of the full sweep over a fixed map: attempts use up work, settled pages are not visited again,
    and three complete runs finish a cycle unless a section is no longer known. */
module SweepRuns {
  import opened Blanks
  import opened Options
  import opened SweepCycle
  import opened TaskMap
  import opened Text

  /** The task map and the checkpoint file. */
  datatype Store = Store(tasks: Tasks, file: Option<Cycle>)

  /** What a run meets: the slot list of the map, the cycle it would start, the dates, the order in
      which it happens to walk the sections, how each of its attempts ends, and after how many
      attempts it is cancelled. */
  datatype RunInput = RunInput(slots: seq<Slot>, next: Cycle, isToday: string -> bool, today: string,
                               order: seq<string>, world: nat -> Outcome, limit: nat)

  ghost predicate Orders(m: Tasks, order: seq<string>) { NoDuplicates(order) && forall s :: s in order <==> s in m }

  ghost predicate CanRun(st: Store, r: RunInput) {
    IsSlotList(st.tasks, r.slots) && Orders(st.tasks, r.order) && TrimSpace(r.next.id) != ""
  }

  function BegunBy(st: Store, r: RunInput): (b: Begun)
    requires forall s :: s in r.slots ==> InMap(st.tasks, s)
    ensures SameShape(st.tasks, b.tasks)
  {
    CarriedShape(st.tasks, r.next.id, r.isToday);
    Begin(st.tasks, r.slots, st.file, r.next, r.isToday, true)
  }

  ghost function PlanOf(st: Store, r: RunInput, known: set<string>): seq<Visit>
    requires CanRun(st, r)
  {
    Planned(BegunBy(st, r).tasks, r.order, known, BegunBy(st, r).cycle, false)
  }

  function Min(a: nat, b: nat): nat { if a < b then a else b }

  ghost function Made(st: Store, r: RunInput, known: set<string>): seq<Attempt>
    requires CanRun(st, r)
  {
    Attempted(PlanOf(st, r, known), Min(|PlanOf(st, r, known)|, r.limit), r.world)
  }

  ghost function AfterRun(st: Store, r: RunInput, known: set<string>): Store
    requires CanRun(st, r)
  {
    Store(AfterAll(BegunBy(st, r).tasks, Made(st, r, known), BegunBy(st, r).cycle, r.today), Some(BegunBy(st, r).cycle))
  }

  /** The run was not cancelled. */
  ghost predicate Complete(st: Store, r: RunInput, known: set<string>)
    requires CanRun(st, r)
  {
    |PlanOf(st, r, known)| <= r.limit
  }

  ghost predicate SavesSucceed(r: RunInput) { forall k: nat :: r.world(k) != SaveFailed }

  /** Page numbers are unique within a section and fail counts are below the budget. */
  ghost predicate InBudget(m: Tasks) {
    forall s :: s in m ==> UniquePages(m[s]) && forall i :: 0 <= i < |m[s]| ==> 0 <= m[s][i].failCount < BUDGET
  }

  // ---------------------------------------------------------------- one run, page by page

  lemma BegunFacts(st: Store, r: RunInput)
    requires CanRun(st, r) && InBudget(st.tasks)
    ensures var b := BegunBy(st, r);
            InBudget(b.tasks) && Orders(b.tasks, r.order) && TrimSpace(b.cycle.id) != ""
            && (Loaded(st.file).Some? ==> b.tasks == st.tasks)
  {
    var b := BegunBy(st, r);
    forall s | s in st.tasks ensures UniquePages(b.tasks[s]) {
      assert UniquePages(st.tasks[s]);
      assert |b.tasks[s]| == |st.tasks[s]|;
      forall i, j | 0 <= i < j < |b.tasks[s]| ensures b.tasks[s][i].page != b.tasks[s][j].page {
        assert b.tasks[s][i].page == st.tasks[s][i].page && b.tasks[s][j].page == st.tasks[s][j].page;
      }
    }
    if Loaded(st.file).None? {
      forall s, i | s in st.tasks && 0 <= i < |st.tasks[s]|
        ensures b.tasks[s][i].failCount == st.tasks[s][i].failCount
      {
        assert b.tasks[s] == CarriedList(st.tasks[s], r.next.id, r.isToday);
      }
    }
  }

  lemma MadeFacts(st: Store, r: RunInput, known: set<string>)
    requires CanRun(st, r) && InBudget(st.tasks)
    ensures DistinctVisits(Made(st, r, known))
    ensures forall k :: 0 <= k < |Made(st, r, known)| ==>
              var a := Made(st, r, known)[k];
              a.visit.section in known && a.visit.section in BegunBy(st, r).tasks
              && PendingPage(BegunBy(st, r).tasks[a.visit.section], a.visit.page, BegunBy(st, r).cycle, false)
              && a.outcome == r.world(k)
  {
    BegunFacts(st, r);
    var b, plan := BegunBy(st, r), PlanOf(st, r, known);
    PlannedDistinct(b.tasks, r.order, known, b.cycle, false);
    forall k | 0 <= k < |Made(st, r, known)|
      ensures plan[k].section in known && plan[k].section in b.tasks
              && PendingPage(b.tasks[plan[k].section], plan[k].page, b.cycle, false)
    {
      assert plan[k] in plan;
      PlannedContents(b.tasks, r.order, known, b.cycle, false, plan[k]);
    }
  }

  /** One attempt of the run was at this page. */
  ghost predicate Visited(before: Task, after: Task, r: RunInput, c: Cycle) {
    exists k: nat :: after == AfterTask(before, r.world(k), c, r.today)
  }

  /** A page is planned exactly when its section is known and it is pending. */
  lemma InPlanIff(st: Store, r: RunInput, known: set<string>, s: string, i: nat)
    requires CanRun(st, r) && InBudget(st.tasks) && s in st.tasks && i < |st.tasks[s]|
    ensures var b := BegunBy(st, r);
            Visit(s, b.tasks[s][i].page) in PlanOf(st, r, known)
            <==> s in known && b.tasks[s][i].cycleId != b.cycle.id
  {
    BegunFacts(st, r);
    var b := BegunBy(st, r);
    var v := Visit(s, b.tasks[s][i].page);
    PlannedContents(b.tasks, r.order, known, b.cycle, false, v);
    assert UniquePages(b.tasks[s]) && s in r.order;
    hide Planned, Begin, TrimSpace, IsSlotList;
    assert PendingPage(b.tasks[s], v.page, b.cycle, false) <==> Pending(b.tasks[s][i], Some(b.cycle));
  }

  /** What is not planned is not attempted; of a run that is not cancelled, what is planned is. */
  lemma MadeOfPlan(st: Store, r: RunInput, known: set<string>, v: Visit)
    requires CanRun(st, r)
    ensures v !in PlanOf(st, r, known) ==> forall j :: 0 <= j < |Made(st, r, known)| ==>
              Made(st, r, known)[j].visit != v
    ensures v in PlanOf(st, r, known) && Complete(st, r, known) ==>
              exists k :: 0 <= k < |Made(st, r, known)| && Made(st, r, known)[k].visit == v
  {
    var plan, made := PlanOf(st, r, known), Made(st, r, known);
    assert forall j :: 0 <= j < |made| ==> made[j].visit == plan[j];
    hide PlanOf, Made, CanRun;
    if v in plan && |plan| <= |made| {
      var k :| 0 <= k < |plan| && plan[k] == v;
      assert made[k].visit == v;
    }
  }

  /** A page of a known section that is pending when the run begins is visited by a run that is not
      cancelled, once; any other page is left alone. */
  lemma RunAt(st: Store, r: RunInput, known: set<string>, s: string, i: nat)
    requires CanRun(st, r) && InBudget(st.tasks) && s in st.tasks && i < |st.tasks[s]|
    ensures var b, after := BegunBy(st, r), AfterRun(st, r, known).tasks;
            SameShape(st.tasks, after)
            && (if s in known && b.tasks[s][i].cycleId != b.cycle.id
                then Visited(b.tasks[s][i], after[s][i], r, b.cycle)
                    || (!Complete(st, r, known) && after[s][i] == b.tasks[s][i])
                else after[s][i] == b.tasks[s][i])
  {
    BegunFacts(st, r);
    MadeFacts(st, r, known);
    var b, plan, made := BegunBy(st, r), PlanOf(st, r, known), Made(st, r, known);
    var v := Visit(s, b.tasks[s][i].page);
    AfterAllShape(b.tasks, made, b.cycle, r.today);
    AfterAllAt(b.tasks, made, b.cycle, r.today, s, i);
    InPlanIff(st, r, known, s, i);
    MadeOfPlan(st, r, known, v);
    hide AfterTask, AfterAll, Begin, Planned, PlanOf, Made, InBudget, DistinctVisits;
    if k :| 0 <= k < |made| && made[k].visit == v {
      assert made[k] == Attempt(v, r.world(k));
    }
  }

  lemma SameShapeAfter(st: Store, r: RunInput, known: set<string>)
    requires CanRun(st, r)
    ensures SameShape(st.tasks, AfterRun(st, r, known).tasks)
  {
    AfterAllShape(BegunBy(st, r).tasks, Made(st, r, known), BegunBy(st, r).cycle, r.today);
  }

  lemma AttemptKeepsBudget(m: Tasks, a: Attempt, c: Cycle, today: string)
    requires InBudget(m)
    ensures InBudget(AfterAttempt(m, a, c, today))
  {
    var after := AfterAttempt(m, a, c, today);
    forall s | s in after
      ensures UniquePages(after[s]) && forall i :: 0 <= i < |after[s]| ==> 0 <= after[s][i].failCount < BUDGET
    {
      assert UniquePages(m[s]) && forall i :: 0 <= i < |m[s]| ==> 0 <= m[s][i].failCount < BUDGET;
    }
  }

  lemma {:induction false} AttemptsKeepBudget(m: Tasks, attempts: seq<Attempt>, c: Cycle, today: string)
    requires InBudget(m)
    ensures InBudget(AfterAll(m, attempts, c, today))
  {
    if attempts != [] {
      AttemptsKeepBudget(m, attempts[..|attempts| - 1], c, today);
      AttemptKeepsBudget(AfterAll(m, attempts[..|attempts| - 1], c, today), attempts[|attempts| - 1], c, today);
    }
  }

  lemma RunKeepsBudget(st: Store, r: RunInput, known: set<string>)
    requires CanRun(st, r) && InBudget(st.tasks)
    ensures InBudget(AfterRun(st, r, known).tasks)
  {
    BegunFacts(st, r);
    AttemptsKeepBudget(BegunBy(st, r).tasks, Made(st, r, known), BegunBy(st, r).cycle, r.today);
  }

  // ---------------------------------------------------------------- three runs finish a cycle

  /** Every page of a known section carries the id. */
  ghost predicate Swept(m: Tasks, known: set<string>, id: string) {
    forall s, i :: s in m && s in known && 0 <= i < |m[s]| ==> m[s][i].cycleId == id
  }

  ghost predicate AllSettled(m: Tasks, id: string) {
    forall s, i :: s in m && 0 <= i < |m[s]| ==> m[s][i].cycleId == id
  }

  /** Every page of a known section is settled or has failed at least n times. */
  ghost predicate Spent(m: Tasks, known: set<string>, id: string, n: int) {
    forall s, i :: s in m && s in known && 0 <= i < |m[s]| ==> m[s][i].cycleId == id || m[s][i].failCount >= n
  }

  lemma RunSpends(st: Store, r: RunInput, known: set<string>, n: int)
    requires CanRun(st, r) && InBudget(st.tasks) && Complete(st, r, known) && SavesSucceed(r)
    requires Spent(BegunBy(st, r).tasks, known, BegunBy(st, r).cycle.id, n)
    ensures Spent(AfterRun(st, r, known).tasks, known, BegunBy(st, r).cycle.id, n + 1)
  {
    var b := BegunBy(st, r);
    var after: Tasks := AfterRun(st, r, known).tasks;
    forall s, i | s in after && s in known && 0 <= i < |after[s]|
      ensures after[s][i].cycleId == b.cycle.id || after[s][i].failCount >= n + 1
    {
      SameShapeAfter(st, r, known);
      hide AfterRun, BegunBy, PlanOf, Made;
      RunAt(st, r, known, s, i);
      assert b.tasks[s][i].cycleId == b.cycle.id || b.tasks[s][i].failCount >= n;
    }
  }

  lemma BurntOut(m: Tasks, known: set<string>, id: string)
    requires InBudget(m) && Spent(m, known, id, BUDGET)
    ensures Swept(m, known, id)
  {
    forall s, i | s in m && s in known && 0 <= i < |m[s]| ensures m[s][i].cycleId == id {
      assert 0 <= m[s][i].failCount < BUDGET;
    }
  }

  /** A run over a loaded cycle joins it, unless it is finished. */
  lemma JoinOrFinished(st: Store, r: RunInput)
    requires CanRun(st, r) && Loaded(st.file).Some?
    ensures BegunBy(st, r).tasks == st.tasks
    ensures BegunBy(st, r).cycle.id == st.file.value.id || AllSettled(st.tasks, st.file.value.id)
  {
    CountExtremes(st.tasks, r.slots, st.file);
    if CountPending(st.tasks, r.slots, st.file) == 0 {
      forall s, i | s in st.tasks && 0 <= i < |st.tasks[s]| ensures st.tasks[s][i].cycleId == st.file.value.id {
        assert Slot(s, i) in r.slots && TaskAt(st.tasks, Slot(s, i)) == st.tasks[s][i];
      }
    }
  }

  /** Whatever cycle the first of three complete runs works on, after one of the three every page
      of a known section is settled in it. */
  lemma ThreeRunsSweep(s0: Store, r1: RunInput, r2: RunInput, r3: RunInput, known: set<string>)
    requires CanRun(s0, r1) && InBudget(s0.tasks) && Complete(s0, r1, known) && SavesSucceed(r1)
    requires var s1 := AfterRun(s0, r1, known); CanRun(s1, r2) && Complete(s1, r2, known) && SavesSucceed(r2)
    requires var s2 := AfterRun(AfterRun(s0, r1, known), r2, known);
             CanRun(s2, r3) && Complete(s2, r3, known)
             && SavesSucceed(r3)
    ensures var s1 := AfterRun(s0, r1, known); var s2 := AfterRun(s1, r2, known); var s3 := AfterRun(s2, r3, known);
            var id := BegunBy(s0, r1).cycle.id;
            Swept(s1.tasks, known, id) || Swept(s2.tasks, known, id) || Swept(s3.tasks, known, id)
  {
    var s1 := AfterRun(s0, r1, known);
    var s2 := AfterRun(s1, r2, known);
    var id := BegunBy(s0, r1).cycle.id;
    BegunFacts(s0, r1);
    RunKeepsBudget(s0, r1, known);
    RunKeepsBudget(s1, r2, known);
    RunKeepsBudget(s2, r3, known);
    assert Spent(BegunBy(s0, r1).tasks, known, id, 0);
    RunSpends(s0, r1, known, 0);
    assert s1.file == Some(BegunBy(s0, r1).cycle) && s2.file == Some(BegunBy(s1, r2).cycle);
    hide AfterRun, BegunBy, Spent, InBudget, CanRun, Complete;
    JoinOrFinished(s1, r2);
    if BegunBy(s1, r2).cycle.id == id {
      RunSpends(s1, r2, known, 1);
      JoinOrFinished(s2, r3);
      if BegunBy(s2, r3).cycle.id == id {
        RunSpends(s2, r3, known, 2);
        BurntOut(AfterRun(s2, r3, known).tasks, known, id);
      }
    }
  }

  /** No page of an unknown section is unsettled. */
  ghost predicate NoStranded(m: Tasks, known: set<string>, id: string) {
    forall s, i :: s in m && s !in known && 0 <= i < |m[s]| ==> m[s][i].cycleId == id
  }

  lemma SweptAndNoneStranded(m: Tasks, known: set<string>, id: string)
    ensures AllSettled(m, id) <==> Swept(m, known, id) && NoStranded(m, known, id)
  {
  }

  /** A run neither settles nor reopens a page of a section the parser does not know. */
  lemma RunKeepsStranded(st: Store, r: RunInput, known: set<string>, id: string)
    requires CanRun(st, r) && InBudget(st.tasks)
    ensures NoStranded(AfterRun(st, r, known).tasks, known, id) <==> NoStranded(BegunBy(st, r).tasks, known, id)
  {
    var before, after: Tasks := BegunBy(st, r).tasks, AfterRun(st, r, known).tasks;
    SameShapeAfter(st, r, known);
    forall s, i | s in before && s !in known && 0 <= i < |before[s]| ensures after[s][i] == before[s][i] {
      hide AfterRun, BegunBy, PlanOf, Made;
      RunAt(st, r, known, s, i);
    }
  }

  /** Three complete runs finish the cycle, so that the next full run rotates it, exactly when no
      page of an unknown section was unsettled as it began. */
  lemma ThreeRunsFinishIff(s0: Store, r1: RunInput, r2: RunInput, r3: RunInput, known: set<string>)
    requires CanRun(s0, r1) && InBudget(s0.tasks) && Complete(s0, r1, known) && SavesSucceed(r1)
    requires var s1 := AfterRun(s0, r1, known); CanRun(s1, r2) && Complete(s1, r2, known) && SavesSucceed(r2)
    requires var s2 := AfterRun(AfterRun(s0, r1, known), r2, known);
             CanRun(s2, r3) && Complete(s2, r3, known)
             && SavesSucceed(r3)
    requires r2.next.id != BegunBy(s0, r1).cycle.id && r3.next.id != BegunBy(s0, r1).cycle.id
    ensures var s1 := AfterRun(s0, r1, known); var s2 := AfterRun(s1, r2, known); var s3 := AfterRun(s2, r3, known);
            var id := BegunBy(s0, r1).cycle.id;
            (AllSettled(s1.tasks, id) || AllSettled(s2.tasks, id) || AllSettled(s3.tasks, id))
            <==> NoStranded(BegunBy(s0, r1).tasks, known, id)
  {
    var s1 := AfterRun(s0, r1, known);
    var s2 := AfterRun(s1, r2, known);
    var s3 := AfterRun(s2, r3, known);
    var id := BegunBy(s0, r1).cycle.id;
    BegunFacts(s0, r1);
    RunKeepsBudget(s0, r1, known);
    RunKeepsBudget(s1, r2, known);
    RunKeepsStranded(s0, r1, known, id);
    RunKeepsStranded(s1, r2, known, id);
    RunKeepsStranded(s2, r3, known, id);
    ThreeRunsSweep(s0, r1, r2, r3, known);
    assert s1.file == Some(BegunBy(s0, r1).cycle) && s2.file == Some(BegunBy(s1, r2).cycle);
    hide AfterRun, BegunBy, Swept, NoStranded, AllSettled, InBudget, CanRun, Complete;
    JoinOrFinished(s1, r2);
    JoinOrFinished(s2, r3);
    SweptAndNoneStranded(s1.tasks, known, id);
    SweptAndNoneStranded(s2.tasks, known, id);
    SweptAndNoneStranded(s3.tasks, known, id);
  }

  /** A map with one page, of a section that is no longer known, and a run over it. */
  const STRANDED: Tasks := map["old" := [NewTask(0)]]

  function StrandedRun(id: string): RunInput {
    RunInput([Slot("old", 0)], Cycle(id, "", "", 1), _ => false, "", ["old"], _ => Saved, 1)
  }

  lemma StrandedCanRun(st: Store, id: string)
    requires st.tasks == STRANDED && (st.file.Some? ==> TrimSpace(st.file.value.id) != "") && TrimSpace(id) != ""
    ensures CanRun(st, StrandedRun(id)) && InBudget(STRANDED) && SavesSucceed(StrandedRun(id))
    ensures forall s :: s in StrandedRun(id).slots <==> InMap(STRANDED, s)
  {
  }

  lemma StrandedStays(st: Store, id: string, known: set<string>)
    requires "old" !in known && st.tasks == STRANDED && (st.file.Some? ==> TrimSpace(st.file.value.id) != "")
             && TrimSpace(id) != ""
    requires CanRun(st, StrandedRun(id))
    ensures BegunBy(st, StrandedRun(id)).tasks == STRANDED && TrimSpace(BegunBy(st, StrandedRun(id)).cycle.id) != ""
    ensures PlanOf(st, StrandedRun(id), known) == [] && AfterRun(st, StrandedRun(id), known).tasks == STRANDED
    ensures AfterRun(st, StrandedRun(id), known).file == Some(BegunBy(st, StrandedRun(id)).cycle)
  {
    var r := StrandedRun(id);
    hide TrimSpace;
    assert Carried(STRANDED, id, r.isToday) == STRANDED by {
      assert CarriedList(STRANDED["old"], id, r.isToday) == STRANDED["old"];
    }
    assert r.order[..|r.order| - 1] == [];
    NothingPlanned(BegunBy(st, r).tasks, r.order, known, BegunBy(st, r).cycle);
  }

  lemma {:induction false} NothingPlanned(m: Tasks, order: seq<string>, known: set<string>, c: Cycle)
    requires forall s :: s in order ==> s in m && s !in known
    ensures Planned(m, order, known, c, false) == []
  {
    if order != [] { NothingPlanned(m, order[..|order| - 1], known, c); }
  }

  /** No run settles a page that no known section claims: three complete runs, in which nothing fails, leave
      the cycle where it was. */
  lemma StrandedForever(a: string, b: string, c: string, known: set<string>)
    requires "old" !in known && TrimSpace(a) != "" && TrimSpace(b) != "" && TrimSpace(c) != ""
    ensures var r1, r2, r3 := StrandedRun(a), StrandedRun(b), StrandedRun(c);
            var s0 := Store(STRANDED, None);
            CanRun(s0, r1) && Complete(s0, r1, known) && SavesSucceed(r1)
            && (var s1 := AfterRun(s0, r1, known);
                CanRun(s1, r2) && Complete(s1, r2, known) && SavesSucceed(r2)
                && (var s2 := AfterRun(s1, r2, known);
                    CanRun(s2, r3) && Complete(s2, r3, known) && SavesSucceed(r3)
                    && !AllSettled(AfterRun(s2, r3, known).tasks, BegunBy(s0, r1).cycle.id)))
  {
    hide CanRun, AfterRun, BegunBy, PlanOf, STRANDED, StrandedRun, SavesSucceed, TrimSpace;
    var s0 := Store(STRANDED, None);
    StrandedCanRun(s0, a);
    StrandedStays(s0, a, known);
    var s1 := AfterRun(s0, StrandedRun(a), known);
    StrandedCanRun(s1, b);
    StrandedStays(s1, b, known);
    var s2 := AfterRun(s1, StrandedRun(b), known);
    StrandedCanRun(s2, c);
    StrandedStays(s2, c, known);
    StrandedUnsettled(BegunBy(s0, StrandedRun(a)).cycle.id);
  }

  lemma StrandedUnsettled(id: string)
    requires TrimSpace(id) != ""
    ensures !AllSettled(STRANDED, id)
  {
    assert TrimSpace("") == "";
    assert STRANDED["old"][0].cycleId == "";
  }

  // ---------------------------------------------------------------- settled pages stay settled

  /** Runs one after the other, none of which starts a new cycle. */
  ghost predicate Joined(st: Store, runs: seq<RunInput>, known: set<string>)
    decreases |runs|
  {
    Loaded(st.file).Some?
    && (runs != [] ==> CanRun(st, runs[0]) && !Rotates(st.tasks, runs[0].slots, st.file, true)
                       && Joined(AfterRun(st, runs[0], known), runs[1..], known))
  }

  ghost function AfterRuns(st: Store, runs: seq<RunInput>, known: set<string>): Store
    requires Joined(st, runs, known)
    decreases |runs|
  {
    if runs == [] then st else AfterRuns(AfterRun(st, runs[0], known), runs[1..], known)
  }

  /** All attempts of the runs, in order. */
  ghost function AllMade(st: Store, runs: seq<RunInput>, known: set<string>): seq<Attempt>
    requires Joined(st, runs, known)
    decreases |runs|
  {
    if runs == [] then [] else Made(st, runs[0], known) + AllMade(AfterRun(st, runs[0], known), runs[1..], known)
  }

  lemma JoinedRun(st: Store, r: RunInput, known: set<string>)
    requires CanRun(st, r) && Loaded(st.file).Some? && !Rotates(st.tasks, r.slots, st.file, true)
    ensures BegunBy(st, r).tasks == st.tasks && BegunBy(st, r).cycle.id == st.file.value.id
    ensures AfterRun(st, r, known).file.Some? && AfterRun(st, r, known).file.value.id == st.file.value.id
  {
  }

  /** A settled page keeps all its stamps through any number of runs, cancelled or not, that join
      its cycle, and none of them attempts it. */
  lemma {:induction false} SettledStaysSettled(st: Store, runs: seq<RunInput>, known: set<string>, s: string, i: nat)
    requires Joined(st, runs, known) && InBudget(st.tasks) && s in st.tasks && i < |st.tasks[s]|
    requires st.tasks[s][i].cycleId == st.file.value.id
    ensures SameShape(st.tasks, AfterRuns(st, runs, known).tasks)
    ensures AfterRuns(st, runs, known).tasks[s][i] == st.tasks[s][i]
    ensures forall k :: 0 <= k < |AllMade(st, runs, known)| ==>
              AllMade(st, runs, known)[k].visit != Visit(s, st.tasks[s][i].page)
    decreases |runs|
  {
    if runs != [] {
      var r := runs[0];
      var after := AfterRun(st, r, known);
      JoinedRun(st, r, known);
      RunKeepsBudget(st, r, known);
      SameShapeAfter(st, r, known);
      MadeFacts(st, r, known);
      assert UniquePages(st.tasks[s]);
      var made := Made(st, r, known);
      hide AfterRun, BegunBy, Made, CanRun, Rotates;
      RunAt(st, r, known, s, i);
      SettledStaysSettled(after, runs[1..], known, s, i);
      forall k | 0 <= k < |made| ensures made[k].visit != Visit(s, st.tasks[s][i].page) {
      }
    }
  }

  // ---------------------------------------------------------------- work

  function TaskWork(t: Task, id: string): int { if t.cycleId == id then 0 else BUDGET - t.failCount }

  function ListWork(list: seq<Task>, id: string): int {
    if list == [] then 0 else ListWork(list[..|list| - 1], id) + TaskWork(list[|list| - 1], id)
  }

  /** The sum over the pending pages of what is left of the budget. */
  function Work(m: Tasks, order: seq<string>, id: string): int
    requires forall s :: s in order ==> s in m
  {
    if order == [] then 0
    else Work(m, order[..|order| - 1], id) + ListWork(m[order[|order| - 1]], id)
  }

  lemma {:induction false} ListWorkUpdate(list: seq<Task>, i: nat, t: Task, id: string)
    requires i < |list|
    ensures ListWork(list[i := t], id) - ListWork(list, id) == TaskWork(t, id) - TaskWork(list[i], id)
  {
    var n := |list| - 1;
    if i < n {
      ListWorkUpdate(list[..n], i, t, id);
      assert list[i := t][..n] == list[..n][i := t];
    } else {
      assert list[i := t][..n] == list[..n];
    }
  }

  lemma {:induction false} WorkUpdate(m: Tasks, order: seq<string>, s: string, list: seq<Task>, id: string)
    requires (forall x :: x in order ==> x in m) && NoDuplicates(order)
    ensures Work(m[s := list], order, id) == Work(m, order, id) + if s in order
            then ListWork(list, id) - ListWork(m[s], id) else 0
  {
    if order != [] {
      var n := |order| - 1;
      WorkUpdate(m, order[..n], s, list, id);
      assert order == order[..n] + [order[n]];
      assert order[n] !in order[..n];
    }
  }

  lemma {:induction false} ListWorkBounds(list: seq<Task>, id: string)
    requires forall i :: 0 <= i < |list| ==> 0 <= list[i].failCount < BUDGET
    ensures 0 <= ListWork(list, id) <= BUDGET * |list|
  {
    if list != [] {
      ListWorkBounds(list[..|list| - 1], id);
    }
  }

  lemma PendingPlace(list: seq<Task>, page: int, c: Cycle) returns (i: nat)
    requires PendingPage(list, page, c, false)
    ensures i < |list| && list[i].page == page && Pending(list[i], Some(c))
  {
    i :| 0 <= i < |list| && list[i].page == page && Pending(list[i], Some(c));
  }

  /** With unique pages an attempt changes one page. */
  lemma AttemptAt(m: Tasks, a: Attempt, c: Cycle, today: string) returns (i: nat)
    requires InBudget(m) && a.visit.section in m && !a.outcome.SaveFailed?
    requires PendingPage(m[a.visit.section], a.visit.page, c, false)
    ensures i < |m[a.visit.section]| && Pending(m[a.visit.section][i], Some(c))
    ensures AfterAttempt(m, a, c, today)
            == m[a.visit.section := m[a.visit.section][i := AfterTask(m[a.visit.section][i], a.outcome, c, today)]]
  {
    var list := m[a.visit.section];
    i := PendingPlace(list, a.visit.page, c);
    assert UniquePages(list);
    hide SettledTask;
    assert AfterTask(list[i], a.outcome, c, today) == SettledTask(list[i], c, !a.outcome.FetchFailed?, today);
    assert SettledList(list, a.visit.page, c, !a.outcome.FetchFailed?, today)
           == list[i := SettledTask(list[i], c, !a.outcome.FetchFailed?, today)];
  }

  /** Any attempt at a pending page, unless its save fails, leaves less work. */
  lemma AttemptUsesWork(m: Tasks, order: seq<string>, a: Attempt, c: Cycle, today: string)
    requires InBudget(m) && Orders(m, order) && a.visit.section in m && !a.outcome.SaveFailed? && TrimSpace(c.id) != ""
    requires PendingPage(m[a.visit.section], a.visit.page, c, false)
    ensures Work(AfterAttempt(m, a, c, today), order, c.id) < Work(m, order, c.id)
  {
    hide AfterAttempt, ListWork, Work;
    var i := AttemptAt(m, a, c, today);
    var list := m[a.visit.section];
    var t := AfterTask(list[i], a.outcome, c, today);
    assert UniquePages(list) && 0 <= list[i].failCount < BUDGET;
    ListWorkUpdate(list, i, t, c.id);
    WorkUpdate(m, order, a.visit.section, list[i := t], c.id);
  }

  lemma {:induction false} AttemptsUseWork(m: Tasks, order: seq<string>, attempts: seq<Attempt>, c: Cycle,
                                           today: string)
    requires InBudget(m) && Orders(m, order) && TrimSpace(c.id) != "" && DistinctVisits(attempts)
    requires forall k :: 0 <= k < |attempts| ==>
               attempts[k].visit.section in m && !attempts[k].outcome.SaveFailed?
               && PendingPage(m[attempts[k].visit.section], attempts[k].visit.page, c, false)
    ensures var after := AfterAll(m, attempts, c, today);
            InBudget(after) && SameShape(m, after) && Work(after, order, c.id) + |attempts| <= Work(m, order, c.id)
  {
    AfterAllShape(m, attempts, c, today);
    if attempts != [] {
      var n := |attempts| - 1;
      var p, last := attempts[..n], attempts[n];
      var before := AfterAll(m, p, c, today);
      AttemptsUseWork(m, order, p, c, today);
      var i := PendingPlace(m[last.visit.section], last.visit.page, c);
      AfterAllAt(m, p, c, today, last.visit.section, i);
      hide InBudget, SameShape, AfterAttempt, AfterTask, Work;
      assert before[last.visit.section][i] == m[last.visit.section][i];
      assert PendingPage(before[last.visit.section], last.visit.page, c, false);
      AttemptUsesWork(before, order, last, c, today);
      AttemptKeepsBudget(before, last, c, today);
    }
  }

  function PagesIn(m: Tasks, order: seq<string>): nat
    requires forall s :: s in order ==> s in m
  {
    if order == [] then 0 else PagesIn(m, order[..|order| - 1]) + |m[order[|order| - 1]]|
  }

  lemma {:induction false} WorkBounded(m: Tasks, order: seq<string>, id: string)
    requires InBudget(m) && forall s :: s in order ==> s in m
    ensures 0 <= Work(m, order, id) <= BUDGET * PagesIn(m, order)
  {
    if order != [] {
      WorkBounded(m, order[..|order| - 1], id);
      ListWorkBounds(m[order[|order| - 1]], id);
    }
  }

  lemma RunUsesWork(st: Store, r: RunInput, known: set<string>, order: seq<string>)
    requires CanRun(st, r) && Loaded(st.file).Some? && !Rotates(st.tasks, r.slots, st.file, true)
    requires InBudget(st.tasks) && Orders(st.tasks, order) && SavesSucceed(r)
    ensures var after := AfterRun(st, r, known).tasks;
            InBudget(after) && SameShape(st.tasks, after) && Orders(after, order)
            && Work(after, order, st.file.value.id) + |Made(st, r, known)| <= Work(st.tasks, order, st.file.value.id)
  {
    JoinedRun(st, r, known);
    BegunFacts(st, r);
    MadeFacts(st, r, known);
    AttemptsUseWork(st.tasks, order, Made(st, r, known), BegunBy(st, r).cycle, r.today);
  }

  lemma {:induction false} RunsUseWork(st: Store, runs: seq<RunInput>, known: set<string>, order: seq<string>)
    requires Joined(st, runs, known) && InBudget(st.tasks) && Orders(st.tasks, order)
    requires forall k :: 0 <= k < |runs| ==> SavesSucceed(runs[k])
    ensures var end := AfterRuns(st, runs, known);
            SameShape(st.tasks, end.tasks)
            && Work(end.tasks, order, st.file.value.id)
               + |AllMade(st, runs, known)| <= Work(st.tasks, order, st.file.value.id)
            && InBudget(end.tasks)
    decreases |runs|
  {
    if runs != [] {
      hide AfterRun, BegunBy, Made, CanRun, Rotates, InBudget, Work;
      assert SavesSucceed(runs[0]);
      RunUsesWork(st, runs[0], known, order);
      JoinedRun(st, runs[0], known);
      assert forall k :: 0 <= k < |runs[1..]| ==> runs[1..][k] == runs[k + 1];
      RunsUseWork(AfterRun(st, runs[0], known), runs[1..], known, order);
    }
  }

  /** Within one cycle all the runs together make at most three attempts a page. */
  lemma AttemptsAreBounded(st: Store, runs: seq<RunInput>, known: set<string>, order: seq<string>)
    requires Joined(st, runs, known) && InBudget(st.tasks) && Orders(st.tasks, order)
    requires forall k :: 0 <= k < |runs| ==> SavesSucceed(runs[k])
    ensures |AllMade(st, runs, known)| <= 3 * PagesIn(st.tasks, order)
  {
    RunsUseWork(st, runs, known, order);
    WorkBounded(st.tasks, order, st.file.value.id);
    WorkBounded(AfterRuns(st, runs, known).tasks, order, st.file.value.id);
  }
}
