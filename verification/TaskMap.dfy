/** A parser's map of pages to sweep: how it is rebuilt from a pager (cron/anibelka/anibelka.go),
    pruned (core/taskpages.go) and flattened into slots (core/parseallcycle.go). */
module TaskMap {
  import opened Text

  /** One page of a section with its stamps. */
  datatype Task = Task(page: int, updateTime: string, cycleId: string, failCount: int)

  type Tasks = map<string, seq<Task>>

  function NewTask(page: int): Task { Task(page, "", "", 0) }

  // ---------------------------------------------------------------- pruning

  function UpTo(tasks: seq<Task>, maxPage: int): seq<Task> {
    if tasks == [] then []
    else UpTo(tasks[..|tasks| - 1], maxPage)
         + if tasks[|tasks| - 1].page <= maxPage then [tasks[|tasks| - 1]] else []
  }

  /** A pager that was not read prunes nothing. */
  method PruneTaskPages(tasks: seq<Task>, maxPage: int) returns (kept: seq<Task>, pruned: nat)
    ensures kept == if maxPage <= 0 then tasks else UpTo(tasks, maxPage)
    ensures pruned == |tasks| - |kept|
  {
    if maxPage <= 0 || |tasks| == 0 {
      return tasks, 0;
    }
    kept := [];
    for i := 0 to |tasks|
      invariant kept == UpTo(tasks[..i], maxPage) && |kept| <= i
    {
      assert tasks[..i + 1][..i] == tasks[..i];
      if tasks[i].page <= maxPage {
        kept := kept + [tasks[i]];
      }
    }
    assert tasks[..|tasks|] == tasks;
    pruned := |tasks| - |kept|;
  }

  method PruneTaskPagesIfRead(tasks: seq<Task>, maxPage: int, pageIsAListing: bool)
                              returns (kept: seq<Task>, pruned: nat)
    ensures kept == if !pageIsAListing || maxPage < 1 then tasks else UpTo(tasks, maxPage)
    ensures pruned == |tasks| - |kept|
  {
    if !pageIsAListing || maxPage < 1 {
      return tasks, 0;
    }
    kept, pruned := PruneTaskPages(tasks, maxPage);
  }

  lemma {:induction false} UpToContents(tasks: seq<Task>, maxPage: int, t: Task)
    ensures t in UpTo(tasks, maxPage) <==> t in tasks && t.page <= maxPage
  {
    if tasks != [] {
      var n := |tasks| - 1;
      UpToContents(tasks[..n], maxPage, t);
      assert tasks == tasks[..n] + [tasks[n]];
    }
  }

  /** The order is kept, and nothing comes twice that did not before. */
  lemma {:induction false} UpToInOrder(a: seq<Task>, b: seq<Task>, maxPage: int)
    ensures UpTo(a + b, maxPage) == UpTo(a, maxPage) + UpTo(b, maxPage)
  {
    if b == [] {
      assert a + b == a;
    } else {
      var n := |b| - 1;
      assert (a + b)[..|a + b| - 1] == a + b[..n];
      UpToInOrder(a, b[..n], maxPage);
    }
  }

  ghost predicate Rising(s: seq<Task>) { forall i, j :: 0 <= i < j < |s| ==> s[i].page < s[j].page }

  lemma {:induction false} UpToRising(tasks: seq<Task>, maxPage: int)
    requires Rising(tasks)
    ensures Rising(UpTo(tasks, maxPage))
  {
    if tasks != [] {
      var n := |tasks| - 1;
      UpToRising(tasks[..n], maxPage);
      forall i | 0 <= i < |UpTo(tasks[..n], maxPage)| ensures UpTo(tasks[..n], maxPage)[i].page < tasks[n].page {
        UpToContents(tasks[..n], maxPage, UpTo(tasks[..n], maxPage)[i]);
      }
    }
  }

  // ---------------------------------------------------------------- rebuilding a section

  /** The last of the tasks with a page, the one a map keyed by page ends up with. */
  function LastWith(tasks: seq<Task>, page: int): (i: nat)
    ensures i <= |tasks| && (i > 0 ==> tasks[i - 1].page == page && tasks[i - 1] in tasks)
    ensures i == 0 ==> forall t :: t in tasks ==> t.page != page
  {
    if tasks == [] then 0
    else if tasks[|tasks| - 1].page == page then |tasks|
    else LastWith(tasks[..|tasks| - 1], page)
  }

  predicate HasPage(tasks: seq<Task>, page: int) { LastWith(tasks, page) > 0 }

  /** The stamps a page keeps: those it had, or none. */
  function Stamped(tasks: seq<Task>, page: int): Task {
    if HasPage(tasks, page) then tasks[LastWith(tasks, page) - 1] else NewTask(page)
  }

  predicate Listed(existing: seq<Task>, maxPage: int, page: int) {
    && (HasPage(existing, page) || 0 <= page <= maxPage)
    && (maxPage > 0 ==> page <= maxPage)
  }

  /** What the rebuilt list of a section is: in strictly rising order the pages it had and the
      pages of the pager, without those past the pager's end, each with the stamps it had. */
  ghost predicate Rebuilt(existing: seq<Task>, maxPage: int, r: seq<Task>) {
    && Rising(r)
    && (forall t :: t in r <==> Listed(existing, maxPage, t.page) && t == Stamped(existing, t.page))
  }

  function InsertByPage(s: seq<Task>, t: Task): seq<Task> {
    if s == [] || t.page < s[0].page then [t] + s else [s[0]] + InsertByPage(s[1..], t)
  }

  lemma {:induction false} InsertByPageRising(s: seq<Task>, t: Task)
    requires Rising(s) && forall x :: x in s ==> x.page != t.page
    ensures Rising(InsertByPage(s, t)) && forall x :: x in InsertByPage(s, t) <==> x == t || x in s
  {
    if s == [] || t.page < s[0].page {
    } else {
      assert s == [s[0]] + s[1..];
      InsertByPageRising(s[1..], t);
      var r := InsertByPage(s[1..], t);
      forall j | 0 <= j < |r| ensures s[0].page < r[j].page {
        assert r[j] in r;
      }
    }
  }

  lemma StampedStep(existing: seq<Task>, i: nat, pg: int)
    requires i < |existing|
    ensures HasPage(existing[..i + 1], pg) <==> existing[i].page == pg || HasPage(existing[..i], pg)
    ensures Stamped(existing[..i + 1], pg) == if existing[i].page == pg then existing[i] else Stamped(existing[..i], pg)
  {
    assert existing[..i + 1][..i] == existing[..i];
  }

  /** The pages are mapped to the stamps they have, or to none. */
  ghost predicate MapsPages(pages: map<int, Task>, existing: seq<Task>, below: int) {
    && (forall pg :: pg in pages <==> HasPage(existing, pg) || 0 <= pg < below)
    && (forall pg :: pg in pages ==> pages[pg] == Stamped(existing, pg))
  }

  lemma MapsPagesStep(pages: map<int, Task>, existing: seq<Task>, i: nat)
    requires i < |existing| && MapsPages(pages, existing[..i], 0)
    ensures MapsPages(pages[existing[i].page := existing[i]], existing[..i + 1], 0)
  {
    hide HasPage, Stamped;
    var after := pages[existing[i].page := existing[i]];
    forall pg: int
      ensures pg in after <==> HasPage(existing[..i + 1], pg)
      ensures pg in after ==> after[pg] == Stamped(existing[..i + 1], pg)
    {
      StampedStep(existing, i, pg);
    }
  }

  /** The map by page that the rebuild works on: existing tasks first, then the missing pages. */
  method PagesOf(existing: seq<Task>, maxPage: int) returns (pages: map<int, Task>)
    ensures MapsPages(pages, existing, maxPage + 1)
  {
    pages := map[];
    for i := 0 to |existing|
      invariant MapsPages(pages, existing[..i], 0)
    {
      MapsPagesStep(pages, existing, i);
      pages := pages[existing[i].page := existing[i]];
    }
    assert existing[..|existing|] == existing;
    var pg := 0;
    while pg <= maxPage
      invariant 0 <= pg && MapsPages(pages, existing, pg)
      invariant pg <= maxPage + 1 || pg == 0
    {
      hide LastWith;
      if pg !in pages {
        pages := pages[pg := NewTask(pg)];
      }
      pg := pg + 1;
    }
  }

  lemma StampedPage(existing: seq<Task>, pg: int)
    ensures Stamped(existing, pg).page == pg
  {
  }

  lemma NonEmpty(s: set<int>)
    ensures s != {} ==> exists x :: x in s
  {
    if forall x :: x !in s {
      assert s == {};
    }
  }

  method SortByPage(pages: map<int, Task>) returns (merged: seq<Task>)
    requires forall pg :: pg in pages ==> pages[pg].page == pg
    ensures Rising(merged) && forall t :: t in merged <==> t.page in pages && t == pages[t.page]
  {
    merged := [];
    var left := pages.Keys;
    while left != {}
      invariant left <= pages.Keys && Rising(merged)
      invariant forall t :: t in merged <==> t.page in pages && t.page !in left && t == pages[t.page]
      decreases left
    {
      NonEmpty(left);
      var pg :| pg in left;
      InsertByPageRising(merged, pages[pg]);
      merged := InsertByPage(merged, pages[pg]);
      left := left - {pg};
    }
  }

  method RebuildSection(existing: seq<Task>, maxPage: int) returns (r: seq<Task>)
    ensures Rebuilt(existing, maxPage, r)
  {
    hide LastWith;
    var pages := PagesOf(existing, maxPage);
    forall pg | pg in pages ensures pages[pg].page == pg { StampedPage(existing, pg); }
    var merged := SortByPage(pages);
    ghost var pruned;
    r, pruned := PruneTaskPages(merged, maxPage);
    if maxPage > 0 {
      UpToRising(merged, maxPage);
      forall t ensures t in r <==> t in merged && t.page <= maxPage {
        UpToContents(merged, maxPage, t);
      }
    }
  }

  lemma {:induction false} LastWithIsLast(tasks: seq<Task>, page: int)
    ensures forall k :: LastWith(tasks, page) <= k < |tasks| ==> tasks[k].page != page
  {
    if tasks != [] && tasks[|tasks| - 1].page != page {
      LastWithIsLast(tasks[..|tasks| - 1], page);
    }
  }

  /** What is on a rebuilt list: a page that was there before, as the last task that had it, or one of
      the pager without stamps; and none past the end of a pager that was read. */
  lemma RebuiltMeans(existing: seq<Task>, maxPage: int, r: seq<Task>, t: Task)
    requires Rebuilt(existing, maxPage, r)
    ensures t in r <==>
            && (maxPage > 0 ==> t.page <= maxPage)
            && if exists e :: e in existing && e.page == t.page
               then exists k :: 0 <= k < |existing| && existing[k] == t
                                && forall j :: k < j < |existing| ==> existing[j].page != t.page
               else 0 <= t.page <= maxPage && t == Task(t.page, "", "", 0)
  {
    LastWithIsLast(existing, t.page);
    var k := LastWith(existing, t.page) - 1;
    hide LastWith, Rising;
    if k >= 0 {
      assert existing[k] in existing && existing[k].page == t.page;
      forall j | 0 <= j < |existing| && existing[j] == t
          && forall i :: j < i < |existing| ==> existing[i].page != t.page
        ensures j == k
      {
      }
    }
  }

  /** With a pager that was read and non-negative pages, the list is exactly the pages from 0 to
      the last one, and every page that was there keeps its stamps. */
  lemma RebuiltIsWholeRange(existing: seq<Task>, maxPage: int, r: seq<Task>)
    requires Rebuilt(existing, maxPage, r) && maxPage > 0 && forall t :: t in existing ==> t.page >= 0
    ensures |r| == maxPage + 1 && forall i :: 0 <= i <= maxPage ==> r[i] == Stamped(existing, i)
  {
    forall i | 0 <= i < |r| ensures 0 <= r[i].page <= maxPage {
      assert r[i] in r;
    }
    forall pg | 0 <= pg <= maxPage ensures OnList(r, pg) {
      StampedPage(existing, pg);
      assert Listed(existing, maxPage, pg);
      assert Stamped(existing, pg) in r;
    }
    PigeonRange(r, maxPage);
    forall i | 0 <= i <= maxPage ensures r[i] == Stamped(existing, i) {
      assert r[i] in r;
    }
  }

  ghost predicate OnList(r: seq<Task>, page: int) { exists t :: t in r && t.page == page }

  /** A strictly rising list with all of 0..max and nothing else has page i at index i. */
  lemma {:induction false} PigeonRange(r: seq<Task>, max: int)
    requires max >= -1 && Rising(r) && forall i :: 0 <= i < |r| ==> 0 <= r[i].page <= max
    requires forall pg :: 0 <= pg <= max ==> OnList(r, pg)
    ensures |r| == max + 1 && forall i :: 0 <= i < |r| ==> r[i].page == i
    decreases max + 1
  {
    assert r != [] ==> 0 <= r[0].page <= max;
    if max >= 0 {
      assert OnList(r, max);
      var t :| t in r && t.page == max;
      var k :| 0 <= k < |r| && r[k] == t;
      assert 0 <= r[|r| - 1].page <= max;
      assert k == |r| - 1;
      forall pg | 0 <= pg <= max - 1 ensures OnList(r[..k], pg) {
        assert OnList(r, pg);
        var u :| u in r && u.page == pg;
        var j :| 0 <= j < |r| && r[j] == u;
        assert r[..k][j] == u;
      }
      PigeonRange(r[..k], max - 1);
    }
  }

  /** With a pager that was not read no page is lost. */
  lemma RebuiltLosesNothing(existing: seq<Task>, r: seq<Task>, t: Task)
    requires Rebuilt(existing, 0, r) && t in existing
    ensures Stamped(existing, t.page) in r && Stamped(existing, t.page).page == t.page
  {
    StampedPage(existing, t.page);
    assert Listed(existing, 0, t.page);
  }

  lemma RebuiltUnique(existing: seq<Task>, maxPage: int, r: seq<Task>, q: seq<Task>)
    requires Rebuilt(existing, maxPage, r) && Rebuilt(existing, maxPage, q)
    ensures r == q
  {
    RisingUnique(r, q);
  }

  lemma RisingTail(r: seq<Task>)
    requires Rising(r) && r != []
    ensures Rising(r[1..]) && forall t :: t in r[1..] <==> t in r && t != r[0]
  {
    assert r == [r[0]] + r[1..];
  }

  lemma {:induction false} RisingUnique(r: seq<Task>, q: seq<Task>)
    requires Rising(r) && Rising(q) && forall t :: t in r <==> t in q
    ensures r == q
  {
    var all := set t | t in r;
    assert all == set t | t in q;
    assert (r != [] ==> r[0] in all) && (q != [] ==> q[0] in all);
    if r != [] {
      assert r[0] in q && q[0] in r;
      assert r[0] == q[0];
      RisingTail(r);
      RisingTail(q);
      RisingUnique(r[1..], q[1..]);
      assert r == [r[0]] + r[1..] && q == [q[0]] + q[1..];
    }
  }

  // ---------------------------------------------------------------- slots

  /** The place of one task in the map. */
  datatype Slot = Slot(section: string, index: nat)

  predicate InMap(m: Tasks, s: Slot) { s.section in m && s.index < |m[s.section]| }

  function TaskAt(m: Tasks, s: Slot): Task
    requires InMap(m, s)
  {
    m[s.section][s.index]
  }

  /** Section by section, and within one by page; equal pages keep their order. */
  ghost predicate SlotBefore(m: Tasks, a: Slot, b: Slot)
    requires InMap(m, a) && InMap(m, b)
  {
    Less(a.section, b.section)
    || (a.section == b.section
        && (TaskAt(m, a).page < TaskAt(m, b).page
            || (TaskAt(m, a).page == TaskAt(m, b).page && a.index < b.index)))
  }

  /** Every place of the map once, in order. */
  ghost predicate IsSlotList(m: Tasks, slots: seq<Slot>) {
    && (forall s :: s in slots <==> InMap(m, s))
    && (forall i, j :: 0 <= i < j < |slots| ==> SlotBefore(m, slots[i], slots[j]))
  }

  ghost predicate IndexBefore(list: seq<Task>, i: nat, j: nat)
    requires i < |list| && j < |list|
  {
    list[i].page < list[j].page || (list[i].page == list[j].page && i < j)
  }

  ghost predicate Within(order: seq<nat>, n: nat) { forall a :: 0 <= a < |order| ==> order[a] < n }

  ghost predicate PageSorted(list: seq<Task>, order: seq<nat>)
    requires Within(order, |list|)
  {
    forall a, b :: 0 <= a < b < |order| ==> IndexBefore(list, order[a], order[b])
  }

  /** order lists the indices of list, by page, equal pages in their own order. */
  ghost predicate IsPageOrder(list: seq<Task>, order: seq<nat>) {
    Within(order, |list|) && PageSorted(list, order) && forall i: nat :: i in order <==> i < |list|
  }

  function InsertIndex(list: seq<Task>, order: seq<nat>, i: nat): seq<nat>
    requires i < |list| && Within(order, |list|)
  {
    if order == [] || list[i].page < list[order[0]].page then [i] + order
    else [order[0]] + InsertIndex(list, order[1..], i)
  }

  lemma {:induction false} InsertIndexSorted(list: seq<Task>, order: seq<nat>, i: nat)
    requires i < |list| && Within(order, i) && PageSorted(list, order)
    ensures var r := InsertIndex(list, order, i);
            Within(r, i + 1) && PageSorted(list, r) && forall k: nat :: k in r <==> k == i || k in order
  {
    if order == [] {
    } else if list[i].page < list[order[0]].page {
      assert forall b :: 0 < b < |order| ==> IndexBefore(list, order[0], order[b]);
    } else {
      var rest := order[1..];
      assert order == [order[0]] + rest;
      assert forall a :: 0 <= a < |rest| ==> rest[a] == order[a + 1];
      InsertIndexSorted(list, rest, i);
      var r := InsertIndex(list, rest, i);
      forall b | 0 <= b < |r| ensures IndexBefore(list, order[0], r[b]) {
        assert r[b] in r;
        if r[b] != i {
          var c :| 0 <= c < |rest| && rest[c] == r[b];
          assert IndexBefore(list, order[0], order[c + 1]);
        }
      }
    }
  }

  method StablePageOrder(list: seq<Task>) returns (order: seq<nat>)
    ensures IsPageOrder(list, order)
  {
    order := [];
    for i := 0 to |list|
      invariant Within(order, i) && PageSorted(list, order) && forall k: nat :: k in order <==> k < i
    {
      InsertIndexSorted(list, order, i);
      order := InsertIndex(list, order, i);
    }
  }

  method SortedSections(m: Tasks) returns (cats: seq<string>)
    ensures Sorted(cats) && NoDuplicates(cats) && forall k :: k in cats <==> k in m
  {
    var keys: seq<string> := [];
    var left := m.Keys;
    while left != {}
      invariant left <= m.Keys && NoDuplicates(keys) && forall k :: k in keys <==> k in m && k !in left
      decreases left
    {
      var k :| k in left;
      keys := keys + [k];
      left := left - {k};
    }
    cats := Sort(keys);
    SortSorts(keys);
    SameMembers(keys, cats);
    SameMultisetNoDuplicates(keys, cats);
  }

  method CycleSlotsFromMap(m: Tasks) returns (slots: seq<Slot>)
    ensures IsSlotList(m, slots)
  {
    var cats := SortedSections(m);
    slots := [];
    for c := 0 to |cats|
      invariant forall s :: s in slots <==> InMap(m, s) && s.section in cats[..c]
      invariant forall i, j :: 0 <= i < j < |slots| ==> SlotBefore(m, slots[i], slots[j])
    {
      assert cats[c] in cats;
      var order := StablePageOrder(m[cats[c]]);
      ghost var before := slots;
      for k := 0 to |order|
        invariant forall s :: s in slots <==> s in before || (s.section == cats[c] && s.index in order[..k])
        invariant forall s :: s in slots ==> InMap(m, s)
        invariant forall i, j :: 0 <= i < j < |slots| ==> SlotBefore(m, slots[i], slots[j])
      {
        assert order[k] in order;
        var s := Slot(cats[c], order[k]);
        forall t | t in slots ensures SlotBefore(m, t, s) {
          EarlierSlot(m, cats, c, order, k, t);
        }
        assert order[..k + 1] == order[..k] + [order[k]];
        slots := slots + [s];
      }
      assert order[..|order|] == order;
      assert cats[..c + 1] == cats[..c] + [cats[c]];
    }
    assert cats[..|cats|] == cats;
  }

  lemma EarlierSlot(m: Tasks, cats: seq<string>, c: nat, order: seq<nat>, k: nat, t: Slot)
    requires Sorted(cats) && NoDuplicates(cats) && c < |cats| && (forall x :: x in cats <==> x in m)
    requires IsPageOrder(m[cats[c]], order) && k < |order| && order[k] in order
    requires InMap(m, t) && (t.section in cats[..c] || (t.section == cats[c] && t.index in order[..k]))
    ensures SlotBefore(m, t, Slot(cats[c], order[k]))
  {
    if t.section in cats[..c] {
      var i :| 0 <= i < c && cats[i] == t.section;
      assert AtMost(cats[i], cats[c]);
    } else {
      var i :| 0 <= i < k && order[i] == t.index;
      assert IndexBefore(m[cats[c]], order[i], order[k]);
    }
  }
}
