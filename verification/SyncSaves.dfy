/** Pages interleaved with saves, removals, cache refreshes and client restarts. */
module SyncSaves {
  import opened Float64
  import opened FileTime
  import opened Text
  import opened SyncPaging
  import opened SyncCycle

  /** The server's index, bucket contents and cached order, the highest FileTime ever handed out,
      and the client's cursor with everything delivered so far. */
  datatype State = State(master: map<string, int>, store: map<string, Bucket>, ordered: seq<Entry>, clock: int,
                         cursor: int, delivered: set<Delivery>)

  datatype Event =
    | Save(key: string, fileTime: int, bucket: Bucket)
    | SaveEmpty(key: string)
    | RemoveKey(key: string)
    | Refresh(entries: seq<Entry>)
    | FetchPage(page: Page, take: nat)
    | Restart(cursor: int)

  /** What each event may do. A save is stamped at least 25 ticks above every earlier FileTime;
      a refresh sorts the index as it is; a page is computed from the cached order and the live
      buckets; a restart resumes from an older cursor. */
  ghost predicate Enabled(s: State, e: Event, disabled: set<string>) {
    match e
    case Save(k, ft, b) => Current(ft) && ft >= s.clock + SAFE_GAP && b != map[]
    case SaveEmpty(k) => true
    case RemoveKey(k) => true
    case Refresh(entries) => Ordered(entries) && Lists(entries, s.master)
    case FetchPage(p, take) =>
      s.cursor != 0 && IsPage(p, s.ordered, Due(s.ordered, s.cursor, s.store, disabled), take)
    case Restart(c) => c <= s.cursor
  }

  function Apply(s: State, e: Event): State {
    match e
    case Save(k, ft, b) => s.(master := s.master[k := ft], store := s.store[k := b], clock := ft)
    case SaveEmpty(k) => s.(master := s.master - {k}, store := s.store[k := map[]])
    case RemoveKey(k) => s.(master := s.master - {k})
    case Refresh(entries) => s.(ordered := entries)
    case FetchPage(p, _) =>
      if p.collections == [] then s
      else s.(cursor := CursorAfter(LastListed(p.collections).fileTime),
              delivered := s.delivered + set d | d in p.collections)
    case Restart(c) => s.(cursor := c)
  }

  ghost predicate Run(s: State, es: seq<Event>, t: State, disabled: set<string>)
    decreases |es|
  {
    if es == [] then s == t
    else Enabled(s, es[0], disabled) && Run(Apply(s, es[0]), es[1..], t, disabled)
  }

  // ---------------------------------------------------------------- the invariant

  ghost predicate Apart(m: map<string, int>) {
    forall j, k :: j in m && k in m && j != k && m[j] <= m[k] ==> m[j] + SAFE_GAP <= m[k]
  }

  ghost predicate ApartList(s: seq<Entry>) {
    forall i, j :: 0 <= i < j < |s| ==> s[i].fileTime + SAFE_GAP <= s[j].fileTime
  }

  /** Every key is listed at its FileTime, or was saved after everything that is listed. */
  ghost predicate CacheLags(s: State) {
    forall k :: k in s.master && Entry(k, s.master[k]) !in s.ordered ==>
                  forall e :: e in s.ordered ==> e.fileTime + SAFE_GAP <= s.master[k]
  }

  ghost predicate IndexInv(s: State) {
    && (forall k :: k in s.master ==> Current(s.master[k]) && s.master[k] <= s.clock)
    && (forall e :: e in s.ordered ==> Current(e.fileTime) && e.fileTime <= s.clock)
    && Ordered(s.ordered) && Apart(s.master) && ApartList(s.ordered) && CacheLags(s)
    && s.cursor <= s.clock + 24
  }

  /** No bucket is lost: each one that shows anything is above the cursor, or has been delivered
      at its present FileTime with its present contents. */
  ghost predicate NothingLost(s: State, disabled: set<string>) {
    forall k :: k in s.master && |Shown(s.store, disabled, k)| > 0 && s.master[k] <= s.cursor ==>
                  Delivery(k, s.master[k], Shown(s.store, disabled, k)) in s.delivered
  }

  lemma RefreshKeepsInv(s: State, entries: seq<Entry>)
    requires IndexInv(s) && Ordered(entries) && Lists(entries, s.master)
    ensures IndexInv(s.(ordered := entries))
  {
    forall e | e in entries ensures e.key in s.master && s.master[e.key] == e.fileTime {
      assert Entry(e.key, e.fileTime) == e;
    }
    forall i, j | 0 <= i < j < |entries| ensures entries[i].fileTime + SAFE_GAP <= entries[j].fileTime {
      assert entries[i] in entries && entries[j] in entries && Before(entries[i], entries[j]);
      BeforeTotal(entries[i], entries[i]);
      assert entries[i].key != entries[j].key;
    }
  }

  lemma SaveKeepsInv(s: State, k: string, ft: int, b: Bucket)
    requires IndexInv(s) && Current(ft) && ft >= s.clock + SAFE_GAP
    ensures IndexInv(Apply(s, Save(k, ft, b)))
  {
  }

  /** The bucket k, if the page's new cursor passes it, is on the page. */
  lemma PassedMeansDelivered(s: State, p: Page, take: nat, disabled: set<string>, k: string)
    requires IndexInv(s) && Enabled(s, FetchPage(p, take), disabled) && p.collections != []
    requires k in s.master && |Shown(s.store, disabled, k)| > 0
    requires s.cursor < s.master[k] <= CursorAfter(LastListed(p.collections).fileTime)
    ensures Delivery(k, s.master[k], Shown(s.store, disabled, k)) in p.collections
  {
    var due := Due(s.ordered, s.cursor, s.store, disabled);
    var n := PageLength(due, take);
    var last := LastListed(p.collections);
    LastListedIn(s.ordered, s.cursor, s.store, disabled, n - 1);
    CursorOffset(last.fileTime);
    var d := Delivery(k, s.master[k], Shown(s.store, disabled, k));
    assert Entry(k, s.master[k]) in s.ordered;
    DueMember(s.ordered, s.cursor, s.store, disabled, d);
    DueApart(s.ordered, s.cursor, s.store, disabled);
    assert last == Entry(due[n - 1].key, due[n - 1].fileTime);
    var i :| 0 <= i < |due| && due[i] == d;
  }

  ghost predicate ApartDue(due: seq<Delivery>) {
    forall i, j :: 0 <= i < j < |due| ==> due[i].fileTime + SAFE_GAP <= due[j].fileTime
  }

  ghost predicate ApartFrom(ft: int, due: seq<Delivery>) {
    forall j :: 0 <= j < |due| ==> ft + SAFE_GAP <= due[j].fileTime
  }

  lemma {:induction false} DueApart(s: seq<Entry>, ft: int, store: map<string, Bucket>, disabled: set<string>)
    requires ApartList(s)
    ensures ApartDue(Due(s, ft, store, disabled))
  {
    if s != [] {
      DueApart(s[1..], ft, store, disabled);
      FirstApart(s, ft, store, disabled);
      ConsApart(Delivery(s[0].key, s[0].fileTime, Shown(store, disabled, s[0].key)), Due(s[1..], ft, store, disabled));
      hide ApartList, ApartDue, ApartFrom, Shown;
    }
  }

  lemma ConsApart(d: Delivery, rest: seq<Delivery>)
    requires ApartFrom(d.fileTime, rest) && ApartDue(rest)
    ensures ApartDue([d] + rest)
  {
    var due := [d] + rest;
    forall i, j | 0 <= i < j < |due| ensures due[i].fileTime + SAFE_GAP <= due[j].fileTime {
      assert due[j] == rest[j - 1];
      if i > 0 { assert due[i] == rest[i - 1]; }
    }
  }

  lemma FirstApart(s: seq<Entry>, ft: int, store: map<string, Bucket>, disabled: set<string>)
    requires ApartList(s) && s != []
    ensures ApartFrom(s[0].fileTime, Due(s[1..], ft, store, disabled))
  {
    var rest := Due(s[1..], ft, store, disabled);
    forall j | 0 <= j < |rest| ensures s[0].fileTime + SAFE_GAP <= rest[j].fileTime {
      DueMember(s[1..], ft, store, disabled, rest[j]);
      var k :| 0 <= k < |s[1..]| && s[1..][k] == Entry(rest[j].key, rest[j].fileTime);
      assert s[1..][k] == s[k + 1];
    }
  }

  lemma PageKeepsInv(s: State, p: Page, take: nat, disabled: set<string>)
    requires IndexInv(s) && NothingLost(s, disabled) && Enabled(s, FetchPage(p, take), disabled)
    ensures var t := Apply(s, FetchPage(p, take)); IndexInv(t) && NothingLost(t, disabled)
  {
    if p.collections != [] {
      var t := Apply(s, FetchPage(p, take));
      LastListedIn(s.ordered, s.cursor, s.store, disabled, |p.collections| - 1);
      CursorOffset(LastListed(p.collections).fileTime);
      forall k | k in t.master && |Shown(t.store, disabled, k)| > 0 && t.master[k] <= t.cursor
        ensures Delivery(k, t.master[k], Shown(t.store, disabled, k)) in t.delivered
      {
        if s.cursor < s.master[k] {
          PassedMeansDelivered(s, p, take, disabled, k);
        }
      }
    }
  }

  lemma StepKeepsInv(s: State, e: Event, disabled: set<string>)
    requires IndexInv(s) && NothingLost(s, disabled) && Enabled(s, e, disabled)
    ensures IndexInv(Apply(s, e)) && NothingLost(Apply(s, e), disabled)
  {
    match e
    case Save(k, ft, b) => SaveKeepsInv(s, k, ft, b);
    case SaveEmpty(k) =>
    case RemoveKey(k) =>
    case Refresh(entries) => RefreshKeepsInv(s, entries);
    case FetchPage(p, take) => PageKeepsInv(s, p, take, disabled);
    case Restart(c) =>
  }

  /** Paging misses nothing, over every interleaving of pages with saves, removals, refreshes of
      the cached order and restarts of the client. */
  lemma {:induction false} PagingMissesNothing(s: State, es: seq<Event>, t: State, disabled: set<string>)
    requires IndexInv(s) && NothingLost(s, disabled) && Run(s, es, t, disabled)
    ensures IndexInv(t) && NothingLost(t, disabled)
    decreases |es|
  {
    if es != [] {
      StepKeepsInv(s, es[0], disabled);
      PagingMissesNothing(Apply(s, es[0]), es[1..], t, disabled);
    }
  }

  /** Each page that asks for another one raises the cursor. */
  lemma NextReadRaisesCursor(s: State, p: Page, take: nat, disabled: set<string>)
    requires IndexInv(s) && Enabled(s, FetchPage(p, take), disabled) && p.nextread
    ensures p.collections != [] && Apply(s, FetchPage(p, take)).cursor > s.cursor
  {
    NextReadMeansMore(p, s.ordered, s.cursor, s.store, disabled, take);
    LastListedIn(s.ordered, s.cursor, s.store, disabled, |p.collections| - 1);
    CursorOffset(LastListed(p.collections).fileTime);
  }

  /** Over a fixed index with FileTimes at least 25 ticks apart the client receives every bucket that is
      due, with what it shows, exactly once and in the order of the index. */
  lemma CycleDeliversEachOnce(s: seq<Entry>, ft: int, store: map<string, Bucket>, disabled: set<string>, take: nat)
    requires Ordered(s) && AllCurrent(s) && ApartList(s)
    ensures var got := Received(Due(s, ft, store, disabled), take);
            (forall d :: d in got <==> Entry(d.key, d.fileTime) in s && d.fileTime > ft
                                       && d.torrents == Shown(store, disabled, d.key) && |d.torrents| > 0)
            && forall i, j :: 0 <= i < j < |got| ==> got[i].fileTime < got[j].fileTime
    ensures forall e: Entry :: (exists d ::
              d in Received(Due(s, ft, store, disabled), take) && d.key == e.key
              && d.fileTime == e.fileTime)
                        <==> e in s && e.fileTime > ft && e.key in store
                             && exists u :: u in store[e.key] && store[e.key][u].Record?
                                            && store[e.key][u].tracker !in disabled
  {
    var due := Due(s, ft, store, disabled);
    DueApart(s, ft, store, disabled);
    forall i | 0 <= i < |due| ensures Current(due[i].fileTime) {
      LastListedIn(s, ft, store, disabled, i);
    }
    SpacedIsComplete(due, take);
    forall d ensures d in due <==> Entry(d.key, d.fileTime) in s && d.fileTime > ft
                                   && d.torrents == Shown(store, disabled, d.key) && |d.torrents| > 0 {
      DueMember(s, ft, store, disabled, d);
    }
    forall e: Entry
      ensures (exists d :: d in Received(due, take) && d.key == e.key && d.fileTime == e.fileTime)
              <==> e in s && e.fileTime > ft && e.key in store
                   && exists u :: u in store[e.key] && store[e.key][u].Record? && store[e.key][u].tracker !in disabled
    {
      CompleteCycleCarries(s, ft, store, disabled, take, e);
    }
  }
}
