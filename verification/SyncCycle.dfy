/** The client loop over the paged feed, and the guarantee that survives saves made between
    pages: no bucket slips below the cursor without having been delivered. */
module SyncCycle {
  import opened Float64
  import opened FileTime
  import opened Options
  import opened Text
  import opened SyncPaging

  ghost predicate AllCurrent(s: seq<Entry>) { forall e :: e in s ==> Current(e.fileTime) }

  lemma CursorOffset(ft: int)
    requires Current(ft)
    ensures ft + 8 <= CursorAfter(ft) <= ft + 24 && CursorAfter(ft) <= CSHARP_THRESHOLD
  {
    SyncOffset(ft);
  }

  lemma {:induction false} LastListedIn(s: seq<Entry>, ft: int, store: map<string, Bucket>, disabled: set<string>,
                                        i: nat)
    requires i < |Due(s, ft, store, disabled)|
    ensures var d := Due(s, ft, store, disabled)[i]; Entry(d.key, d.fileTime) in s && d.fileTime > ft
  {
    DueMember(s, ft, store, disabled, Due(s, ft, store, disabled)[i]);
  }

  /** Every page that asks for another one has delivered something, and a page that does not has
      delivered everything that was due. */
  lemma NextReadMeansMore(p: Page, s: seq<Entry>, ft: int, store: map<string, Bucket>, disabled: set<string>, take: nat)
    requires Ordered(s) && IsPage(p, s, Due(s, ft, store, disabled), take)
    ensures p.nextread ==> p.collections != []
    ensures !p.nextread ==> p.collections == Due(s, ft, store, disabled)
  {
    var due := Due(s, ft, store, disabled);
    var n := PageLength(due, take);
    PageIsFull(due, take, 0);
    if n < |due| {
      DueOrdered(s, ft, store, disabled);
      LastListedIn(s, ft, store, disabled, n);
      assert Before(LastListed(p.collections), Entry(due[n].key, due[n].fileTime));
    }
  }

  /** After a page the cursor is above everything the page delivered, so the deliveries still due
      are fewer and the cycle goes on as Received says. */
  lemma PageTurn(p: Page, s: seq<Entry>, ft: int, store: map<string, Bucket>, disabled: set<string>, take: nat)
    requires Ordered(s) && AllCurrent(s) && p.collections != []
    requires IsPage(p, s, Due(s, ft, store, disabled), take)
    ensures var due := Due(s, ft, store, disabled);
            var c := CursorAfter(LastListed(p.collections).fileTime);
            && c > ft
            && |Due(s, c, store, disabled)| < |due|
            && Received(due, take) == p.collections + Received(Due(s, c, store, disabled), take)
            && (p.collections == due ==> Due(s, c, store, disabled) == [])
  {
    var due := Due(s, ft, store, disabled);
    var n := PageLength(due, take);
    var last := LastListed(p.collections);
    var c := CursorAfter(last.fileTime);
    LastListedIn(s, ft, store, disabled, n - 1);
    CursorOffset(last.fileTime);
    DueAbove(s, ft, c, store, disabled);
    DeliveredBelow(s, ft, store, disabled, n, c);
    hide Due, CursorAfter, Ordered, AllCurrent;
    AboveCursorDrops(due, n, c);
    AboveCursorShorter(due[n..], c);
    assert n == |due| ==> due[n..] == [];
  }

  lemma DeliveredBelow(s: seq<Entry>, ft: int, store: map<string, Bucket>, disabled: set<string>, n: nat, c: int)
    requires Ordered(s) && 0 < n <= |Due(s, ft, store, disabled)| && Due(s, ft, store, disabled)[n - 1].fileTime <= c
    ensures forall i :: 0 <= i < n ==> Due(s, ft, store, disabled)[i].fileTime <= c
  {
    var due := Due(s, ft, store, disabled);
    DueOrdered(s, ft, store, disabled);
    hide Due;
    forall i | 0 <= i < n ensures due[i].fileTime <= c {
      if i < n - 1 { assert Before(Entry(due[i].key, due[i].fileTime), Entry(due[n - 1].key, due[n - 1].fileTime)); }
    }
  }

  /** How far a cycle that began at cursor `start` has come: `got` is a part of what the whole
      cycle receives, and the rest is what a cycle from the present cursor receives. */
  ghost predicate Progress(s: seq<Entry>, store: map<string, Bucket>, disabled: set<string>,
                           start: int, cursor: int, got: seq<Delivery>)
  {
    && cursor <= CSHARP_THRESHOLD && cursor != 0 && start <= cursor
    && got + Received(Due(s, cursor, store, disabled), DEFAULT_TAKE)
       == Received(Due(s, start, store, disabled), DEFAULT_TAKE)
    && (got == [] ==> cursor == start)
    && (got != [] ==> cursor == CursorAfter(LastListed(got).fileTime) > start)
  }

  lemma ProgressCursor(s: seq<Entry>, store: map<string, Bucket>, disabled: set<string>, start: int, cursor: int,
                       got: seq<Delivery>)
    requires Progress(s, store, disabled, start, cursor, got)
    ensures NormalizeFileTime(cursor) == cursor != 0
  {
  }

  lemma ProgressStep(p: Page, s: seq<Entry>, store: map<string, Bucket>, disabled: set<string>,
                     start: int, cursor: int, got: seq<Delivery>)
    requires Ordered(s) && AllCurrent(s) && p.collections != []
    requires IsPage(p, s, Due(s, cursor, store, disabled), DEFAULT_TAKE)
    requires Progress(s, store, disabled, start, cursor, got)
    ensures var c := CursorAfter(LastListed(p.collections).fileTime);
            && Progress(s, store, disabled, start, c, got + p.collections)
            && |Due(s, c, store, disabled)| < |Due(s, cursor, store, disabled)|
            && (!p.nextread ==> Due(s, c, store, disabled) == [])
  {
    PageTurn(p, s, cursor, store, disabled, DEFAULT_TAKE);
    NextReadMeansMore(p, s, cursor, store, disabled, DEFAULT_TAKE);
    LastListedIn(s, cursor, store, disabled, |p.collections| - 1);
    CursorOffset(LastListed(p.collections).fileTime);
    var c := CursorAfter(LastListed(p.collections).fileTime);
    var rest := Received(Due(s, c, store, disabled), DEFAULT_TAKE);
    LastOfSum(got, p.collections, rest);
    hide Due, Received, PageLength, CursorAfter, Ordered, AllCurrent, Records, ListedAfter, IsPage, LastListed;
  }

  class SyncClient {
    var lastsync: int
    var received: seq<Delivery>

    constructor (lastsync: int)
      ensures this.lastsync == lastsync && received == []
    {
      this.lastsync, received := lastsync, [];
    }

    /** One batch: fetch a page at the cursor, take what it delivers, move the cursor. The first page of a
        cycle may find the server's order not built yet; got is then empty. A fetch that fails ends the
        cycle. */
    method FetchBatch(server: SyncServer, ghost start: int, got: seq<Delivery>, fails: bool)
                      returns (more: seq<Delivery>, done: bool)
      requires server.openSync && Ordered(server.ordered) && AllCurrent(server.ordered)
      requires server.ordered == [] ==> MasterCurrent(server.master)
      requires server.ordered == [] ==> got == [] && lastsync == start && lastsync <= CSHARP_THRESHOLD && lastsync != 0
      requires server.ordered != [] ==> Progress(server.ordered, server.store, server.disabled, start, lastsync, got)
      modifies this`lastsync, server`ordered
      ensures Ordered(server.ordered) && AllCurrent(server.ordered)
      ensures if fails || old(server.ordered) != [] then server.ordered == old(server.ordered)
              else Lists(server.ordered, server.master)
      ensures Progress(server.ordered, server.store, server.disabled, start, lastsync, more)
      ensures fails ==> done && more == got && lastsync == old(lastsync)
      ensures done && !fails ==> Due(server.ordered, lastsync, server.store, server.disabled) == []
      ensures !done ==> server.ordered != []
                        && |Due(server.ordered, lastsync, server.store, server.disabled)|
                           < |Due(server.ordered, old(lastsync), server.store, server.disabled)|
    {
      hide Progress, Due, IsPage, CursorAfter, Ordered, AllCurrent, MasterCurrent, Lists;
      if server.ordered != [] {
        ProgressCursor(server.ordered, server.store, server.disabled, start, lastsync, got);
      } else {
        InRange(lastsync);
        ProgressBegins([], server.store, server.disabled, lastsync);
      }
      if fails {
        return got, true;
      }
      var root := server.HandleSyncFdbTorrents(Query(lastsync, false, None, None));
      if old(server.ordered) == [] {
        ListedCurrent(server.ordered, server.master);
        ProgressBegins(server.ordered, server.store, server.disabled, lastsync);
      }
      if root.collections == [] {
        NextReadMeansMore(root, server.ordered, lastsync, server.store, server.disabled, DEFAULT_TAKE);
        more, done := got, true;
      } else {
        DeliveredFrom(root, server.ordered, lastsync, server.store, server.disabled);
        ProgressStep(root, server.ordered, server.store, server.disabled, start, lastsync, got);
        more := got + root.collections;
        lastsync := CursorAfter(LastListed(root.collections).fileTime);
        done := !root.nextread;
      }
    }

    /** One cycle of the v2 loop against an index that does not change meanwhile: over the order the
        server has cached, or over the one it builds for the first page. failing tells which fetches fail,
        and broke that one did. What has not been received then is what a cycle from the new cursor
        receives. */
    method RunCycle(server: SyncServer, failing: nat -> bool) returns (got: seq<Delivery>, broke: bool)
      requires server.openSync && Ordered(server.ordered) && AllCurrent(server.ordered)
      requires server.ordered == [] ==> MasterCurrent(server.master)
      requires lastsync <= CSHARP_THRESHOLD && lastsync != 0
      modifies this, server`ordered
      ensures if old(server.ordered) != [] || (broke && server.ordered == []) then server.ordered == old(server.ordered)
              else Ordered(server.ordered) && Lists(server.ordered, server.master)
      ensures var due := Due(server.ordered, old(lastsync), server.store, server.disabled);
              var left := Due(server.ordered, lastsync, server.store, server.disabled);
              && received == old(received) + got
              && got + Received(left, DEFAULT_TAKE) == Received(due, DEFAULT_TAKE)
              && (!broke ==> left == [] && got == Received(due, DEFAULT_TAKE))
      ensures lastsync == if got == [] then old(lastsync) else CursorAfter(LastListed(got).fileTime)
      ensures broke ==> exists k: nat :: failing(k)
    {
      ghost var start, before := lastsync, server.ordered;
      hide Progress, Due, Ordered, AllCurrent, MasterCurrent, Lists, Received, CursorAfter;
      if before != [] {
        ProgressBegins(before, server.store, server.disabled, start);
      }
      got := [];
      var done := false;
      var batchIndex := 0;
      broke := false;
      while !done
        invariant server.master == old(server.master) && received == old(received)
        invariant Ordered(server.ordered) && AllCurrent(server.ordered)
        invariant before != [] ==> server.ordered == before
        invariant before == [] && (server.ordered != [] || (done && !broke)) ==> Lists(server.ordered, server.master)
        invariant broke ==> done && exists k: nat :: failing(k)
        invariant server.ordered == [] && !done ==> got == [] && lastsync == start
        invariant server.ordered != [] || done ==>
                    Progress(server.ordered, server.store, server.disabled, start, lastsync, got)
        invariant done && !broke ==> Due(server.ordered, lastsync, server.store, server.disabled) == []
        decreases if server.ordered == [] then 1
            else 0, |Due(server.ordered, lastsync, server.store, server.disabled)|, !done
      {
        broke := failing(batchIndex);
        got, done := FetchBatch(server, start, got, broke);
        batchIndex := batchIndex + 1;
      }
      CycleEnds(server.ordered, server.store, server.disabled, start, lastsync, got);
      received := received + got;
    }
  }

  lemma CycleEnds(s: seq<Entry>, store: map<string, Bucket>, disabled: set<string>, start: int, cursor: int,
                  got: seq<Delivery>)
    requires Progress(s, store, disabled, start, cursor, got)
    ensures got + Received(Due(s, cursor, store, disabled), DEFAULT_TAKE)
            == Received(Due(s, start, store, disabled), DEFAULT_TAKE)
    ensures Due(s, cursor, store, disabled) == [] ==> got == Received(Due(s, start, store, disabled), DEFAULT_TAKE)
    ensures cursor == if got == [] then start else CursorAfter(LastListed(got).fileTime)
  {
    assert Received([], DEFAULT_TAKE) == [];
    assert got + [] == got;
  }

  ghost predicate MasterCurrent(master: map<string, int>) { forall k :: k in master ==> Current(master[k]) }

  lemma ListedCurrent(s: seq<Entry>, master: map<string, int>)
    requires Lists(s, master) && MasterCurrent(master)
    ensures AllCurrent(s)
  {
    forall e | e in s ensures Current(e.fileTime) {
      assert e == Entry(e.key, e.fileTime);
    }
  }

  lemma InRange(cursor: int)
    requires cursor <= CSHARP_THRESHOLD && cursor != 0
    ensures NormalizeFileTime(cursor) == cursor
  {
  }

  lemma ProgressBegins(s: seq<Entry>, store: map<string, Bucket>, disabled: set<string>, cursor: int)
    requires cursor <= CSHARP_THRESHOLD && cursor != 0
    ensures Progress(s, store, disabled, cursor, cursor, [])
  {
    var r := Received(Due(s, cursor, store, disabled), DEFAULT_TAKE);
    assert [] + r == r;
  }

  lemma DeliveredFrom(p: Page, s: seq<Entry>, cursor: int, store: map<string, Bucket>, disabled: set<string>)
    requires IsPage(p, s, Due(s, cursor, store, disabled), DEFAULT_TAKE) && p.collections != []
    ensures s != []
  {
  }
}
