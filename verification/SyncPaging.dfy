/** The paged index feed: the server's page loop, and what the client receives over a whole cycle. Of
    a record only its key counts; what is followed is which buckets are delivered. */
module SyncPaging {
  import opened Float64
  import opened FileTime
  import opened Options
  import opened Text

  /** One torrent record: a null value, or a record with its tracker, whose name is trimmed and in one case,
      as those in the list of disabled ones are. */
  datatype Torrent = Null | Record(tracker: string, body: string)

  type Bucket = map<string, Torrent>

  datatype Entry = Entry(key: string, fileTime: int)

  /** A bucket on a page: the FileTime it was listed under and its visible records. */
  datatype Delivery = Delivery(key: string, fileTime: int, torrents: Bucket)

  datatype Page = Page(collections: seq<Delivery>, nextread: bool, countread: nat)

  const DEFAULT_TAKE: nat := 2000

  // ---------------------------------------------------------------- the ordered index

  predicate Before(a: Entry, b: Entry) {
    a.fileTime < b.fileTime || (a.fileTime == b.fileTime && Less(a.key, b.key))
  }

  ghost predicate Ordered(s: seq<Entry>) {
    forall i, j :: 0 <= i < j < |s| ==> Before(s[i], s[j])
  }

  /** s lists exactly the pairs of the index. */
  ghost predicate Lists(s: seq<Entry>, master: map<string, int>) {
    forall k, ft :: Entry(k, ft) in s <==> k in master && master[k] == ft
  }

  lemma BeforeTransitive(a: Entry, b: Entry, c: Entry)
    requires Before(a, b) && Before(b, c)
    ensures Before(a, c)
  {
    if a.fileTime == b.fileTime == c.fileTime { LessTransitive(a.key, b.key, c.key); }
  }

  lemma BeforeTotal(a: Entry, b: Entry)
    ensures Before(a, b) || a == b || Before(b, a)
    ensures !(Before(a, b) && Before(b, a)) && !Before(a, a)
  {
    LessTotal(a.key, b.key);
    LessTotal(a.key, a.key);
  }

  function InsertEntry(s: seq<Entry>, e: Entry): seq<Entry> {
    if s == [] || !Before(s[0], e) then [e] + s else [s[0]] + InsertEntry(s[1..], e)
  }

  lemma {:induction false} InsertEntryOrdered(s: seq<Entry>, e: Entry)
    requires Ordered(s) && e !in s
    ensures Ordered(InsertEntry(s, e))
    ensures forall x :: x in InsertEntry(s, e) <==> x == e || x in s
  {
    if s == [] {
    } else if !Before(s[0], e) {
      BeforeTotal(s[0], e);
      forall j | 0 <= j < |s| ensures Before(e, s[j]) {
        if j > 0 { BeforeTransitive(e, s[0], s[j]); }
      }
    } else {
      InsertEntryOrdered(s[1..], e);
      var r := InsertEntry(s[1..], e);
      forall j | 0 <= j < |r| ensures Before(s[0], r[j]) {
        assert r[j] in r;
      }
      assert s == [s[0]] + s[1..];
    }
  }

  // ---------------------------------------------------------------- one page

  /** The records of a bucket that the feed shows. */
  function Visible(b: Bucket, disabled: set<string>): Bucket {
    map u | u in b && b[u].Record? && b[u].tracker !in disabled :: b[u]
  }

  /** What a read of the bucket contributes to a page: nothing when it cannot be read. */
  function Shown(store: map<string, Bucket>, disabled: set<string>, key: string): Bucket {
    if key in store then Visible(store[key], disabled) else map[]
  }

  /** What the feed shows of a bucket: its records of trackers that are not disabled, as they are. */
  lemma ShownMeans(store: map<string, Bucket>, disabled: set<string>, key: string)
    ensures var t := Shown(store, disabled, key);
            && (forall u :: u in t <==> key in store && u in store[key] && store[key][u].Record?
                                        && store[key][u].tracker !in disabled)
            && (forall u :: u in t ==> t[u] == store[key][u])
            && (|t| > 0 <==> key in store && exists u :: u in store[key] && store[key][u].Record?
                                                        && store[key][u].tracker !in disabled)
  {
    var t := Shown(store, disabled, key);
    SomeKey(t);
    hide Visible;
    if key in store {
      VisibleMeans(store[key], disabled);
    }
  }

  lemma VisibleMeans(b: Bucket, disabled: set<string>)
    ensures var t := Visible(b, disabled);
            && (forall u :: u in t <==> u in b && b[u].Record? && b[u].tracker !in disabled)
            && (forall u :: u in t ==> t[u] == b[u])
  {
  }

  lemma SomeKey(t: Bucket)
    ensures |t| > 0 <==> exists u :: u in t
  {
    assert |t| == |t.Keys|;
    if |t| > 0 {
      var u :| u in t;
    }
  }

  /** The deliveries still owed above a cursor, in index order. */
  function Due(s: seq<Entry>, ft: int, store: map<string, Bucket>, disabled: set<string>): seq<Delivery> {
    if s == [] then []
    else
      var t := Shown(store, disabled, s[0].key);
      var rest := Due(s[1..], ft, store, disabled);
      if s[0].fileTime <= ft || |t| == 0 then rest
      else [Delivery(s[0].key, s[0].fileTime, t)] + rest
  }

  function Records(ds: seq<Delivery>): nat {
    if ds == [] then 0 else Records(ds[..|ds| - 1]) + |ds[|ds| - 1].torrents|
  }

  // ---------------------------------------------------------------- a run of pages

  /** Where the client moves its cursor after a page that ends with FileTime ft. */
  function CursorAfter(ft: int): int {
    NormalizeFileTime(SyncFileTime(NormalizeFileTime(ft)))
  }

  /** The number of deliveries on the first page. */
  function PageLength(due: seq<Delivery>, take: nat): (n: nat)
    ensures n <= |due| && (due != [] ==> n > 0)
  {
    PageLengthFrom(due, take, 0)
  }

  function PageLengthFrom(due: seq<Delivery>, take: nat, n: nat): (m: nat)
    requires n <= |due|
    ensures n <= m <= |due| && (n == 0 && due != [] ==> m > 0)
    decreases |due| - n
  {
    if n == |due| || Records(due[..n]) > take then n else PageLengthFrom(due, take, n + 1)
  }

  function AboveCursor(due: seq<Delivery>, cursor: int): seq<Delivery> {
    if due == [] then []
    else if due[0].fileTime > cursor then [due[0]] + AboveCursor(due[1..], cursor)
    else AboveCursor(due[1..], cursor)
  }

  /** Everything the client receives in one cycle over an index that stays as it is. */
  function Received(due: seq<Delivery>, take: nat): seq<Delivery>
    decreases |due|
  {
    if due == [] then []
    else
      var n := PageLength(due, take);
      AboveCursorShorter(due[n..], CursorAfter(due[n - 1].fileTime));
      due[..n] + Received(AboveCursor(due[n..], CursorAfter(due[n - 1].fileTime)), take)
  }

  lemma {:induction false} AboveCursorShorter(due: seq<Delivery>, cursor: int)
    ensures |AboveCursor(due, cursor)| <= |due|
    ensures AboveCursor(due, cursor) == due <==> forall i :: 0 <= i < |due| ==> due[i].fileTime > cursor
    ensures |AboveCursor(due, cursor)| == |due| ==> AboveCursor(due, cursor) == due
  {
    if due != [] {
      AboveCursorShorter(due[1..], cursor);
      assert due == [due[0]] + due[1..];
      if due[0].fileTime > cursor {
        assert AboveCursor(due, cursor)[1..] == AboveCursor(due[1..], cursor);
        assert (forall i :: 0 <= i < |due| ==> due[i].fileTime > cursor)
          <==> forall i :: 0 <= i < |due[1..]| ==> due[1..][i].fileTime > cursor by {
          assert forall i :: 0 < i < |due| ==> due[i] == due[1..][i - 1];
        }
      }
    }
  }

  /** No page break falls between two buckets that the cursor cannot tell apart. */
  predicate BreaksAreSafe(due: seq<Delivery>, take: nat)
    decreases |due|
  {
    due == [] ||
    (var n := PageLength(due, take);
     (n == |due| || due[n].fileTime > CursorAfter(due[n - 1].fileTime)) &&
     BreaksAreSafe(due[n..], take))
  }

  ghost predicate Rising(due: seq<Delivery>) {
    forall i, j :: 0 <= i < j < |due| ==> due[i].fileTime <= due[j].fileTime
  }

  lemma {:induction false} ReceivedShorter(due: seq<Delivery>, take: nat)
    ensures |Received(due, take)| <= |due|
    decreases |due|
  {
    if due != [] {
      var n := PageLength(due, take);
      var c := CursorAfter(due[n - 1].fileTime);
      AboveCursorShorter(due[n..], c);
      ReceivedShorter(AboveCursor(due[n..], c), take);
    }
  }

  /** What is left of the deliveries after the first page, and where the cursor then stands. */
  ghost predicate AfterPage(due: seq<Delivery>, take: nat, n: nat, c: int, rest: seq<Delivery>) {
    && due != [] && n == PageLength(due, take) && c == CursorAfter(due[n - 1].fileTime) && rest == due[n..]
  }

  lemma RestAboveCursor(due: seq<Delivery>, take: nat, n: nat, c: int, rest: seq<Delivery>)
    requires Rising(due) && AfterPage(due, take, n, c, rest)
    ensures Rising(rest)
    ensures AboveCursor(rest, c) == rest <==> n == |due| || due[n].fileTime > c
    ensures |AboveCursor(rest, c)| == |rest| <==> AboveCursor(rest, c) == rest
    ensures |AboveCursor(rest, c)| <= |rest|
  {
    AboveCursorShorter(rest, c);
    assert forall i :: 0 <= i < |rest| ==> rest[i] == due[n + i];
    if rest != [] {
      assert rest[0] == due[n];
    }
  }

  lemma ReceivedSplits(due: seq<Delivery>, take: nat, n: nat, c: int, rest: seq<Delivery>)
    requires AfterPage(due, take, n, c, rest)
    ensures Received(due, take) == due[..n] + Received(AboveCursor(rest, c), take)
    ensures Received(due, take) == due <==> Received(AboveCursor(rest, c), take) == rest
  {
    AboveCursorShorter(rest, c);
    SameRest(due, n, Received(AboveCursor(rest, c), take));
    hide AboveCursor, CursorAfter, PageLength;
  }

  lemma SameRest(due: seq<Delivery>, n: nat, r: seq<Delivery>)
    requires n <= |due|
    ensures due[..n] + r == due <==> r == due[n..]
  {
    assert due == due[..n] + due[n..];
    assert (due[..n] + r)[n..] == r;
  }

  /** A cycle over a fixed index delivers everything that is due, each bucket once and in order,
      exactly when every page break is safe. */
  lemma {:induction false} CycleCompleteIffBreaksSafe(due: seq<Delivery>, take: nat)
    requires Rising(due)
    ensures Received(due, take) == due <==> BreaksAreSafe(due, take)
    decreases |due|
  {
    if due != [] {
      var n := PageLength(due, take);
      var c := CursorAfter(due[n - 1].fileTime);
      var rest := due[n..];
      RestAboveCursor(due, take, n, c, rest);
      ReceivedSplits(due, take, n, c, rest);
      ReceivedShorter(AboveCursor(rest, c), take);
      CycleCompleteIffBreaksSafe(rest, take);
    }
  }

  lemma {:induction false} RecordsAdd(a: seq<Delivery>, b: seq<Delivery>)
    ensures Records(a + b) == Records(a) + Records(b)
    decreases |b|
  {
    if b == [] {
      assert a + b == a;
    } else {
      var n := |b| - 1;
      assert (a + b)[..|a + b| - 1] == a + b[..n];
      RecordsAdd(a, b[..n]);
    }
  }

  /** The records of deliveries are counted one by one. */
  lemma RecordsOf(a: seq<Delivery>, d: Delivery)
    ensures Records([]) == 0 && Records(a + [d]) == Records(a) + |d.torrents|
  {
    assert (a + [d])[..|a|] == a;
  }

  /** Every bucket on the way shows something. */
  ghost predicate AllShow(due: seq<Delivery>) { forall i :: 0 <= i < |due| ==> |due[i].torrents| > 0 }

  lemma RecordsGrow(due: seq<Delivery>, i: nat, j: nat)
    requires i < j <= |due| && AllShow(due)
    ensures Records(due[..i]) < Records(due[..j])
  {
    var mid := due[i..j];
    assert due[..j] == due[..i] + mid;
    RecordsAdd(due[..i], mid);
    assert mid[|mid| - 1] == due[j - 1];
  }

  /** A page may break after the i-th delivery when at least two records lie up to there; the cursor then
      has to tell it from the next. */
  ghost predicate EveryBreakSafe(due: seq<Delivery>) {
    forall i :: 0 <= i < |due| - 1 && Records(due[..i + 1]) >= 2 ==> due[i + 1].fileTime > CursorAfter(due[i].fileTime)
  }

  lemma {:induction false} SafeFrom(due: seq<Delivery>, m: nat, take: nat)
    requires m <= |due| && take >= 1 && EveryBreakSafe(due)
    ensures BreaksAreSafe(due[m..], take)
    decreases |due| - m
  {
    if m < |due| {
      var n := PageLength(due[m..], take);
      Slices(due, m, n);
      SafeFrom(due, m + n, take);
      if m + n < |due| {
        FullPageIsSafe(due, m, n, take);
      }
      hide CursorAfter, PageLength, EveryBreakSafe;
    }
  }

  lemma Slices(due: seq<Delivery>, m: nat, n: nat)
    requires m + n <= |due|
    ensures due[m..][n..] == due[m + n..] && due[..m] + due[m..][..n] == due[..m + n]
  {
  }

  lemma FullPageIsSafe(due: seq<Delivery>, m: nat, n: nat, take: nat)
    requires 0 < n && m + n < |due| && take >= 1 && EveryBreakSafe(due) && n == PageLength(due[m..], take)
    ensures due[m..][n].fileTime > CursorAfter(due[m..][n - 1].fileTime)
  {
    PageIsFull(due[m..], take, 0);
    Slices(due, m, n);
    RecordsAdd(due[..m], due[m..][..n]);
    hide CursorAfter, PageLength, Records;
    assert due[m..][n] == due[m + n] && due[m..][n - 1] == due[m + n - 1];
  }

  lemma {:induction false} PageIsFull(due: seq<Delivery>, take: nat, n: nat)
    requires n <= |due|
    ensures var m := PageLengthFrom(due, take, n); m < |due| ==> Records(due[..m]) > take
    decreases |due| - n
  {
    if n < |due| && Records(due[..n]) <= take {
      PageIsFull(due, take, n + 1);
    }
  }

  /** The page that breaks after the i-th delivery. */
  lemma BreakAfter(due: seq<Delivery>, i: nat)
    requires AllShow(due) && i < |due| && Records(due[..i + 1]) >= 2
    ensures PageLength(due, Records(due[..i + 1]) - 1) == i + 1
  {
    forall j | 0 <= j < i + 1 ensures Records(due[..j]) <= Records(due[..i + 1]) - 1 {
      RecordsGrow(due, j, i + 1);
    }
    PageLengthFromIs(due, Records(due[..i + 1]) - 1, 0, i + 1);
  }

  /** A cycle delivers everything that is due, whatever page size is asked for. */
  ghost predicate CompleteForEveryTake(due: seq<Delivery>) {
    forall take: nat :: take >= 1 ==> Received(due, take) == due
  }

  lemma UnsafeBreakLoses(due: seq<Delivery>, i: nat)
    requires Rising(due) && AllShow(due) && CompleteForEveryTake(due) && i < |due| - 1 && Records(due[..i + 1]) >= 2
    ensures due[i + 1].fileTime > CursorAfter(due[i].fileTime)
  {
    hide Received, PageLength, CursorAfter, Records;
    var take := Records(due[..i + 1]) - 1;
    BreakAfter(due, i);
    assert Received(due, take) == due;
    CycleCompleteIffBreaksSafe(due, take);
    assert PageLength(due, take) == i + 1;
  }

  /** It does so exactly when every FileTime after which a page may break lies below the next by more than
      the cursor adds. */
  lemma CompleteForEveryTakeIff(due: seq<Delivery>)
    requires Rising(due) && AllShow(due)
    ensures CompleteForEveryTake(due) <==> EveryBreakSafe(due)
  {
    hide Received, PageLength, CursorAfter, Records;
    if EveryBreakSafe(due) {
      forall take: nat | take >= 1 ensures Received(due, take) == due {
        assert due[0..] == due;
        SafeFrom(due, 0, take);
        CycleCompleteIffBreaksSafe(due, take);
      }
    }
    if CompleteForEveryTake(due) {
      forall i: nat | i < |due| - 1 && Records(due[..i + 1]) >= 2
          ensures due[i + 1].fileTime > CursorAfter(due[i].fileTime) {
        UnsafeBreakLoses(due, i);
      }
    }
  }

  ghost predicate Spaced(due: seq<Delivery>) {
    && (forall i :: 0 <= i < |due| ==> Current(due[i].fileTime))
    && (forall i, j :: 0 <= i < j < |due| ==> due[i].fileTime + SAFE_GAP <= due[j].fileTime)
  }

  /** FileTimes at least 25 ticks apart make every page break safe, whatever the page size. */
  lemma {:induction false} SpacedIsComplete(due: seq<Delivery>, take: nat)
    requires Spaced(due)
    ensures BreaksAreSafe(due, take) && Received(due, take) == due
    decreases |due|
  {
    if due != [] {
      var n := PageLength(due, take);
      SyncOffset(due[n - 1].fileTime);
      assert Spaced(due[n..]) by {
        assert forall i :: 0 <= i < |due[n..]| ==> due[n..][i] == due[n + i];
      }
      SpacedIsComplete(due[n..], take);
    }
    CycleCompleteIffBreaksSafe(due, take);
  }

  /** Without the spacing a bucket is lost: b was saved at the same tick as a, the page breaks
      between them, and the cursor passes both. */
  lemma CloseFileTimesLoseABucket() returns (due: seq<Delivery>, take: nat)
    ensures Rising(due) && |due| == 2 && Received(due, take) == [due[0]] && !BreaksAreSafe(due, take)
  {
    var r := Record("t", "");
    var a := Delivery("a", P56, map["u" := r, "v" := r]);
    var b := Delivery("b", P56, map["w" := r]);
    due, take := [a, b], 1;
    SyncOffset(P56);
    assert |a.torrents| == 2;
    assert due[..0] == [] && due[..1] == [a] && [a][..0] == [];
    assert Records([a]) == 2;
    PageLengthFromIs(due, take, 0, 1);
    assert due[1..] == [b];
    assert AboveCursor([b], CursorAfter(P56)) == [];
  }

  // ---------------------------------------------------------------- the page loop

  lemma {:induction false} DueSplits(a: seq<Entry>, b: seq<Entry>, ft: int, store: map<string, Bucket>,
                                     disabled: set<string>)
    ensures Due(a + b, ft, store, disabled) == Due(a, ft, store, disabled) + Due(b, ft, store, disabled)
  {
    if a == [] {
      assert a + b == b;
    } else {
      assert (a + b)[0] == a[0] && (a + b)[1..] == a[1..] + b;
      DueSplits(a[1..], b, ft, store, disabled);
    }
  }

  lemma {:induction false} DueMember(s: seq<Entry>, ft: int, store: map<string, Bucket>, disabled: set<string>,
                                     d: Delivery)
    ensures d in Due(s, ft, store, disabled)
            <==> Entry(d.key, d.fileTime) in s && d.fileTime > ft
                 && d.torrents == Shown(store, disabled, d.key) && |d.torrents| > 0
  {
    if s != [] {
      DueMember(s[1..], ft, store, disabled, d);
      assert s == [s[0]] + s[1..];
    }
  }

  lemma {:induction false} DueOrdered(s: seq<Entry>, ft: int, store: map<string, Bucket>, disabled: set<string>)
    requires Ordered(s)
    ensures var due := Due(s, ft, store, disabled);
            forall i, j :: 0 <= i < j < |due| ==> Before(Entry(due[i].key, due[i].fileTime),
                Entry(due[j].key, due[j].fileTime))
  {
    if s != [] {
      DueOrdered(s[1..], ft, store, disabled);
      var rest := Due(s[1..], ft, store, disabled);
      forall j | 0 <= j < |rest|
        ensures Before(s[0], Entry(rest[j].key, rest[j].fileTime))
      {
        DueMember(s[1..], ft, store, disabled, rest[j]);
      }
    }
  }

  lemma {:induction false} DueAbove(s: seq<Entry>, ft: int, c: int, store: map<string, Bucket>, disabled: set<string>)
    requires ft <= c
    ensures Due(s, c, store, disabled) == AboveCursor(Due(s, ft, store, disabled), c)
  {
    if s != [] {
      DueAbove(s[1..], ft, c, store, disabled);
    }
  }

  lemma {:induction false} AboveCursorDrops(due: seq<Delivery>, n: nat, c: int)
    requires n <= |due| && forall i :: 0 <= i < n ==> due[i].fileTime <= c
    ensures AboveCursor(due, c) == AboveCursor(due[n..], c)
  {
    if n > 0 {
      assert forall i :: 0 <= i < n - 1 ==> due[1..][i] == due[i + 1];
      AboveCursorDrops(due[1..], n - 1, c);
      assert due[1..][n - 1..] == due[n..];
    }
  }

  lemma {:induction false} PageLengthFromIs(due: seq<Delivery>, take: nat, m: nat, n: nat)
    requires m <= n <= |due|
    requires forall i :: m <= i < n ==> Records(due[..i]) <= take
    requires n == |due| || Records(due[..n]) > take
    ensures PageLengthFrom(due, take, m) == n
    decreases n - m
  {
    if m < n {
      PageLengthFromIs(due, take, m + 1, n);
    }
  }

  /** What a page must be: the shortest prefix of the due deliveries with more than `take`
      records (all of them if there is none), and nextread exactly when that many were found and
      the index goes on after the last of them. */
  ghost predicate IsPage(p: Page, s: seq<Entry>, due: seq<Delivery>, take: nat) {
    var n := PageLength(due, take);
    && p.collections == due[..n]
    && p.countread == Records(due[..n])
    && (p.nextread <==> p.countread > take && ListedAfter(s, p.collections))
  }

  function LastListed(ds: seq<Delivery>): Entry
    requires ds != []
  {
    Entry(ds[|ds| - 1].key, ds[|ds| - 1].fileTime)
  }

  lemma LastOfSum(a: seq<Delivery>, b: seq<Delivery>, c: seq<Delivery>)
    ensures (a + b) + c == a + (b + c) && (b != [] ==> LastListed(a + b) == LastListed(b))
  {
  }

  ghost predicate ListedAfter(s: seq<Entry>, ds: seq<Delivery>) {
    ds != [] && exists e :: e in s && Before(LastListed(ds), e)
  }

  /** The loop state after the first i entries, with `take` not yet exceeded before the last. */
  ghost predicate SoFar(s: seq<Entry>, i: nat, ft: int, store: map<string, Bucket>, disabled: set<string>, take: nat,
                        ds: seq<Delivery>, count: nat)
    requires i <= |s|
  {
    && ds == Due(s[..i], ft, store, disabled) && count == Records(ds)
    && (forall n :: 0 <= n < |ds| ==> Records(ds[..n]) <= take)
    && (count > take ==> i > 0 && s[i - 1].fileTime > ft && ds != [] && LastListed(ds) == s[i - 1])
  }

  lemma DueStep(s: seq<Entry>, i: nat, ft: int, store: map<string, Bucket>, disabled: set<string>)
    requires i < |s|
    ensures var t := Shown(store, disabled, s[i].key);
            Due(s[..i + 1], ft, store, disabled)
            == Due(s[..i], ft, store, disabled)
               + if s[i].fileTime > ft && |t| > 0 then [Delivery(s[i].key, s[i].fileTime, t)] else []
  {
    assert s[..i + 1] == s[..i] + [s[i]];
    DueSplits(s[..i], [s[i]], ft, store, disabled);
    assert [s[i]][1..] == [];
  }

  lemma RecordsStep(ds: seq<Delivery>, d: Delivery)
    ensures Records(ds + [d]) == Records(ds) + |d.torrents| && forall n :: 0 <= n <= |ds| ==> (ds + [d])[..n] == ds[..n]
  {
    assert (ds + [d])[..|ds|] == ds;
  }

  lemma SoFarStep(s: seq<Entry>, i: nat, ft: int, store: map<string, Bucket>, disabled: set<string>, take: nat,
                  ds: seq<Delivery>, count: nat)
    requires Ordered(s) && i < |s| && SoFar(s, i, ft, store, disabled, take, ds, count)
    requires !(s[i].fileTime > ft && count > take)
    ensures var t := Shown(store, disabled, s[i].key);
            if s[i].fileTime > ft && |t| > 0
            then SoFar(s, i + 1, ft, store, disabled, take, ds + [Delivery(s[i].key, s[i].fileTime, t)], count + |t|)
            else SoFar(s, i + 1, ft, store, disabled, take, ds, count)
  {
    var t := Shown(store, disabled, s[i].key);
    DueStep(s, i, ft, store, disabled);
    if s[i].fileTime > ft && |t| > 0 {
      hide Due, Shown, Ordered, Less, Before;
      SoFarTaken(s, i, ft, store, disabled, take, ds, count, t);
    } else {
      assert i > 0 ==> Before(s[i - 1], s[i]);
      assert Due(s[..i + 1], ft, store, disabled) == ds;
      hide Due, Shown, Ordered, Records, Less;
    }
  }

  lemma SoFarTaken(s: seq<Entry>, i: nat, ft: int, store: map<string, Bucket>, disabled: set<string>, take: nat,
                   ds: seq<Delivery>, count: nat, t: Bucket)
    requires i < |s| && SoFar(s, i, ft, store, disabled, take, ds, count) && s[i].fileTime > ft && count <= take
    requires Due(s[..i + 1], ft, store, disabled) == ds + [Delivery(s[i].key, s[i].fileTime, t)]
    ensures SoFar(s, i + 1, ft, store, disabled, take, ds + [Delivery(s[i].key, s[i].fileTime, t)], count + |t|)
  {
    var d := Delivery(s[i].key, s[i].fileTime, t);
    hide Due;
    RecordsStep(ds, d);
    FullBefore(ds, d, take);
    hide Records;
    assert LastListed(ds + [d]) == s[i];
  }

  lemma FullBefore(ds: seq<Delivery>, d: Delivery, take: nat)
    requires (forall n :: 0 <= n < |ds| ==> Records(ds[..n]) <= take) && Records(ds) <= take
    ensures forall n :: 0 <= n < |ds + [d]| ==> Records((ds + [d])[..n]) <= take
  {
    hide Records;
    assert ds[..|ds|] == ds;
    forall n | 0 <= n < |ds + [d]| ensures Records((ds + [d])[..n]) <= take {
      assert (ds + [d])[..n] == ds[..n];
    }
  }

  /** The state in which the page loop stops, after the first i entries, makes a page. */
  lemma PageDone(s: seq<Entry>, i: nat, ft: int, store: map<string, Bucket>, disabled: set<string>, take: nat, p: Page)
    requires Ordered(s) && i <= |s| && SoFar(s, i, ft, store, disabled, take, p.collections, p.countread)
    requires if p.nextread then i < |s| && p.countread > take else i == |s|
    ensures IsPage(p, s, Due(s, ft, store, disabled), take)
  {
    var due := Due(s, ft, store, disabled);
    var n := |p.collections|;
    assert s == s[..i] + s[i..];
    DueSplits(s[..i], s[i..], ft, store, disabled);
    assert i == |s| ==> s[i..] == [];
    PrefixIsPage(p.collections, due, take);
    if p.countread > take {
      GoesOnIff(s, i);
    }
    hide Due, Ordered, Before;
  }

  lemma PrefixIsPage(ds: seq<Delivery>, due: seq<Delivery>, take: nat)
    requires ds <= due && (forall n :: 0 <= n < |ds| ==> Records(ds[..n]) <= take) && (ds == due || Records(ds) > take)
    ensures due[..PageLength(due, take)] == ds
  {
    hide Records;
    var n := |ds|;
    assert due[..n] == ds;
    assert forall j :: 0 <= j < n ==> due[..j] == ds[..j];
    PageLengthFromIs(due, take, 0, n);
  }

  /** The index goes on after the i-th entry exactly when there are more entries. */
  lemma GoesOnIff(s: seq<Entry>, i: nat)
    requires Ordered(s) && 0 < i <= |s|
    ensures i < |s| <==> exists e :: e in s && Before(s[i - 1], e)
  {
    if i < |s| {
      assert s[i] in s && Before(s[i - 1], s[i]);
    } else {
      forall e | e in s ensures !Before(s[i - 1], e) {
        var j :| 0 <= j < |s| && s[j] == e;
        if j < i - 1 { BeforeTotal(s[j], s[i - 1]); } else { BeforeTotal(e, e); }
      }
    }
  }

  /** What is on a page, record by record. */
  lemma PageShows(p: Page, s: seq<Entry>, ft: int, store: map<string, Bucket>, disabled: set<string>, take: nat)
    requires IsPage(p, s, Due(s, ft, store, disabled), take)
    ensures forall d :: d in p.collections ==>
              && Entry(d.key, d.fileTime) in s && d.fileTime > ft && d.key in store && d.torrents != map[]
              && (forall u :: u in d.torrents <==> u in store[d.key] && store[d.key][u].Record?
                                                   && store[d.key][u].tracker !in disabled)
              && (forall u :: u in d.torrents ==> d.torrents[u] == store[d.key][u])
  {
    var due := Due(s, ft, store, disabled);
    forall d | d in p.collections
      ensures Entry(d.key, d.fileTime) in s && d.fileTime > ft && d.torrents == Shown(store, disabled, d.key)
              && |d.torrents| > 0
    {
      assert d in due;
      DueMember(s, ft, store, disabled, d);
    }
    hide IsPage, Shown;
    forall d | d in p.collections
      ensures d.key in store && d.torrents != map[]
      ensures forall u :: u in d.torrents <==> u in store[d.key] && store[d.key][u].Record?
                                               && store[d.key][u].tracker !in disabled
      ensures forall u :: u in d.torrents ==> d.torrents[u] == store[d.key][u]
    {
      ShownMeans(store, disabled, d.key);
    }
  }

  /** A complete cycle carries a listed bucket exactly when it is above the time and has a record to show. */
  lemma CompleteCycleCarries(s: seq<Entry>, ft: int, store: map<string, Bucket>, disabled: set<string>, take: nat,
                             e: Entry)
    requires var due := Due(s, ft, store, disabled); Received(due, take) == due
    ensures (exists d :: d in Received(Due(s, ft, store, disabled), take) && d.key == e.key && d.fileTime == e.fileTime)
            <==> e in s && e.fileTime > ft && e.key in store
                 && exists u :: u in store[e.key] && store[e.key][u].Record? && store[e.key][u].tracker !in disabled
  {
    var due := Due(s, ft, store, disabled);
    ShownMeans(store, disabled, e.key);
    var d := Delivery(e.key, e.fileTime, Shown(store, disabled, e.key));
    assert Entry(e.key, e.fileTime) == e;
    DueMember(s, ft, store, disabled, d);
    hide Received, Shown;
    if c :| c in due && c.key == e.key && c.fileTime == e.fileTime {
      DueMember(s, ft, store, disabled, c);
      assert c == d;
    }
  }

  /** The collecting loop, with its early exit once `take` has been exceeded. */
  method CollectPage(s: seq<Entry>, ft: int, store: map<string, Bucket>, disabled: set<string>, take: nat)
    returns (p: Page)
    requires Ordered(s)
    ensures IsPage(p, s, Due(s, ft, store, disabled), take)
    ensures forall d :: d in p.collections ==>
              && d.key in store && d.torrents != map[]
              && (forall u :: u in d.torrents <==> u in store[d.key] && store[d.key][u].Record?
                                                   && store[d.key][u].tracker !in disabled)
              && (forall u :: u in d.torrents ==> d.torrents[u] == store[d.key][u])
  {
    var nextread := false;
    var countread: nat := 0;
    var collections: seq<Delivery> := [];
    var i := 0;
    while i < |s|
      invariant 0 <= i <= |s| && !nextread
      invariant SoFar(s, i, ft, store, disabled, take, collections, countread)
    {
      if s[i].fileTime > ft && countread > take {
        nextread := true;
        break;
      }
      SoFarStep(s, i, ft, store, disabled, take, collections, countread);
      var torrents := Shown(store, disabled, s[i].key);
      if s[i].fileTime > ft && |torrents| > 0 {
        collections := collections + [Delivery(s[i].key, s[i].fileTime, torrents)];
        countread := countread + |torrents|;
      }
      i := i + 1;
    }
    p := Page(collections, nextread, countread);
    PageDone(s, i, ft, store, disabled, take, p);
    hide *;
    PageShows(p, s, ft, store, disabled, take);
  }

  /** The parameters of a request: outdated says that one of the withdrawn names fileTime, startTime or
      spider is used. */
  datatype Query = Query(time: int, outdated: bool, take: Option<int>, limit: Option<int>) {
    /** A take on its own was withdrawn too. */
    predicate Withdrawn() { outdated || (take.Some? && limit.None?) }

    function PageSize(): nat {
      var asked := if take.Some? then take.value else if limit.Some? then limit.value else DEFAULT_TAKE;
      if asked <= 0 then DEFAULT_TAKE else asked
    }
  }

  class SyncServer {
    var openSync: bool
    var disabled: set<string>
    var master: map<string, int>
    var store: map<string, Bucket>
    var ordered: seq<Entry>

    constructor (openSync: bool, disabled: set<string>, master: map<string, int>, store: map<string, Bucket>)
      ensures this.openSync == openSync && this.disabled == disabled
      ensures this.master == master && this.store == store && ordered == []
    {
      this.openSync, this.disabled := openSync, disabled;
      this.master, this.store, ordered := master, store, [];
    }

    method RebuildOrderedCache()
      modifies this`ordered
      ensures Ordered(ordered) && Lists(ordered, master)
      ensures forall i, j :: 0 <= i < j < |ordered| ==>
                ordered[i].fileTime < ordered[j].fileTime
                || (ordered[i].fileTime == ordered[j].fileTime && Less(ordered[i].key, ordered[j].key))
    {
      var left := master.Keys;
      var out: seq<Entry> := [];
      while left != {}
        invariant left <= master.Keys && Ordered(out)
        invariant forall k, ft :: Entry(k, ft) in out <==> k in master && k !in left && master[k] == ft
        decreases left
      {
        var k :| k in left;
        InsertEntryOrdered(out, Entry(k, master[k]));
        out := InsertEntry(out, Entry(k, master[k]));
        left := left - {k};
      }
      ordered := out;
    }

    /** The cached order, however old, or a fresh one when nothing is cached yet. */
    method OrderedMasterEntries() returns (entries: seq<Entry>)
      modifies this`ordered
      ensures entries == ordered
      ensures if old(ordered) != [] then ordered == old(ordered)
              else Ordered(ordered) && Lists(ordered, master)
    {
      if ordered == [] {
        RebuildOrderedCache();
      }
      entries := ordered;
    }

    method HandleSyncFdbTorrents(q: Query) returns (p: Page)
      requires Ordered(ordered)
      modifies this`ordered
      ensures Ordered(ordered) && (old(ordered) != [] ==> ordered == old(ordered))
      ensures old(ordered) == [] ==>
                if q.Withdrawn() || !openSync || NormalizeFileTime(q.time) == 0 then ordered == []
                else Lists(ordered, master)
      ensures q.outdated || (q.take.Some? && q.limit.None?) || !openSync || NormalizeFileTime(q.time) == 0
              ==> p == Page([], false, 0) && ordered == old(ordered)
      ensures !q.Withdrawn() && openSync && NormalizeFileTime(q.time) != 0 ==>
                IsPage(p, ordered, Due(ordered, NormalizeFileTime(q.time), store, disabled), q.PageSize())
      ensures !q.Withdrawn() ==>
                q.PageSize() == if q.take.Some? && q.take.value > 0 then q.take.value
                                else if q.take.None? && q.limit.Some? && q.limit.value > 0 then q.limit.value
                                else 2000
      ensures forall d :: d in p.collections ==>
                && d.key in store && d.torrents != map[]
                && (forall u :: u in d.torrents <==> u in store[d.key] && store[d.key][u].Record?
                                                     && store[d.key][u].tracker !in disabled)
                && (forall u :: u in d.torrents ==> d.torrents[u] == store[d.key][u])
    {
      if q.Withdrawn() {
        return Page([], false, 0);
      }
      var ft := NormalizeFileTime(q.time);
      if !openSync || ft == 0 {
        return Page([], false, 0);
      }
      var s := OrderedMasterEntries();
      p := CollectPage(s, ft, store, disabled, q.PageSize());
    }
  }
}
