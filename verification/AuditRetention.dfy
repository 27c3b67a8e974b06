/** Exporting a window of the audit log page by page while other writers append, and the
    retention job that prunes only what it has exported. */
module AuditRetention {
  import opened Basics
  import opened Uuids
  import opened Records
  import opened Ordering
  import opened AuditTrail
  import Ledger

  type Arrivals = nat -> seq<AuditEvent>

  ghost predicate Harmless(q: Query, until: Option<int>, arrivals: Arrivals) {
    forall k: nat {:trigger Outside(q, until, arrivals(k))} :: Outside(q, until, arrivals(k))
  }

  predicate NotEarlier(all: seq<AuditEvent>, i: int, j: int) {
    0 <= i < j < |all| ==> all[i].at >= all[j].at
  }

  ghost predicate Descending(all: seq<AuditEvent>) {
    forall i, j :: NotEarlier(all, i, j)
  }

  lemma StatsSnoc(line: AuditEvent -> seq<Byte>, all: seq<AuditEvent>, m: nat, pages: nat)
    requires Descending(all) && m < |all|
    ensures var before, bytes := StatsOf(line, all[..m], pages), line(all[m]);
            StatsOf(line, all[..m + 1], pages) ==
              Stats(m + 1, pages, before.byteCount + |bytes|, before.digested + bytes,
                    Later(before.newest, all[m].at), Earlier(before.oldest, all[m].at))
  {
    assert all[..m + 1][..m] == all[..m];
    assert NotEarlier(all, 0, m) && NotEarlier(all, m - 1, m);
  }

  /** The file is the lines of its rows, one after the other. */
  lemma {:induction false} JsonlConcat(line: AuditEvent -> seq<Byte>, a: seq<AuditEvent>,
                                       b: seq<AuditEvent>)
    ensures JsonlBytes(line, a + b) == JsonlBytes(line, a) + JsonlBytes(line, b)
    ensures |b| == 1 ==> JsonlBytes(line, b) == line(b[0])
  {
    if b == [] {
      assert a + b == a;
    } else {
      JsonlConcat(line, a, b[..|b| - 1]);
      assert (a + b)[..|a| + |b| - 1] == a + b[..|b| - 1];
    }
  }

  /** What the statistics of a newest-first list say: its size, its bytes, the hashed bytes, and the
      times between which all its events lie. */
  lemma StatsInFields(line: AuditEvent -> seq<Byte>, rows: seq<AuditEvent>, pages: nat)
    requires Descending(rows)
    ensures var s := StatsOf(line, rows, pages);
            s.count == |rows| && s.pages == pages && s.digested == JsonlBytes(line, rows)
            && s.byteCount == |s.digested|
            && (rows == [] <==> s.newest.None?) && (rows == [] <==> s.oldest.None?)
            && (forall e :: e in rows ==> s.oldest.value <= e.at <= s.newest.value)
            && (rows != [] ==> (exists e :: e in rows && e.at == s.newest.value)
                               && (exists e :: e in rows && e.at == s.oldest.value))
  {
    var s := StatsOf(line, rows, pages);
    forall e | e in rows ensures s.oldest.value <= e.at <= s.newest.value {
      var i :| 0 <= i < |rows| && rows[i] == e;
      assert NotEarlier(rows, 0, i) && NotEarlier(rows, i, |rows| - 1);
    }
    if rows != [] { assert rows[0] in rows && rows[|rows| - 1] in rows; }
  }

  /** The log once the arrivals of the first k calls are in. */
  ghost function LogAfter(log: Log, arrivals: Arrivals, k: nat): Log {
    if k == 0 then log else Absorb(LogAfter(log, arrivals, k - 1), arrivals(k - 1))
  }

  /** How many rows and pages an export of n matching rows takes. */
  function ExportSize(n: nat, allPages: bool, limit: int): nat {
    if allPages then n else Min(Cap(limit), n)
  }

  /** Pages are full until one is short; the short one may be empty. */
  function Pages(n: nat, limit: nat): nat {
    if limit == 0 || n < limit then 1 else 1 + Pages(n - limit, limit)
  }

  function ExportPages(n: nat, allPages: bool, limit: int): nat {
    if allPages then Pages(n, Cap(limit)) else 1
  }

  /** All pages but the last are full, and the last is not. */
  lemma {:induction false} PagesInFields(n: nat, limit: nat)
    requires limit > 0
    ensures Pages(n, limit) >= 1
    ensures (Pages(n, limit) - 1) * limit <= n < Pages(n, limit) * limit
  {
    if n >= limit {
      var k := Pages(n - limit, limit);
      PagesInFields(n - limit, limit);
      assert Pages(n, limit) == k + 1;
      assert (k + 1) * limit == k * limit + limit && k * limit == (k - 1) * limit + limit;
    }
  }

  /** The log lists `all` as its window, newest first. */
  ghost predicate Feeds(log: Log, q: Query, until: Option<int>, all: seq<AuditEvent>) {
    Keyed(log) && Rows(Window(log, q, until), false) == all
  }

  /** The cursor a full page leaves. */
  function NextCursor(page: seq<AuditEvent>, cursor: Cursor): Cursor {
    if page == [] then cursor
    else var last := page[|page| - 1]; Cursor(Some(last.at), Some(last.id))
  }

  /** The log once the arrivals of the first p calls are in, and nothing else has changed. */
  ghost predicate AfterCalls(log: Log, base: Log, arrivals: Arrivals, p: nat) {
    log == LogAfter(base, arrivals, p)
  }

  /** How many of n rows the first p pages of an export cover. */
  function Reached(n: nat, limit: nat, p: nat): (r: nat)
    ensures r <= n
  {
    if p == 0 then 0 else Min(Reached(n, limit, p - 1) + limit, n)
  }

  predicate Behind(q: Query, until: Option<int>, all: seq<AuditEvent>, limit: nat,
                   arrivals: Arrivals, p: nat)
  {
    Unseen(q, CursorAfter(all, until, Reached(|all|, limit, p)), arrivals(p))
  }

  /** Before page p nothing arrives where the export has yet to go. Arrivals may be outside the
      window, and inside it anywhere up to the row the cursor stands on. */
  ghost predicate NeverAhead(q: Query, until: Option<int>, all: seq<AuditEvent>, limit: nat,
                             arrivals: Arrivals)
  {
    forall p: nat :: Behind(q, until, all, limit, arrivals, p)
  }

  /** Arrivals outside the window are never ahead. */
  lemma HarmlessIsNeverAhead(log: Log, q: Query, until: Option<int>, all: seq<AuditEvent>,
                             limit: nat, arrivals: Arrivals)
    requires Feeds(log, q, until, all) && Harmless(q, until, arrivals)
    ensures NeverAhead(q, until, all, limit, arrivals)
  {
    RowsAreComplete(Window(log, q, until), false);
    forall p: nat ensures Behind(q, until, all, limit, arrivals, p) {
      assert Outside(q, until, arrivals(p));
      var k := Reached(|all|, limit, p);
      if k > 0 { assert all[k - 1] in all; }
    }
  }

  /** What the log still offers an export after p pages. */
  ghost predicate OffersAt(log: Log, arrivals: Arrivals, q: Query, until: Option<int>,
                           all: seq<AuditEvent>, limit: nat, p: nat)
  {
    var k := Reached(|all|, limit, p);
    Offers(LogAfter(log, arrivals, p), q, CursorAfter(all, until, k), all[k..])
  }

  lemma OffersStep(log: Log, arrivals: Arrivals, q: Query, until: Option<int>,
                   all: seq<AuditEvent>, limit: nat, p: nat)
    requires OffersAt(log, arrivals, q, until, all, limit, p)
    requires Behind(q, until, all, limit, arrivals, p)
    ensures OffersAt(log, arrivals, q, until, all, limit, p + 1)
  {
    var k, n := Reached(|all|, limit, p), Reached(|all|, limit, p + 1);
    OffersNext(LogAfter(log, arrivals, p), q, CursorAfter(all, until, k), all[k..], arrivals(p), n - k);
    assert all[k..][n - k..] == all[n..];
  }

  lemma {:induction false} OffersFrom(log: Log, arrivals: Arrivals, q: Query, until: Option<int>,
                                      all: seq<AuditEvent>, limit: nat, p: nat)
    requires OffersAt(log, arrivals, q, until, all, limit, 0)
    requires NeverAhead(q, until, all, limit, arrivals)
    ensures OffersAt(log, arrivals, q, until, all, limit, p)
  {
    if p > 0 {
      OffersFrom(log, arrivals, q, until, all, limit, p - 1);
      assert Behind(q, until, all, limit, arrivals, p - 1);
      OffersStep(log, arrivals, q, until, all, limit, p - 1);
    }
  }

  lemma OffersAfter(log: Log, arrivals: Arrivals, q: Query, until: Option<int>,
                    all: seq<AuditEvent>, limit: nat, p: nat)
    requires Feeds(log, q, until, all) && NeverAhead(q, until, all, limit, arrivals)
    ensures OffersAt(log, arrivals, q, until, all, limit, p)
  {
    FirstCursorIsWindow(log, q, until);
    assert all[0..] == all;
    OffersFrom(log, arrivals, q, until, all, limit, p);
  }

  /** The request for page p, made after the arrivals before it, returns the next rows. */
  ghost predicate PageIs(log: Log, arrivals: Arrivals, q: Query, until: Option<int>,
                         all: seq<AuditEvent>, limit: int, p: nat)
  {
    var k, n := Reached(|all|, Cap(limit), p), Reached(|all|, Cap(limit), p + 1);
    Keyed(LogAfter(log, arrivals, p + 1)) && k <= n <= |all|
    && ListPage(LogAfter(log, arrivals, p + 1), q, CursorAfter(all, until, k), limit) == all[k..n]
  }

  lemma OfferedPage(log: Log, arrivals: Arrivals, q: Query, until: Option<int>,
                    all: seq<AuditEvent>, limit: int, p: nat)
    requires OffersAt(log, arrivals, q, until, all, Cap(limit), p)
    requires Behind(q, until, all, Cap(limit), arrivals, p)
    ensures PageIs(log, arrivals, q, until, all, limit, p)
  {
    var k := Reached(|all|, Cap(limit), p);
    AbsorbKeepsOffer(LogAfter(log, arrivals, p), q, CursorAfter(all, until, k), all[k..], arrivals(p));
    assert all[k..][..Min(Cap(limit), |all| - k)] == all[k..Min(k + Cap(limit), |all|)];
  }

  /** However events arrive behind the cursor, every page is the next stretch of the listing. */
  lemma EveryPageIsNext(log: Log, arrivals: Arrivals, q: Query, until: Option<int>,
                        all: seq<AuditEvent>, limit: int, p: nat)
    requires Feeds(log, q, until, all) && NeverAhead(q, until, all, Cap(limit), arrivals)
    ensures PageIs(log, arrivals, q, until, all, limit, p)
  {
    OffersAfter(log, arrivals, q, until, all, Cap(limit), p);
    assert Behind(q, until, all, Cap(limit), arrivals, p);
    OfferedPage(log, arrivals, q, until, all, limit, p);
  }

  /** The p-th page request, after whatever other writers have appended: the next rows of the
      listing, wherever the cursor stands. */
  method NextPage(store: AuditStore, q: Query, until: Option<int>, cursor: Cursor, limit: int,
                  arrivals: Arrivals, p: nat, ghost base: Log, ghost all: seq<AuditEvent>)
    returns (page: seq<AuditEvent>, next: Cursor)
    requires Feeds(base, q, until, all) && NeverAhead(q, until, all, Cap(limit), arrivals)
    requires AfterCalls(store.log, base, arrivals, p)
    requires cursor == CursorAfter(all, until, Reached(|all|, Cap(limit), p))
    modifies store
    ensures AfterCalls(store.log, base, arrivals, p + 1)
    ensures var k, n := Reached(|all|, Cap(limit), p), Reached(|all|, Cap(limit), p + 1);
            k <= n && page == all[k..n] && next == CursorAfter(all, until, n)
  {
    EveryPageIsNext(base, arrivals, q, until, all, limit, p);
    store.Interfere(arrivals(p));
    page := store.ListEvents(q, cursor, limit);
    next := NextCursor(page, cursor);
  }

  /** An export of n rows that has had only full pages. */
  ghost predicate OnCourse(n: nat, limit: nat, count: nat, pages: nat) {
    count == Reached(n, limit, pages)
    && (pages > 0 ==> count == Reached(n, limit, pages - 1) + limit)
  }

  lemma {:induction false} FullPages(n: nat, limit: nat, count: nat, pages: nat)
    requires limit > 0 && OnCourse(n, limit, count, pages)
    ensures Pages(n, limit) == pages + Pages(n - count, limit)
  {
    if pages > 0 { FullPages(n, limit, Reached(n, limit, pages - 1), pages - 1); }
  }

  /** The count of rows and pages an export ends with. */
  ghost predicate Finished(n: nat, allPages: bool, limit: nat, count: nat, pages: nat) {
    if allPages then count == n && pages == Pages(n, limit)
    else count == Min(limit, n) && pages == 1
  }

  /** After a full page the export goes on, after a short one, or its only one, it is finished. */
  lemma CourseStep(n: nat, limit: nat, allPages: bool, count: nat, pages: nat, m: nat)
    requires limit > 0 && OnCourse(n, limit, count, pages) && (allPages || pages == 0)
    requires count + m == Reached(n, limit, pages + 1)
    ensures if !allPages || m < limit then Finished(n, allPages, limit, count + m, pages + 1)
            else m > 0 && OnCourse(n, limit, count + m, pages + 1)
  {
    FullPages(n, limit, count, pages);
  }

  /** The running statistics are those of the first rows of the listing. */
  ghost predicate Tallied(line: AuditEvent -> seq<Byte>, all: seq<AuditEvent>, s: Stats) {
    s.count <= |all| && s == StatsOf(line, all[..s.count], s.pages)
  }

  /** Counting a page, writing its lines and folding them into the running statistics. */
  method WritePage(line: AuditEvent -> seq<Byte>, page: seq<AuditEvent>,
                   ghost all: seq<AuditEvent>, file: seq<Byte>, s: Stats)
    returns (file': seq<Byte>, s': Stats)
    requires Descending(all) && Tallied(line, all, s) && file == s.digested
    requires s.count + |page| <= |all| && page == all[s.count..s.count + |page|]
    ensures Tallied(line, all, s') && file' == s'.digested
    ensures s'.count == s.count + |page| && s'.pages == s.pages + 1
  {
    var pages := s.pages + 1;
    var digest, count: nat, byteCount: nat := s.digested, s.count, s.byteCount;
    var newest, oldest := s.newest, s.oldest;
    file' := file;
    for i := 0 to |page|
      invariant count == s.count + i && file' == digest
      invariant Stats(count, pages, byteCount, digest, newest, oldest)
                == StatsOf(line, all[..count], pages)
    {
      assert page[i] == all[count];
      StatsSnoc(line, all, count, pages);
      var bytes := line(page[i]);
      file' := file' + bytes;
      digest := digest + bytes;
      newest := Later(newest, page[i].at);
      oldest := Earlier(oldest, page[i].at);
      count := count + 1;
      byteCount := byteCount + |bytes|;
    }
    s' := Stats(count, pages, byteCount, digest, newest, oldest);
  }

  lemma ExportEnds(line: AuditEvent -> seq<Byte>, all: seq<AuditEvent>, allPages: bool, limit: int,
                   file: seq<Byte>, s: Stats)
    requires Written(all, Cap(limit), allPages, line, file, s)
    ensures var rows := all[..ExportSize(|all|, allPages, limit)];
            file == JsonlBytes(line, rows)
            && s == StatsOf(line, rows, ExportPages(|all|, allPages, limit))
  {}

  lemma ListingFacts(log: Log, q: Query, until: Option<int>)
    requires Keyed(log)
    ensures Descending(Rows(Window(log, q, until), false))
    ensures |Rows(Window(log, q, until), false)| == |Window(log, q, until)|
    ensures |Rows(Window(log, q, until), false)| == |Sorted(Stamps(Window(log, q, until)), true)|
  {
    var w := Window(log, q, until);
    RowsAreComplete(w, false);
    StampsCount(w);
    SortedFacts(Stamps(w), true);
    forall i, j ensures NotEarlier(Rows(w, false), i, j) {
      if 0 <= i < j < |Rows(w, false)| { RowsDescend(w, i, j); }
    }
  }

  /** The listing an export writes, in the fields of events: every stored event of the tenant that
      has the workspace, action and resource type asked for, is no older than `since` and older
      than `until`, and no other. */
  lemma FeedInFields(log: Log, q: Query, until: Option<int>, all: seq<AuditEvent>)
    requires Feeds(log, q, until, all)
    ensures forall e :: e in all <==>
              e.id in log && log[e.id] == e && e.tenant == q.tenant
              && (q.workspace.Some? ==> e.workspace == q.workspace)
              && (q.action.Some? ==> e.action == q.action.value)
              && (q.resourceType.Some? ==> e.resourceType == q.resourceType.value)
              && (q.since.Some? ==> q.since.value <= e.at)
              && (until.Some? ==> e.at < until.value)
    ensures forall i, j :: 0 <= i < j < |all| ==> all[i] != all[j]
  {
    var w := Window(log, q, until);
    RowsAreComplete(w, false);
    forall e: AuditEvent ensures e in all <==> e.id in w && log[e.id] == e {
      WindowInFields(log, q, until, e.id);
      assert e in w.Values <==> e.id in w && w[e.id] == e;
    }
    forall e: AuditEvent { WindowInFields(log, q, until, e.id); }
    forall i, j | 0 <= i < j < |all| ensures all[i] != all[j] { RowsDescend(w, i, j); }
  }

  lemma FeedDescends(log: Log, q: Query, until: Option<int>, all: seq<AuditEvent>)
    requires Feeds(log, q, until, all)
    ensures Descending(all)
  {
    ListingFacts(log, q, until);
  }

  /** The export loop between two pages: the file and the statistics cover the rows so far. */
  ghost predicate Writing(all: seq<AuditEvent>, limit: nat, allPages: bool,
                          line: AuditEvent -> seq<Byte>, file: seq<Byte>, s: Stats)
  {
    OnCourse(|all|, limit, s.count, s.pages) && (allPages || s.pages == 0)
    && Tallied(line, all, s) && file == s.digested
  }

  ghost predicate Written(all: seq<AuditEvent>, limit: nat, allPages: bool,
                          line: AuditEvent -> seq<Byte>, file: seq<Byte>, s: Stats)
  {
    Finished(|all|, allPages, limit, s.count, s.pages)
    && Tallied(line, all, s) && file == s.digested
  }

  /** What a page does to the file: the loop goes on with a full page, and ends with another. */
  method TakePage(ghost all: seq<AuditEvent>, pageLimit: nat, allPages: bool, line: AuditEvent -> seq<Byte>,
                  page: seq<AuditEvent>, file: seq<Byte>, s: Stats)
    returns (file': seq<Byte>, s': Stats)
    requires pageLimit > 0 && Descending(all) && Writing(all, pageLimit, allPages, line, file, s)
    requires s.count + |page| == Reached(|all|, pageLimit, s.pages + 1)
    requires page == all[s.count..s.count + |page|]
    ensures s'.pages == s.pages + 1 && s'.count == s.count + |page|
    ensures if !allPages || |page| < pageLimit
            then Written(all, pageLimit, allPages, line, file', s')
            else |page| > 0 && Writing(all, pageLimit, allPages, line, file', s')
  {
    CourseStep(|all|, pageLimit, allPages, s.count, s.pages, |page|);
    file', s' := WritePage(line, page, all, file, s);
  }

  /** One turn of the export loop; `last` says that it ends there. */
  method ExportPage(store: AuditStore, q: Query, until: Option<int>, cursor: Cursor, pageLimit: nat,
                    allPages: bool, line: AuditEvent -> seq<Byte>, arrivals: Arrivals,
                    file: seq<Byte>, s: Stats, ghost base: Log, ghost all: seq<AuditEvent>)
    returns (last: bool, next: Cursor, file': seq<Byte>, s': Stats)
    requires pageLimit == Cap(pageLimit) && Feeds(base, q, until, all) && Descending(all)
    requires NeverAhead(q, until, all, pageLimit, arrivals)
    requires AfterCalls(store.log, base, arrivals, s.pages)
    requires Writing(all, pageLimit, allPages, line, file, s)
    requires cursor == CursorAfter(all, until, s.count)
    modifies store
    ensures AfterCalls(store.log, base, arrivals, s'.pages)
    ensures if last then Written(all, pageLimit, allPages, line, file', s')
            else s'.count > s.count && Writing(all, pageLimit, allPages, line, file', s')
                 && next == CursorAfter(all, until, s'.count)
  {
    var page;
    page, next := NextPage(store, q, until, cursor, pageLimit, arrivals, s.pages, base, all);
    file', s' := TakePage(all, pageLimit, allPages, line, page, file, s);
    last := !allPages || |page| < pageLimit;
  }

  /** The loop of the streaming exporter. */
  method WritePages(store: AuditStore, q: Query, until: Option<int>, pageLimit: nat, allPages: bool,
                    line: AuditEvent -> seq<Byte>, arrivals: Arrivals, ghost all: seq<AuditEvent>)
    returns (file: seq<Byte>, stats: Stats)
    requires pageLimit == Cap(pageLimit) && Feeds(store.log, q, until, all)
    requires NeverAhead(q, until, all, pageLimit, arrivals)
    modifies store
    ensures AfterCalls(store.log, old(store.log), arrivals, stats.pages)
    ensures Written(all, pageLimit, allPages, line, file, stats)
  {
    ghost var base := store.log;
    FeedDescends(base, q, until, all);
    var cursor := Cursor(until, None);
    stats := Stats(0, 0, 0, [], None, None);
    file := [];
    while true
      invariant AfterCalls(store.log, base, arrivals, stats.pages)
      invariant Writing(all, pageLimit, allPages, line, file, stats)
      invariant cursor == CursorAfter(all, until, stats.count)
      decreases |all| - stats.count
    {
      var last;
      last, cursor, file, stats := ExportPage(store, q, until, cursor, pageLimit, allPages, line,
                                              arrivals, file, stats, base, all);
      if last { break; }
    }
  }

  /** The streaming exporter. Whatever the page size, however many events share a timestamp, and
      whatever is appended meanwhile outside the window or, in a live export, at the end of the
      listing that is already written, the file is the newest-first listing the window had at the
      start, once each, and the running statistics are those of the finished list. */
  method WriteEvents(store: AuditStore, q: Query, until: Option<int>, limit: int, batchSize: int,
                     allPages: bool, line: AuditEvent -> seq<Byte>, arrivals: Arrivals,
                     ghost all: seq<AuditEvent>)
    returns (file: seq<Byte>, stats: Stats)
    requires Feeds(store.log, q, until, all)
    requires NeverAhead(q, until, all, Cap(if allPages then batchSize else limit), arrivals)
    modifies store
    ensures AfterCalls(store.log, old(store.log), arrivals, stats.pages)
    ensures var size := if allPages then batchSize else limit;
            var rows := all[..ExportSize(|all|, allPages, size)];
            file == JsonlBytes(line, rows)
            && stats == StatsOf(line, rows, ExportPages(|all|, allPages, size))
    ensures allPages ==> file == JsonlBytes(line, all) && stats.count == |all|
    ensures !allPages ==> stats.count == Min(Cap(limit), |all|) && stats.pages == 1
    ensures forall e :: e in all <==>
              e.id in old(store.log) && old(store.log)[e.id] == e && e.tenant == q.tenant
              && (q.workspace.Some? ==> e.workspace == q.workspace)
              && (q.action.Some? ==> e.action == q.action.value)
              && (q.resourceType.Some? ==> e.resourceType == q.resourceType.value)
              && (q.since.Some? ==> q.since.value <= e.at)
              && (until.Some? ==> e.at < until.value)
  {
    FeedInFields(store.log, q, until, all);
    var pageLimit := Cap(if allPages then batchSize else limit);
    file, stats := WritePages(store, q, until, pageLimit, allPages, line, arrivals, all);
    ExportEnds(line, all, allPages, if allPages then batchSize else limit, file, stats);
    assert all[..|all|] == all;
  }

  lemma PagesJoin(all: seq<AuditEvent>, rows: seq<AuditEvent>, page: seq<AuditEvent>)
    requires |rows| + |page| <= |all| && rows == all[..|rows|]
    requires page == all[|rows|..|rows| + |page|]
    ensures rows + page == all[..|rows| + |page|]
  {}

  /** The loop of the simple exporter. */
  method CollectPages(store: AuditStore, q: Query, until: Option<int>, pageLimit: nat,
                      arrivals: Arrivals, ghost all: seq<AuditEvent>)
    returns (rows: seq<AuditEvent>, pages: nat)
    requires pageLimit == Cap(pageLimit) && Feeds(store.log, q, until, all)
    requires NeverAhead(q, until, all, pageLimit, arrivals)
    modifies store
    ensures AfterCalls(store.log, old(store.log), arrivals, pages)
    ensures rows == all && pages == Pages(|all|, pageLimit)
  {
    ghost var base := store.log;
    var cursor := Cursor(until, None);
    rows, pages := [], 0;
    while true
      invariant AfterCalls(store.log, base, arrivals, pages)
      invariant OnCourse(|all|, pageLimit, |rows|, pages) && rows == all[..|rows|]
      invariant cursor == CursorAfter(all, until, |rows|)
      decreases |all| - |rows|
    {
      var page;
      page, cursor := NextPage(store, q, until, cursor, pageLimit, arrivals, pages, base, all);
      CourseStep(|all|, pageLimit, true, |rows|, pages, |page|);
      PagesJoin(all, rows, page);
      pages := pages + 1;
      rows := rows + page;
      if |page| < pageLimit { break; }
    }
    assert all[..|all|] == all;
  }

  /** The simple exporter's row list: the same rows and page count. */
  method CollectEvents(store: AuditStore, q: Query, until: Option<int>, limit: int, batchSize: int,
                       allPages: bool, arrivals: Arrivals, ghost all: seq<AuditEvent>)
    returns (rows: seq<AuditEvent>, pages: nat)
    requires Feeds(store.log, q, until, all)
    requires NeverAhead(q, until, all, Cap(if allPages then batchSize else limit), arrivals)
    modifies store
    ensures AfterCalls(store.log, old(store.log), arrivals, pages)
    ensures var size := if allPages then batchSize else limit;
            rows == all[..ExportSize(|all|, allPages, size)]
            && pages == ExportPages(|all|, allPages, size)
    ensures if allPages then rows == all else rows == all[..Min(Cap(limit), |all|)] && pages == 1
    ensures forall e :: e in all <==>
              e.id in old(store.log) && old(store.log)[e.id] == e && e.tenant == q.tenant
              && (q.workspace.Some? ==> e.workspace == q.workspace)
              && (q.action.Some? ==> e.action == q.action.value)
              && (q.resourceType.Some? ==> e.resourceType == q.resourceType.value)
              && (q.since.Some? ==> q.since.value <= e.at)
              && (until.Some? ==> e.at < until.value)
  {
    FeedInFields(store.log, q, until, all);
    if !allPages {
      var next;
      rows, next := NextPage(store, q, until, Cursor(until, None), limit, arrivals, 0, store.log, all);
      CourseStep(|all|, Cap(limit), false, 0, 0, |rows|);
      return rows, 1;
    }
    rows, pages := CollectPages(store, q, until, Cap(batchSize), arrivals, all);
    assert all[..|all|] == all;
  }

  // ---------------------------------------------------------------- retention

  /** The due rows the log has left are all but the k oldest of `at`. */
  ghost predicate Left(log: Log, q: Query, cutoff: int, at: seq<Stamp>, k: nat) {
    Keyed(log) && k <= |at| && Sorted(Stamps(Window(log, q, Some(cutoff))), true) == at[k..]
  }

  predicate DueOrSame(log: Log, was: Log, q: Query, cutoff: int, id: Uuid) {
    (id in was ==> (id in log && log[id] == was[id]) || InWindow(q, Some(cutoff), was[id])) &&
    (id in log && InWindow(q, Some(cutoff), log[id]) ==> id in was && was[id] == log[id])
  }

  /** Only due rows have gone, and no due row has come. */
  ghost predicate OnlyDueGone(log: Log, was: Log, q: Query, cutoff: int) {
    forall id :: DueOrSame(log, was, q, cutoff, id)
  }

  lemma ArrivalsKeep(log: Log, was: Log, q: Query, cutoff: int, at: seq<Stamp>, k: nat,
                     arrived: seq<AuditEvent>)
    requires Left(log, q, cutoff, at, k) && OnlyDueGone(log, was, q, cutoff)
    requires Outside(q, Some(cutoff), arrived)
    ensures Left(Absorb(log, arrived), q, cutoff, at, k)
    ensures OnlyDueGone(Absorb(log, arrived), was, q, cutoff)
  {
    AbsorbKeepsWindow(log, q, Some(cutoff), arrived);
    var log' := Absorb(log, arrived);
    forall id ensures DueOrSame(log', was, q, cutoff, id) {
      assert DueOrSame(log, was, q, cutoff, id);
      if id in log' && InWindow(q, Some(cutoff), log'[id]) {
        assert id in Window(log', q, Some(cutoff));
      }
    }
  }

  lemma {:induction false} ArrivalsKeepDue(was: Log, q: Query, cutoff: int, at: seq<Stamp>,
                                           arrivals: Arrivals, n: nat)
    requires Left(was, q, cutoff, at, 0) && Harmless(q, Some(cutoff), arrivals)
    ensures Left(LogAfter(was, arrivals, n), q, cutoff, at, 0)
    ensures OnlyDueGone(LogAfter(was, arrivals, n), was, q, cutoff)
  {
    if n > 0 {
      ArrivalsKeepDue(was, q, cutoff, at, arrivals, n - 1);
      ArrivalsKeep(LogAfter(was, arrivals, n - 1), was, q, cutoff, at, 0, arrivals(n - 1));
    }
  }

  lemma BatchKeepsDue(log: Log, was: Log, q: Query, cutoff: int, limit: int)
    requires Keyed(log) && OnlyDueGone(log, was, q, cutoff)
    ensures OnlyDueGone(PruneLog(log, q, cutoff, limit), was, q, cutoff)
  {
    var log' := PruneLog(log, q, cutoff, limit);
    WithoutKeepsOthers(log, q, cutoff, limit);
    forall id ensures DueOrSame(log', was, q, cutoff, id) {
      assert DueOrSame(log, was, q, cutoff, id);
      if id in log && !InWindow(q, Some(cutoff), log[id]) {
        assert id !in Window(log, q, Some(cutoff));
      }
    }
  }

  lemma BatchTakes(log: Log, was: Log, q: Query, cutoff: int, at: seq<Stamp>, k: nat, limit: int)
    requires Left(log, q, cutoff, at, k) && OnlyDueGone(log, was, q, cutoff)
    ensures |Doomed(log, q, cutoff, limit)| == Min(Cap(limit), |at| - k)
    ensures Left(PruneLog(log, q, cutoff, limit), q, cutoff, at, k + Min(Cap(limit), |at| - k))
    ensures OnlyDueGone(PruneLog(log, q, cutoff, limit), was, q, cutoff)
  {
    PruneTakesOldest(log, q, cutoff, limit);
    WithoutKeepsOthers(log, q, cutoff, limit);
    BatchKeepsDue(log, was, q, cutoff, limit);
    var took := Min(Cap(limit), |at| - k);
    assert at[k..][took..] == at[k + took..];
  }

  datatype Report = Report(ok: bool, exported: nat, verified: bool, pruned: nat)

  function Rounds(maxBatches: int): nat {
    if maxBatches < 1 then 1 else maxBatches
  }

  /** The log after i prune batches, each preceded by the arrivals before it. */
  ghost function PruneRounds(log: Log, q: Query, cutoff: int, limit: int, arrivals: Arrivals,
                             i: nat): Log
  {
    if i == 0 then log
    else PruneLog(Absorb(PruneRounds(log, q, cutoff, limit, arrivals, i - 1), arrivals(i - 1)),
                  q, cutoff, limit)
  }

  /** How many of n due rows i batches have taken. */
  function Took(n: nat, limit: int, i: nat): (t: nat)
    ensures t <= n
  {
    if i == 0 then 0 else var t := Took(n, limit, i - 1); t + Min(Cap(limit), n - t)
  }

  /** Batch after batch the clamped limit, until none is left. */
  lemma {:induction false} TookIsProduct(n: nat, limit: int, i: nat)
    ensures Took(n, limit, i) == Min(i * Cap(limit), n)
  {
    if i > 0 {
      TookIsProduct(n, limit, i - 1);
      assert i * Cap(limit) == (i - 1) * Cap(limit) + Cap(limit);
    }
  }

  /** Only due rows have gone, the k oldest of them. */
  ghost predicate Pruned(log: Log, was: Log, q: Query, cutoff: int, at: seq<Stamp>, k: nat) {
    Left(log, q, cutoff, at, k) && OnlyDueGone(log, was, q, cutoff)
  }

  lemma RoundTakes(log: Log, was: Log, q: Query, cutoff: int, limit: int, at: seq<Stamp>, k: nat,
                   arrived: seq<AuditEvent>)
    requires Pruned(log, was, q, cutoff, at, k) && Outside(q, Some(cutoff), arrived)
    ensures Keyed(Absorb(log, arrived))
    ensures |Doomed(Absorb(log, arrived), q, cutoff, limit)| == Min(Cap(limit), |at| - k)
    ensures Pruned(PruneLog(Absorb(log, arrived), q, cutoff, limit), was, q, cutoff, at,
                   k + Min(Cap(limit), |at| - k))
  {
    ArrivalsKeep(log, was, q, cutoff, at, k, arrived);
    BatchTakes(Absorb(log, arrived), was, q, cutoff, at, k, limit);
  }

  /** After i batches, exactly the oldest due rows are gone. */
  ghost predicate PrunedAt(log: Log, was: Log, q: Query, cutoff: int, limit: int,
                           arrivals: Arrivals, at: seq<Stamp>, i: nat)
  {
    Pruned(PruneRounds(log, q, cutoff, limit, arrivals, i), was, q, cutoff, at, Took(|at|, limit, i))
  }

  lemma NextRound(log: Log, was: Log, q: Query, cutoff: int, limit: int, arrivals: Arrivals,
                  at: seq<Stamp>, i: nat)
    requires PrunedAt(log, was, q, cutoff, limit, arrivals, at, i)
    requires Outside(q, Some(cutoff), arrivals(i))
    ensures PrunedAt(log, was, q, cutoff, limit, arrivals, at, i + 1)
  {
    RoundTakes(PruneRounds(log, q, cutoff, limit, arrivals, i), was, q, cutoff, limit, at,
               Took(|at|, limit, i), arrivals(i));
  }

  lemma {:induction false} Reaches(p: nat -> bool, i: nat)
    requires p(0) && forall k: nat :: p(k) ==> p(k + 1)
    ensures p(i)
  {
    if i > 0 { Reaches(p, i - 1); }
  }

  lemma RoundsFrom(log: Log, was: Log, q: Query, cutoff: int, limit: int, arrivals: Arrivals,
                   at: seq<Stamp>, i: nat)
    requires PrunedAt(log, was, q, cutoff, limit, arrivals, at, 0)
    requires Harmless(q, Some(cutoff), arrivals)
    ensures PrunedAt(log, was, q, cutoff, limit, arrivals, at, i)
  {
    ghost var p := (k: nat) => PrunedAt(log, was, q, cutoff, limit, arrivals, at, k);
    forall k: nat | p(k) ensures p(k + 1) {
      NextRound(log, was, q, cutoff, limit, arrivals, at, k);
    }
    Reaches(p, i);
  }

  /** After any number of batches exactly the oldest due rows are gone. */
  lemma RoundsTakeOldest(log: Log, was: Log, q: Query, cutoff: int, limit: int,
                         arrivals: Arrivals, at: seq<Stamp>, i: nat)
    requires Pruned(log, was, q, cutoff, at, 0) && Harmless(q, Some(cutoff), arrivals)
    ensures Pruned(PruneRounds(log, q, cutoff, limit, arrivals, i), was, q, cutoff, at,
                   Took(|at|, limit, i))
  {
    RoundsFrom(log, was, q, cutoff, limit, arrivals, at, i);
  }

  /** The i-th batch takes what is left of the due rows, up to its limit. */
  ghost predicate TakesShare(base: Log, q: Query, cutoff: int, limit: int, arrivals: Arrivals,
                             due: nat, i: nat)
  {
    var log := Absorb(PruneRounds(base, q, cutoff, limit, arrivals, i), arrivals(i));
    Keyed(log)
    && |Doomed(log, q, cutoff, limit)| == Min(Cap(limit), due - Took(due, limit, i))
  }

  ghost predicate Shared(base: Log, q: Query, cutoff: int, limit: int, arrivals: Arrivals, due: nat) {
    forall i: nat :: TakesShare(base, q, cutoff, limit, arrivals, due, i)
  }

  lemma EveryBatchTakesShare(base: Log, was: Log, q: Query, cutoff: int, limit: int,
                             arrivals: Arrivals, at: seq<Stamp>)
    requires Pruned(base, was, q, cutoff, at, 0) && Harmless(q, Some(cutoff), arrivals)
    ensures Shared(base, q, cutoff, limit, arrivals, |at|)
  {
    forall i: nat ensures TakesShare(base, q, cutoff, limit, arrivals, |at|, i) {
      RoundsTakeOldest(base, was, q, cutoff, limit, arrivals, at, i);
      RoundTakes(PruneRounds(base, q, cutoff, limit, arrivals, i), was, q, cutoff, limit, at,
                 Took(|at|, limit, i), arrivals(i));
    }
  }

  /** The log after i batches. */
  ghost predicate AfterRounds(log: Log, base: Log, q: Query, cutoff: int, limit: int,
                              arrivals: Arrivals, i: nat)
  {
    log == PruneRounds(base, q, cutoff, limit, arrivals, i)
  }

  method PruneRound(store: AuditStore, q: Query, cutoff: int, batchSize: int, arrivals: Arrivals,
                    i: nat, ghost base: Log, ghost due: nat)
    returns (deleted: nat)
    requires Shared(base, q, cutoff, batchSize, arrivals, due)
    requires AfterRounds(store.log, base, q, cutoff, batchSize, arrivals, i)
    modifies store
    ensures AfterRounds(store.log, base, q, cutoff, batchSize, arrivals, i + 1)
    ensures Took(due, batchSize, i + 1) == Took(due, batchSize, i) + deleted
    ensures deleted < Cap(batchSize) ==> Took(due, batchSize, i + 1) == due
  {
    assert TakesShare(base, q, cutoff, batchSize, arrivals, due, i);
    store.Interfere(arrivals(i));
    deleted := store.PruneEvents(q, cutoff, batchSize);
  }

  /** The loop itself, whose batches take their shares of the due rows. */
  method PruneBatches(store: AuditStore, q: Query, cutoff: int, batchSize: int, maxBatches: int,
                      arrivals: Arrivals, ghost due: nat)
    returns (pruned: nat, drained: bool, ghost rounds: nat)
    requires Shared(store.log, q, cutoff, batchSize, arrivals, due)
    modifies store
    ensures AfterRounds(store.log, old(store.log), q, cutoff, batchSize, arrivals, rounds)
    ensures pruned == Took(due, batchSize, rounds)
    ensures if drained then pruned == due else rounds == Rounds(maxBatches)
  {
    ghost var base := store.log;
    pruned, drained, rounds := 0, false, 0;
    for i := 0 to Rounds(maxBatches)
      invariant !drained && rounds == i
      invariant AfterRounds(store.log, base, q, cutoff, batchSize, arrivals, i)
      invariant pruned == Took(due, batchSize, i)
    {
      var deleted := PruneRound(store, q, cutoff, batchSize, arrivals, i, base, due);
      pruned := pruned + deleted;
      rounds := rounds + 1;
      if deleted < Cap(batchSize) {
        drained := true;
        break;
      }
    }
  }

  /** The prune loop: batches of the oldest due rows until one comes back short, which happens
      only once no due row is left, or until the allowance of batches is used up. */
  method PruneLoop(store: AuditStore, q: Query, cutoff: int, batchSize: int, maxBatches: int,
                   arrivals: Arrivals, ghost was: Log, ghost at: seq<Stamp>)
    returns (pruned: nat, drained: bool, ghost rounds: nat)
    requires Pruned(store.log, was, q, cutoff, at, 0) && Harmless(q, Some(cutoff), arrivals)
    modifies store
    ensures AfterRounds(store.log, old(store.log), q, cutoff, batchSize, arrivals, rounds)
    ensures pruned == Took(|at|, batchSize, rounds)
    ensures if drained then pruned == |at| else rounds == Rounds(maxBatches)
  {
    EveryBatchTakesShare(store.log, was, q, cutoff, batchSize, arrivals, at);
    pruned, drained, rounds := PruneBatches(store, q, cutoff, batchSize, maxBatches, arrivals, |at|);
  }

  // ---------------------------------------------------------------- what the job leaves alone

  predicate AgreeOn(a: Log, b: Log, id: Uuid) {
    (id in a <==> id in b) && (id in a ==> a[id] == b[id])
  }

  /** The two logs differ at most in the events of a window. */
  ghost predicate SameOutside(a: Log, b: Log, w: Log) {
    forall id :: id !in w ==> AgreeOn(a, b, id)
  }

  lemma {:induction false} AbsorbSame(a: Log, b: Log, w: Log, arrived: seq<AuditEvent>)
    requires SameOutside(a, b, w)
    ensures SameOutside(Absorb(a, arrived), Absorb(b, arrived), w)
    decreases |arrived|
  {
    if arrived != [] {
      AbsorbSame(Ledger.AddAudit(a, Some(arrived[0])), Ledger.AddAudit(b, Some(arrived[0])), w,
                 arrived[1..]);
    }
  }

  lemma PruneSame(log: Log, was: Log, q: Query, cutoff: int, limit: int)
    requires Keyed(log) && OnlyDueGone(log, was, q, cutoff)
    ensures SameOutside(PruneLog(log, q, cutoff, limit), log, Window(was, q, Some(cutoff)))
  {
    var log' := PruneLog(log, q, cutoff, limit);
    WithoutKeepsOthers(log, q, cutoff, limit);
    forall id | id !in Window(was, q, Some(cutoff)) ensures AgreeOn(log', log, id) {
      assert DueOrSame(log, was, q, cutoff, id);
      assert id !in Window(log, q, Some(cutoff));
    }
  }

  lemma SameOutsideTrans(a: Log, b: Log, c: Log, w: Log)
    requires SameOutside(a, b, w) && SameOutside(b, c, w)
    ensures SameOutside(a, c, w)
  {}

  /** One round more, pruned and unpruned. */
  lemma RoundLeavesOthers(now: Log, seen: Log, was: Log, q: Query, cutoff: int, limit: int,
                          at: seq<Stamp>, k: nat, arrived: seq<AuditEvent>)
    requires Pruned(now, was, q, cutoff, at, k) && Outside(q, Some(cutoff), arrived)
    requires SameOutside(now, seen, Window(was, q, Some(cutoff)))
    ensures SameOutside(PruneLog(Absorb(now, arrived), q, cutoff, limit), Absorb(seen, arrived),
                        Window(was, q, Some(cutoff)))
  {
    var w := Window(was, q, Some(cutoff));
    AbsorbSame(now, seen, w, arrived);
    ArrivalsKeep(now, was, q, cutoff, at, k, arrived);
    PruneSame(Absorb(now, arrived), was, q, cutoff, limit);
    SameOutsideTrans(PruneLog(Absorb(now, arrived), q, cutoff, limit), Absorb(now, arrived),
                     Absorb(seen, arrived), w);
  }

  /** Apart from events of the window, the pruned log is the log without any pruning. */
  lemma {:induction false} RoundsLeaveOthers(base: Log, was: Log, q: Query, cutoff: int, limit: int,
                                             arrivals: Arrivals, at: seq<Stamp>, i: nat)
    requires Pruned(base, was, q, cutoff, at, 0) && Harmless(q, Some(cutoff), arrivals)
    ensures SameOutside(PruneRounds(base, q, cutoff, limit, arrivals, i),
                        LogAfter(base, arrivals, i), Window(was, q, Some(cutoff)))
    decreases i
  {
    if i > 0 {
      RoundsLeaveOthers(base, was, q, cutoff, limit, arrivals, at, i - 1);
      RoundsTakeOldest(base, was, q, cutoff, limit, arrivals, at, i - 1);
      RoundLeavesOthers(PruneRounds(base, q, cutoff, limit, arrivals, i - 1),
                        LogAfter(base, arrivals, i - 1), was, q, cutoff, limit, at,
                        Took(|at|, limit, i - 1), arrivals(i - 1));
    }
  }

  /** What the pieces of the loop mean for the events themselves. */
  lemma RemainderMeaning(log: Log, was: Log, q: Query, cutoff: int, pruned: nat)
    requires Keyed(was) && OnlyDueGone(log, was, q, cutoff)
    requires Left(log, q, cutoff, Sorted(Stamps(Window(was, q, Some(cutoff))), true), pruned)
    ensures forall id :: id in was && id !in log ==>
              was[id] in Rows(Window(was, q, Some(cutoff)), false)
    ensures pruned + |Window(log, q, Some(cutoff))| == |Window(was, q, Some(cutoff))|
  {
    var w := Window(was, q, Some(cutoff));
    RowsAreComplete(w, false);
    forall id | id in was && id !in log ensures was[id] in Rows(w, false) {
      assert DueOrSame(log, was, q, cutoff, id);
      assert w[id] == was[id];
    }
    StampsCount(w);
    StampsCount(Window(log, q, Some(cutoff)));
    SortedFacts(Stamps(w), true);
    SortedFacts(Stamps(Window(log, q, Some(cutoff))), true);
  }

  lemma {:induction false} AbsorbGrows(log: Log, arrived: seq<AuditEvent>, id: Uuid)
    requires id in log
    ensures id in Absorb(log, arrived) && Absorb(log, arrived)[id] == log[id]
    decreases |arrived|
  {
    if arrived != [] { AbsorbGrows(Ledger.AddAudit(log, Some(arrived[0])), arrived[1..], id); }
  }

  lemma {:induction false} ArrivalsGrow(log: Log, arrivals: Arrivals, k: nat, id: Uuid)
    requires id in log
    ensures id in LogAfter(log, arrivals, k) && LogAfter(log, arrivals, k)[id] == log[id]
  {
    if k > 0 {
      ArrivalsGrow(log, arrivals, k - 1, id);
      AbsorbGrows(LogAfter(log, arrivals, k - 1), arrivals(k - 1), id);
    }
  }

  /** Everything the log would hold had the job only read it. */
  ghost function Seen(log: Log, whileExporting: Arrivals, pages: nat, whilePruning: Arrivals,
                      rounds: nat): Log
  {
    LogAfter(LogAfter(log, whileExporting, pages), whilePruning, rounds)
  }

  predicate KeptOrDue(log: Log, was: Log, seen: Log, tenant: Uuid, workspace: Option<Uuid>,
                      cutoff: int, id: Uuid)
  {
    id in seen && (id !in log || log[id] != seen[id]) ==>
      id in was && was[id] == seen[id] && seen[id].tenant == tenant && seen[id].at < cutoff
      && (workspace.Some? ==> seen[id].workspace == workspace)
  }

  /** What the job may delete, in the fields of events: of all the log would hold, only events of the
      tenant, of the workspace if one is given, dated before the cutoff and stored from the start. */
  ghost predicate DeletesOnlyDue(log: Log, was: Log, seen: Log, tenant: Uuid,
                                 workspace: Option<Uuid>, cutoff: int)
  {
    forall id :: KeptOrDue(log, was, seen, tenant, workspace, cutoff, id)
  }

  predicate IsDueEvent(was: Log, tenant: Uuid, workspace: Option<Uuid>, cutoff: int, e: AuditEvent) {
    e.id in was && was[e.id] == e && e.tenant == tenant && e.at < cutoff
    && (workspace.Some? ==> e.workspace == workspace)
  }

  /** The bundle's lines are those of the due events, each once, newest first. */
  ghost predicate BundlesDue(line: AuditEvent -> seq<Byte>, bundle: seq<Byte>, was: Log,
                             tenant: Uuid, workspace: Option<Uuid>, cutoff: int)
  {
    exists rows: seq<AuditEvent> :: bundle == JsonlBytes(line, rows)
      && (forall e :: e in rows <==> IsDueEvent(was, tenant, workspace, cutoff, e))
      && (forall i, j :: 0 <= i < j < |rows| ==> rows[i] != rows[j] && rows[i].at >= rows[j].at)
  }

  lemma BundleInFields(line: AuditEvent -> seq<Byte>, was: Log, tenant: Uuid,
                       workspace: Option<Uuid>, cutoff: int)
    requires Keyed(was)
    ensures BundlesDue(line, JsonlBytes(line, Rows(Window(was, PruneQuery(tenant, workspace), Some(cutoff)), false)),
                       was, tenant, workspace, cutoff)
  {
    var q := PruneQuery(tenant, workspace);
    var rows := Rows(Window(was, q, Some(cutoff)), false);
    FeedInFields(was, q, Some(cutoff), rows);
    FeedDescends(was, q, Some(cutoff), rows);
    forall i, j | 0 <= i < j < |rows| ensures rows[i].at >= rows[j].at {
      assert NotEarlier(rows, i, j);
    }
    assert forall e :: e in rows <==> IsDueEvent(was, tenant, workspace, cutoff, e);
  }

  lemma RetentionInFields(log: Log, was: Log, whileExporting: Arrivals, pages: nat,
                          whilePruning: Arrivals, rounds: nat, tenant: Uuid,
                          workspace: Option<Uuid>, cutoff: int)
    requires SameOutside(log, Seen(was, whileExporting, pages, whilePruning, rounds),
                         Window(was, PruneQuery(tenant, workspace), Some(cutoff)))
    ensures DeletesOnlyDue(log, was, Seen(was, whileExporting, pages, whilePruning, rounds), tenant,
                           workspace, cutoff)
  {
    var seen := Seen(was, whileExporting, pages, whilePruning, rounds);
    var w := Window(was, PruneQuery(tenant, workspace), Some(cutoff));
    forall id ensures KeptOrDue(log, was, seen, tenant, workspace, cutoff, id) {
      WindowInFields(was, PruneQuery(tenant, workspace), Some(cutoff), id);
      if id in w {
        ArrivalsGrow(was, whileExporting, pages, id);
        ArrivalsGrow(LogAfter(was, whileExporting, pages), whilePruning, rounds, id);
      } else {
        assert AgreeOn(log, seen, id);
      }
    }
  }

  /** What is left of the log that was, and of all it would hold had the job only read it. */
  ghost predicate JobKeeps(log: Log, was: Log, seen: Log, tenant: Uuid, workspace: Option<Uuid>,
                           cutoff: int, pruned: nat)
  {
    var q := PruneQuery(tenant, workspace);
    var w, left := Window(was, q, Some(cutoff)), Window(log, q, Some(cutoff));
    Keyed(log) && SameOutside(log, seen, w) && OnlyDueGone(log, was, q, cutoff)
    && Left(log, q, cutoff, Sorted(Stamps(w), true), pruned)
    && (forall id :: id in was && id !in log ==> was[id] in Rows(w, false))
    && pruned + |left| == |w| && (pruned == |w| ==> left == map[])
    && DeletesOnlyDue(log, was, seen, tenant, workspace, cutoff)
  }

  lemma JobMeaning(log: Log, was: Log, whileExporting: Arrivals, pages: nat, whilePruning: Arrivals,
                   rounds: nat, tenant: Uuid, workspace: Option<Uuid>, cutoff: int, pruned: nat)
    requires var q := PruneQuery(tenant, workspace);
             Keyed(was) && OnlyDueGone(log, was, q, cutoff)
             && Left(log, q, cutoff, Sorted(Stamps(Window(was, q, Some(cutoff))), true), pruned)
             && SameOutside(log, Seen(was, whileExporting, pages, whilePruning, rounds),
                            Window(was, q, Some(cutoff)))
    ensures JobKeeps(log, was, Seen(was, whileExporting, pages, whilePruning, rounds), tenant,
                     workspace, cutoff, pruned)
  {
    RemainderMeaning(log, was, PruneQuery(tenant, workspace), cutoff, pruned);
    RetentionInFields(log, was, whileExporting, pages, whilePruning, rounds, tenant, workspace, cutoff);
  }

  /** The retention job. `exportOk` and `verified` are the exit states of the export and verify
      subprocesses. No event outside the exported bundle is ever deleted or changed, events that
      other writers append while the job runs included; what goes of the exported ones are the
      oldest, as many as the report says; a loop that stops by its break has emptied the window;
      and without --apply, a successful export and a verified bundle nothing is deleted at all. */
  method RunRetention(store: AuditStore, tenant: Uuid, workspace: Option<Uuid>, cutoff: int,
                batchSize: int, maxBatches: int, apply: bool, exportOk: bool, verified: bool,
                line: AuditEvent -> seq<Byte>, whileExporting: Arrivals, whilePruning: Arrivals)
    returns (report: Report, bundle: seq<Byte>, drained: bool, ghost pages: nat, ghost rounds: nat)
    requires Keyed(store.log)
    requires Harmless(PruneQuery(tenant, workspace), Some(cutoff), whileExporting)
    requires Harmless(PruneQuery(tenant, workspace), Some(cutoff), whilePruning)
    modifies store
    ensures JobKeeps(store.log, old(store.log),
                     Seen(old(store.log), whileExporting, pages, whilePruning, rounds),
                     tenant, workspace, cutoff, report.pruned)
    ensures var w := Window(old(store.log), PruneQuery(tenant, workspace), Some(cutoff));
            (exportOk ==> bundle == JsonlBytes(line, Rows(w, false)) && report.exported == |w|)
            && (drained ==> report.pruned == |w|)
            && (report.pruned > 0 ==> exportOk && verified && apply)
            && (report.ok <==> exportOk && verified)
    ensures exportOk ==> BundlesDue(line, bundle, old(store.log), tenant, workspace, cutoff)
    ensures report.ok && apply && !drained ==>
              report.pruned == Took(report.exported, batchSize, Rounds(maxBatches))
  {
    var q := PruneQuery(tenant, workspace);
    ghost var was := store.log;
    ghost var all := Rows(Window(was, q, Some(cutoff)), false);
    ghost var at := Sorted(Stamps(Window(was, q, Some(cutoff))), true);
    ListingFacts(was, q, Some(cutoff));
    assert at[0..] == at;
    bundle, drained, pages, rounds := [], false, 0, 0;
    BundleInFields(line, was, tenant, workspace, cutoff);
    if !exportOk {
      JobMeaning(was, was, whileExporting, 0, whilePruning, 0, tenant, workspace, cutoff, 0);
      return Report(false, 0, false, 0), bundle, drained, pages, rounds;
    }
    var stats;
    HarmlessIsNeverAhead(was, q, Some(cutoff), all, Cap(batchSize), whileExporting);
    bundle, stats :=
      WriteEvents(store, q, Some(cutoff), 500, batchSize, true, line, whileExporting, all);
    pages := stats.pages;
    assert all[..|all|] == all;
    ghost var base := store.log;
    ArrivalsKeepDue(was, q, cutoff, at, whileExporting, pages);
    if !verified {
      JobMeaning(base, was, whileExporting, pages, whilePruning, 0, tenant, workspace, cutoff, 0);
      return Report(false, stats.count, false, 0), bundle, drained, pages, rounds;
    }
    var pruned := 0;
    if apply && stats.count != 0 {
      pruned, drained, rounds :=
        PruneLoop(store, q, cutoff, batchSize, maxBatches, whilePruning, was, at);
    }
    RoundsTakeOldest(base, was, q, cutoff, batchSize, whilePruning, at, rounds);
    RoundsLeaveOthers(base, was, q, cutoff, batchSize, whilePruning, at, rounds);
    JobMeaning(store.log, was, whileExporting, pages, whilePruning, rounds, tenant, workspace, cutoff, pruned);
    report := Report(true, stats.count, true, pruned);
  }
}
