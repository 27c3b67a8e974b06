/** The audit log: cursor-paged listing, the two exporters built on it, and batched pruning. */
module AuditTrail {
  import opened Basics
  import opened Uuids
  import opened Records
  import opened Ordering
  import Ledger

  type Log = map<Uuid, AuditEvent>
  type Byte = bv8

  datatype Query = Query(tenant: Uuid, workspace: Option<Uuid>, action: Option<string>,
                         resourceType: Option<string>, since: Option<int>)

  /** Where a page ends: created_before together with before_event_id. */
  datatype Cursor = Cursor(before: Option<int>, id: Option<Uuid>)

  ghost predicate Keyed(log: Log) {
    forall id {:trigger log[id]} :: id in log ==> log[id].id == id
  }

  predicate Allows<T(==)>(filter: Option<T>, value: T) {
    filter.None? || filter.value == value
  }

  predicate Selects(q: Query, e: AuditEvent) {
    e.tenant == q.tenant && (q.workspace.None? || e.workspace == q.workspace)
    && Allows(q.action, e.action) && Allows(q.resourceType, e.resourceType)
    && (q.since.None? || e.at >= q.since.value)
  }

  /** The cursor compares printed ids, as the repository does. */
  predicate Precursor(c: Cursor, e: AuditEvent) {
    c.before.None? || e.at < c.before.value
    || (c.id.Some? && e.at == c.before.value && StrLess(Str(e.id), Str(c.id.value)))
  }

  function StampOf(e: AuditEvent): Stamp {
    Stamp(e.at, e.id)
  }

  function Stamps(log: Log): (s: set<Stamp>) {
    set id | id in log :: StampOf(log[id])
  }

  function Matching(log: Log, q: Query, c: Cursor): Log {
    map id | id in log && Selects(q, log[id]) && Precursor(c, log[id]) :: log[id]
  }

  /** The rows under the given stamps, in the given order. */
  function RowsAt(log: Log, at: seq<Stamp>): seq<AuditEvent> {
    if at == [] then []
    else (if at[0].id in log then [log[at[0].id]] else []) + RowsAt(log, at[1..])
  }

  /** A log listed newest (or oldest) first. */
  function Rows(log: Log, up: bool): seq<AuditEvent> {
    RowsAt(log, Sorted(Stamps(log), up))
  }

  lemma {:induction false} RowsAtFacts(log: Log, at: seq<Stamp>)
    requires forall s :: s in at ==> s.id in log
    ensures |RowsAt(log, at)| == |at|
    ensures forall i :: 0 <= i < |at| ==> RowsAt(log, at)[i] == log[at[i].id]
  {
    if at != [] {
      RowsAtFacts(log, at[1..]);
      forall i | 0 < i < |at| ensures RowsAt(log, at)[i] == log[at[i].id] {
        assert at[1..][i - 1] == at[i];
      }
    }
  }

  /** The i-th row listed is the one under the i-th stamp. */
  lemma RowsFacts(log: Log, up: bool)
    requires Keyed(log)
    ensures var at := Sorted(Stamps(log), up);
            |Rows(log, up)| == |at|
            && forall i :: 0 <= i < |at| ==>
                 at[i].id in log && Rows(log, up)[i] == log[at[i].id] && StampOf(Rows(log, up)[i]) == at[i]
  {
    var at := Sorted(Stamps(log), up);
    StampsOwned(log, up);
    RowsAtFacts(log, at);
    assert forall i :: 0 <= i < |at| ==> at[i] in at;
  }

  lemma StampsOwned(log: Log, up: bool)
    requires Keyed(log)
    ensures forall s :: s in Sorted(Stamps(log), up) ==> s.id in log && StampOf(log[s.id]) == s
  {
    SortedFacts(Stamps(log), up);
    forall s | s in Sorted(Stamps(log), up) ensures s.id in log && StampOf(log[s.id]) == s {
      assert s in Elems(Sorted(Stamps(log), up));
    }
  }

  function Cap(limit: int): nat {
    if limit < 1 then 1 else if limit > 500 then 500 else limit
  }

  /** `AuditLogService.list_events`. */
  function ListPage(log: Log, q: Query, c: Cursor, limit: int): seq<AuditEvent> {
    var rows := Rows(Matching(log, q, c), false);
    rows[..Min(Cap(limit), |rows|)]
  }

  // ---------------------------------------------------------------- windows

  predicate InWindow(q: Query, until: Option<int>, e: AuditEvent) {
    Selects(q, e) && (until.None? || e.at < until.value)
  }

  /** The events an export bounded above by `until` is about. */
  function Window(log: Log, q: Query, until: Option<int>): Log {
    map id | id in log && InWindow(q, until, log[id]) :: log[id]
  }

  /** The first request's cursor, a time without an id, selects the window. */
  lemma FirstCursorIsWindow(log: Log, q: Query, until: Option<int>)
    ensures Matching(log, q, Cursor(until, None)) == Window(log, q, until)
  {}

  /** What a window holds, in the fields of events: those of the tenant, of the workspace, action
      and resource type if asked for, no older than `since` and older than `until`. */
  lemma WindowInFields(log: Log, q: Query, until: Option<int>, id: Uuid)
    ensures id in Window(log, q, until) <==>
            id in log && log[id].tenant == q.tenant
            && (q.workspace.Some? ==> log[id].workspace == q.workspace)
            && (q.action.Some? ==> log[id].action == q.action.value)
            && (q.resourceType.Some? ==> log[id].resourceType == q.resourceType.value)
            && (q.since.Some? ==> q.since.value <= log[id].at)
            && (until.Some? ==> log[id].at < until.value)
    ensures id in Window(log, q, until) ==> Window(log, q, until)[id] == log[id]
  {}

  lemma MatchingInFields(log: Log, q: Query, c: Cursor, id: Uuid)
    ensures id in Matching(log, q, c) <==>
            id in log && log[id].tenant == q.tenant
            && (q.workspace.Some? ==> log[id].workspace == q.workspace)
            && (q.action.Some? ==> log[id].action == q.action.value)
            && (q.resourceType.Some? ==> log[id].resourceType == q.resourceType.value)
            && (q.since.Some? ==> q.since.value <= log[id].at)
            && (c.before.None? || log[id].at < c.before.value
                || (log[id].at == c.before.value && c.id.Some? && log[id].id.n < c.id.value.n))
    ensures id in Matching(log, q, c) ==> Matching(log, q, c)[id] == log[id]
  {
    if id in log && c.id.Some? { StrOrder(log[id].id, c.id.value); }
  }

  /** A page holds at most the limit, taken as 1 below it and as 500 above. */
  lemma CapClamps(limit: int)
    ensures 1 <= Cap(limit) <= 500
    ensures (limit < 1 ==> Cap(limit) == 1) && (limit > 500 ==> Cap(limit) == 500)
    ensures 1 <= limit <= 500 ==> Cap(limit) == limit
  {}

  predicate Outside(q: Query, until: Option<int>, arrivals: seq<AuditEvent>) {
    forall i :: 0 <= i < |arrivals| ==> !InWindow(q, until, arrivals[i])
  }

  /** Appends made by other writers between two calls. */
  function Absorb(log: Log, arrivals: seq<AuditEvent>): Log
    decreases |arrivals|
  {
    if arrivals == [] then log else Absorb(Ledger.AddAudit(log, Some(arrivals[0])), arrivals[1..])
  }

  lemma {:induction false} AbsorbKeepsWindow(log: Log, q: Query, until: Option<int>,
                                             arrivals: seq<AuditEvent>)
    requires Keyed(log) && Outside(q, until, arrivals)
    ensures Keyed(Absorb(log, arrivals))
    ensures Window(Absorb(log, arrivals), q, until) == Window(log, q, until)
    ensures forall id :: id in log ==> id in Absorb(log, arrivals)
                                       && Absorb(log, arrivals)[id] == log[id]
    decreases |arrivals|
  {
    if arrivals != [] {
      var next := Ledger.AddAudit(log, Some(arrivals[0]));
      assert Window(next, q, until) == Window(log, q, until);
      AbsorbKeepsWindow(next, q, until, arrivals[1..]);
    }
  }

  /** Moving the cursor onto a row it selected leaves, of the rows it selected, exactly those that
      the newest-first listing has after that row. */
  lemma CursorCutsRest(log: Log, q: Query, c: Cursor, last: AuditEvent)
    requires Keyed(log) && last in Matching(log, q, c).Values
    ensures var rest := Matching(log, q, Cursor(Some(last.at), Some(last.id)));
            (forall id :: id in rest ==> id in Matching(log, q, c))
            && Stamps(rest) == set s | s in Stamps(Matching(log, q, c))
                                       && Precedes(false, StampOf(last), s)
  {
    var m := Matching(log, q, c);
    var rest := Matching(log, q, Cursor(Some(last.at), Some(last.id)));
    forall id | id in rest ensures id in m && Precedes(false, StampOf(last), StampOf(log[id])) {
      CursorMovesOn(c, last, log[id]);
    }
    forall s | s in Stamps(m) && Precedes(false, StampOf(last), s) ensures s in Stamps(rest) {
      var id :| id in m && StampOf(m[id]) == s;
      StrOrder(log[id].id, last.id);
      assert id in rest;
    }
  }

  lemma CursorMovesOn(c: Cursor, last: AuditEvent, e: AuditEvent)
    requires Precursor(c, last) && Precursor(Cursor(Some(last.at), Some(last.id)), e)
    ensures Precursor(c, e) && Precedes(false, StampOf(last), StampOf(e))
  {
    StrOrder(e.id, last.id);
    if c.id.Some? {
      StrOrder(last.id, c.id.value);
      StrOrder(e.id, c.id.value);
    }
  }

  /** A later cursor selects, out of the window, the rows the newest-first listing has after it. */
  lemma CursorCutsWindow(log: Log, q: Query, until: Option<int>, last: AuditEvent)
    requires Keyed(log) && last in Window(log, q, until).Values
    ensures Stamps(Matching(log, q, Cursor(Some(last.at), Some(last.id)))) ==
            set s | s in Stamps(Window(log, q, until)) && Precedes(false, StampOf(last), s)
  {
    FirstCursorIsWindow(log, q, until);
    CursorCutsRest(log, q, Cursor(until, None), last);
  }

  /** The cursor after the first k rows of a listing. */
  function CursorAfter(all: seq<AuditEvent>, until: Option<int>, k: nat): Cursor
    requires k <= |all|
  {
    if k == 0 then Cursor(until, None) else Cursor(Some(all[k - 1].at), Some(all[k - 1].id))
  }

  lemma RowsOfSuffix(w: Log, rest: Log, k: nat)
    requires Keyed(w) && Keyed(rest) && k <= |Sorted(Stamps(w), false)|
    requires forall id :: id in rest ==> id in w && w[id] == rest[id]
    requires Sorted(Stamps(rest), false) == Sorted(Stamps(w), false)[k..]
    ensures k <= |Rows(w, false)| && Rows(rest, false) == Rows(w, false)[k..]
  {
    RowsFacts(w, false);
    RowsFacts(rest, false);
  }

  /** The rows the log still has to offer to a cursor, newest first. */
  ghost predicate Offers(log: Log, q: Query, c: Cursor, rest: seq<AuditEvent>) {
    Keyed(log) && Rows(Matching(log, q, c), false) == rest
  }

  /** Moving the cursor onto the k-th row offered leaves the rows after it. */
  lemma OffersRest(log: Log, q: Query, c: Cursor, rest: seq<AuditEvent>, k: nat)
    requires Offers(log, q, c, rest) && 0 < k <= |rest|
    ensures Offers(log, q, Cursor(Some(rest[k - 1].at), Some(rest[k - 1].id)), rest[k..])
  {
    var m := Matching(log, q, c);
    var last := rest[k - 1];
    RowsFacts(m, false);
    CursorCutsRest(log, q, c, last);
    AfterCursor(Stamps(m), false, k);
    RowsOfSuffix(m, Matching(log, q, Cursor(Some(last.at), Some(last.id))), k);
  }

  /** Every page request, wherever its cursor stands, returns exactly the next rows. */
  lemma PageIsNextRows(log: Log, q: Query, until: Option<int>, k: nat, limit: int)
    requires Keyed(log) && k <= |Rows(Window(log, q, until), false)|
    ensures var all := Rows(Window(log, q, until), false);
            Offers(log, q, CursorAfter(all, until, k), all[k..])
            && ListPage(log, q, CursorAfter(all, until, k), limit)
               == all[k..Min(k + Cap(limit), |all|)]
  {
    var all := Rows(Window(log, q, until), false);
    FirstCursorIsWindow(log, q, until);
    if k > 0 { OffersRest(log, q, Cursor(until, None), all, k); }
    assert all[k..][..Min(Cap(limit), |all| - k)] == all[k..Min(k + Cap(limit), |all|)];
  }

  /** No arrival would be among the rows the cursor still selects. */
  predicate Unseen(q: Query, c: Cursor, arrivals: seq<AuditEvent>) {
    forall i :: 0 <= i < |arrivals| ==> !(Selects(q, arrivals[i]) && Precursor(c, arrivals[i]))
  }

  /** Arrivals at or before the cursor, in the order of the listing, are invisible to it. */
  lemma {:induction false} AbsorbKeepsOffer(log: Log, q: Query, c: Cursor, rest: seq<AuditEvent>,
                                            arrivals: seq<AuditEvent>)
    requires Offers(log, q, c, rest) && Unseen(q, c, arrivals)
    ensures Offers(Absorb(log, arrivals), q, c, rest)
    decreases |arrivals|
  {
    if arrivals != [] {
      var next := Ledger.AddAudit(log, Some(arrivals[0]));
      assert Matching(next, q, c) == Matching(log, q, c);
      AbsorbKeepsOffer(next, q, c, rest, arrivals[1..]);
    }
  }

  /** One page further, after arrivals. */
  lemma OffersNext(log: Log, q: Query, c: Cursor, rest: seq<AuditEvent>, arrived: seq<AuditEvent>,
                   j: nat)
    requires Offers(log, q, c, rest) && Unseen(q, c, arrived) && j <= |rest|
    ensures Offers(Absorb(log, arrived), q,
                   if j == 0 then c else Cursor(Some(rest[j - 1].at), Some(rest[j - 1].id)), rest[j..])
  {
    AbsorbKeepsOffer(log, q, c, rest, arrived);
    if j > 0 { OffersRest(Absorb(log, arrived), q, c, rest, j); } else { assert rest[0..] == rest; }
  }

  lemma RowOnPageIff(m: Log, up: bool, k: nat, id: Uuid)
    requires Keyed(m) && id in m && k <= |Rows(m, up)|
    ensures StampOf(m[id]) in Sorted(Stamps(m), up) && k <= |Sorted(Stamps(m), up)|
    ensures m[id] in Rows(m, up)[..k] <==> StampOf(m[id]) in Sorted(Stamps(m), up)[..k]
  {
    var rows, at := Rows(m, up), Sorted(Stamps(m), up);
    RowsFacts(m, up);
    SortedFacts(Stamps(m), up);
    assert StampOf(m[id]) in Elems(at);
    if m[id] in rows[..k] {
      var i :| 0 <= i < k && rows[i] == m[id];
      assert at[..k][i] == StampOf(m[id]);
    }
    if StampOf(m[id]) in at[..k] {
      var i :| 0 <= i < k && at[i] == StampOf(m[id]);
      assert rows[..k][i] == m[id];
    }
  }

  /** What a cut-off listing leaves out comes after all it holds. */
  lemma LeftOutIsLater(m: Log, up: bool, k: nat, id: Uuid, other: Uuid)
    requires Keyed(m) && id in m && k <= |Rows(m, up)| && m[id] !in Rows(m, up)[..k]
    requires other in m && m[other] in Rows(m, up)[..k]
    ensures Precedes(up, StampOf(m[other]), StampOf(m[id]))
  {
    RowOnPageIff(m, up, k, id);
    RowOnPageIff(m, up, k, other);
    SortedFacts(Stamps(m), up);
    NotOnPageIsLater(Sorted(Stamps(m), up), up, k, StampOf(m[other]), StampOf(m[id]));
  }

  /** Every event of a page is stored and has the fields asked for; events that have them are left
      out only behind a full page, and then every listed one is newer. */
  lemma PageInFields(log: Log, q: Query, c: Cursor, limit: int, id: Uuid)
    requires Keyed(log)
    ensures var page := ListPage(log, q, c, limit);
            var asked := id in log && log[id].tenant == q.tenant
                         && (q.workspace.Some? ==> log[id].workspace == q.workspace)
                         && (q.action.Some? ==> log[id].action == q.action.value)
                         && (q.resourceType.Some? ==> log[id].resourceType == q.resourceType.value)
                         && (q.since.Some? ==> q.since.value <= log[id].at)
                         && (c.before.None? || log[id].at < c.before.value
                             || (log[id].at == c.before.value && c.id.Some? && id.n < c.id.value.n));
            |page| <= Cap(limit)
            && (forall e :: e in page && e.id == id ==> asked && log[id] == e)
            && (asked && log[id] !in page ==>
                  |page| == Cap(limit)
                  && forall e :: e in page ==>
                       log[id].at < e.at || (log[id].at == e.at && id.n < e.id.n))
  {
    var m := Matching(log, q, c);
    RowsAreComplete(m, false);
    MatchingInFields(log, q, c, id);
    var page := ListPage(log, q, c, limit);
    forall e | e in page ensures e.id in m && m[e.id] == e {
      assert e in Rows(m, false);
    }
    if id in m && log[id] !in page {
      assert m[id] in Rows(m, false);
      forall e | e in page ensures log[id].at < e.at || (log[id].at == e.at && id.n < e.id.n) {
        LeftOutIsLater(m, false, |page|, id, e.id);
      }
    }
  }

  // ---------------------------------------------------------------- exports

  /** Serialized lines, concatenated: `_jsonl_bytes`. */
  function JsonlBytes(line: AuditEvent -> seq<Byte>, rows: seq<AuditEvent>): seq<Byte> {
    if rows == [] then []
    else JsonlBytes(line, rows[..|rows| - 1]) + line(rows[|rows| - 1])
  }

  /** `digested` is what the hash has been fed. */
  datatype Stats = Stats(count: nat, pages: nat, byteCount: nat, digested: seq<Byte>,
                         newest: Option<int>, oldest: Option<int>)

  function Later(t: Option<int>, at: int): Option<int> {
    if t.None? || t.value < at then Some(at) else t
  }

  function Earlier(t: Option<int>, at: int): Option<int> {
    if t.None? || at < t.value then Some(at) else t
  }

  /** What a simple exporter reports of a newest-first list of rows. */
  function StatsOf(line: AuditEvent -> seq<Byte>, rows: seq<AuditEvent>, pages: nat): Stats {
    var bytes := JsonlBytes(line, rows);
    Stats(|rows|, pages, |bytes|, bytes,
          if rows == [] then None else Some(rows[0].at),
          if rows == [] then None else Some(rows[|rows| - 1].at))
  }

  lemma RowsDescend(log: Log, i: nat, j: nat)
    requires Keyed(log) && i < j < |Rows(log, false)|
    ensures Rows(log, false)[i].at >= Rows(log, false)[j].at
    ensures Rows(log, false)[i] != Rows(log, false)[j]
  {
    SortedFacts(Stamps(log), false);
    RowsFacts(log, false);
    var at := Sorted(Stamps(log), false);
    assert Precedes(false, at[i], at[j]);
  }

  /** The listing has every event of the log once: no gap and no duplicate. */
  lemma RowsAreComplete(log: Log, up: bool)
    requires Keyed(log)
    ensures forall e :: e in Rows(log, up) <==> e in log.Values
    ensures |Rows(log, up)| == |log|
  {
    SortedFacts(Stamps(log), up);
    RowsFacts(log, up);
    var at := Sorted(Stamps(log), up);
    forall e | e in log.Values ensures e in Rows(log, up) {
      assert StampOf(e) in Stamps(log);
      assert StampOf(e) in Elems(at);
      var i :| 0 <= i < |at| && at[i] == StampOf(e);
      assert Rows(log, up)[i] == e;
    }
    StampsCount(log);
  }

  lemma {:induction false} StampsCount(log: Log)
    requires Keyed(log)
    ensures |Stamps(log)| == |log|
    decreases |log|
  {
    if id :| id in log {
      var less := log - {id};
      StampsCount(less);
      assert log.Keys == less.Keys + {id};
      assert forall x :: x in less ==> less[x] == log[x];
      assert Stamps(log) == Stamps(less) + {StampOf(log[id])};
      forall x | x in less ensures StampOf(less[x]) != StampOf(log[id]) {}
    } else {
      assert log == map[];
    }
  }

  // ---------------------------------------------------------------- pruning

  /** Rows still in the log once the given stamps' rows are deleted. */
  function Without(log: Log, gone: set<Stamp>): Log {
    map id | id in log && StampOf(log[id]) !in gone :: log[id]
  }

  function PruneQuery(tenant: Uuid, workspace: Option<Uuid>): Query {
    Query(tenant, workspace, None, None, None)
  }

  /** The oldest rows of the window that one batch deletes. */
  function Doomed(log: Log, q: Query, cutoff: int, limit: int): seq<Stamp> {
    var at := Sorted(Stamps(Window(log, q, Some(cutoff))), true);
    at[..Min(Cap(limit), |at|)]
  }

  function PruneLog(log: Log, q: Query, cutoff: int, limit: int): Log {
    Without(log, Elems(Doomed(log, q, cutoff, limit)))
  }

  lemma DoomedInWindow(log: Log, q: Query, cutoff: int, limit: int)
    requires Keyed(log)
    ensures forall s :: s in Doomed(log, q, cutoff, limit) ==>
              s.id in Window(log, q, Some(cutoff)) && s.id in log && StampOf(log[s.id]) == s
  {
    var w := Window(log, q, Some(cutoff));
    StampsOwned(w, true);
    forall s | s in Doomed(log, q, cutoff, limit) ensures s.id in w && StampOf(w[s.id]) == s {
      assert s in Sorted(Stamps(w), true);
    }
  }

  lemma WithoutKeepsOthers(log: Log, q: Query, cutoff: int, limit: int)
    requires Keyed(log)
    ensures var log' := PruneLog(log, q, cutoff, limit);
            Keyed(log')
            && (forall id :: id in log && id !in Window(log, q, Some(cutoff)) ==>
                  id in log' && log'[id] == log[id])
            && (forall id :: id in log' ==> id in log && log'[id] == log[id])
  {
    DoomedInWindow(log, q, cutoff, limit);
  }

  lemma WithoutStamps(log: Log, q: Query, until: Option<int>, gone: set<Stamp>)
    requires Keyed(log)
    ensures Stamps(Window(Without(log, gone), q, until)) == Stamps(Window(log, q, until)) - gone
  {
    var w, w' := Window(log, q, until), Window(Without(log, gone), q, until);
    forall s | s in Stamps(w) - gone ensures s in Stamps(w') {
      var id :| id in w && StampOf(w[id]) == s;
      assert id in w';
    }
  }

  /** One batch takes the oldest rows of the window, and only rows of the window. */
  lemma PruneTakesOldest(log: Log, q: Query, cutoff: int, limit: int)
    requires Keyed(log)
    ensures var at := Sorted(Stamps(Window(log, q, Some(cutoff))), true);
            Sorted(Stamps(Window(PruneLog(log, q, cutoff, limit), q, Some(cutoff))), true)
            == at[Min(Cap(limit), |at|)..]
  {
    var s := Stamps(Window(log, q, Some(cutoff)));
    AfterRemoval(s, true, Min(Cap(limit), |Sorted(s, true)|));
    WithoutStamps(log, q, Some(cutoff), Elems(Doomed(log, q, cutoff, limit)));
  }

  lemma DoomedIffRank(log: Log, id: Uuid, q: Query, cutoff: int, limit: int)
    requires Keyed(log) && id in Window(log, q, Some(cutoff))
    ensures id !in PruneLog(log, q, cutoff, limit) <==>
            |Before(Stamps(Window(log, q, Some(cutoff))), true, StampOf(log[id]))| < Cap(limit)
  {
    var w := Window(log, q, Some(cutoff));
    var at := Sorted(Stamps(w), true);
    assert w[id] == log[id] && StampOf(log[id]) in Stamps(w);
    SortedFacts(Stamps(w), true);
    assert StampOf(log[id]) !in Before(Stamps(w), true, StampOf(log[id]));
    SubsetSize(Before(Stamps(w), true, StampOf(log[id])) + {StampOf(log[id])}, Stamps(w));
    PageHasIffRank(Stamps(w), true, StampOf(log[id]), Min(Cap(limit), |at|));
  }

  /** What a batch deletes, in the fields of events: only events of the tenant, and of the workspace
      if one is given, dated before the cutoff; up to the limit, and oldest first. */
  lemma PruneInFields(log: Log, q: Query, cutoff: int, limit: int, id: Uuid)
    requires Keyed(log)
    ensures var log' := PruneLog(log, q, cutoff, limit);
            (id in log' ==> id in log && log'[id] == log[id])
            && (id in log && id !in log' ==>
                  id in Window(log, q, Some(cutoff)) && log[id].at < cutoff
                  && log[id].tenant == q.tenant
                  && (q.workspace.Some? ==> log[id].workspace == q.workspace)
                  && forall other :: other in log' && other in Window(log, q, Some(cutoff)) ==>
                       log[id].at < log'[other].at
                       || (log[id].at == log'[other].at && id.n < other.n))
  {
    var w := Window(log, q, Some(cutoff));
    var at := Sorted(Stamps(w), true);
    var k := Min(Cap(limit), |at|);
    var log' := PruneLog(log, q, cutoff, limit);
    WithoutKeepsOthers(log, q, cutoff, limit);
    WindowInFields(log, q, Some(cutoff), id);
    SortedFacts(Stamps(w), true);
    if id in log && id !in log' {
      forall other | other in log' && other in w
        ensures Less(StampOf(log[id]), StampOf(log[other]))
      {
        assert w[other] == log[other] && StampOf(log[other]) in Elems(at);
        NotOnPageIsLater(at, true, k, StampOf(log[id]), StampOf(log[other]));
      }
    }
  }

  /** Why arrivals must be dated at or after the cutoff: a backdated event that slips in after
      the export is deleted by the next batch exactly when fewer due events than the batch holds
      are older. */
  lemma BackdatedEventIsLost(log: Log, e: AuditEvent, q: Query, cutoff: int, limit: int)
    requires Keyed(log) && e.id !in log && Selects(q, e) && e.at < cutoff
    ensures e.id !in PruneLog(Absorb(log, [e]), q, cutoff, limit) <==>
            |set s | s in Stamps(Window(log, q, Some(cutoff))) && Less(s, StampOf(e))| < Cap(limit)
  {
    var log1 := log[e.id := e];
    assert Absorb(log, [e]) == Absorb(log1, []) == log1;
    var w, w1 := Window(log, q, Some(cutoff)), Window(log1, q, Some(cutoff));
    assert w1 == w[e.id := e];
    StampsPlus(w, e);
    DoomedIffRank(log1, e.id, q, cutoff, limit);
    assert Before(Stamps(w1), true, StampOf(e)) ==
           set s | s in Stamps(w) && Less(s, StampOf(e));
  }

  lemma StampsPlus(log: Log, e: AuditEvent)
    requires Keyed(log) && e.id !in log
    ensures Stamps(log[e.id := e]) == Stamps(log) + {StampOf(e)}
  {
    var more := log[e.id := e];
    assert more[e.id] == e;
    forall s | s in Stamps(log) ensures s in Stamps(more) {
      var id :| id in log && StampOf(log[id]) == s;
      assert more[id] == log[id];
    }
  }

  /** Deleting one more listed row. */
  lemma WithoutOneMore(log: Log, doomed: seq<Stamp>, i: nat)
    requires Keyed(log) && IsSorted(doomed, true) && i < |doomed|
    requires doomed[i].id in log && StampOf(log[doomed[i].id]) == doomed[i]
    ensures doomed[i].id in Without(log, Elems(doomed[..i]))
    ensures Without(log, Elems(doomed[..i])) - {doomed[i].id} == Without(log, Elems(doomed[..i + 1]))
  {
    forall j | 0 <= j < i ensures doomed[..i][j] != doomed[i] {
      assert Precedes(true, doomed[j], doomed[i]);
    }
    assert Elems(doomed[..i + 1]) == Elems(doomed[..i]) + {doomed[i]};
  }

  // ---------------------------------------------------------------- the log as an object

  class AuditStore {
    var log: Log

    constructor ()
      ensures log == map[] && Keyed(log)
    {
      log := map[];
    }

    method AppendEvent(event: AuditEvent) returns (stored: AuditEvent)
      modifies this
      ensures log == Ledger.AddAudit(old(log), Some(event)) && stored == log[event.id]
    {
      if event.id !in log { log := log[event.id := event]; }
      stored := log[event.id];
    }

    /** Other writers, between two calls of this process. */
    method Interfere(arrivals: seq<AuditEvent>)
      modifies this
      ensures log == Absorb(old(log), arrivals)
    {
      for i := 0 to |arrivals|
        invariant Absorb(log, arrivals[i..]) == Absorb(old(log), arrivals)
      {
        assert arrivals[i..][1..] == arrivals[i + 1..];
        var _ := AppendEvent(arrivals[i]);
      }
    }

    method ListEvents(q: Query, cursor: Cursor, limit: int) returns (page: seq<AuditEvent>)
      requires Keyed(log)
      ensures page == ListPage(log, q, cursor, limit)
    {
      var rows := Rows(Matching(log, q, cursor), false);
      page := rows[..Min(Cap(limit), |rows|)];
    }

    method DeleteRows(doomed: seq<Stamp>) returns (deleted: nat)
      requires Keyed(log) && IsSorted(doomed, true)
      requires forall s :: s in doomed ==> s.id in log && StampOf(log[s.id]) == s
      modifies this
      ensures log == Without(old(log), Elems(doomed)) && deleted == |doomed|
    {
      deleted := 0;
      assert log == Without(log, Elems(doomed[..0]));
      for i := 0 to |doomed|
        invariant deleted == i
        invariant log == Without(old(log), Elems(doomed[..i]))
      {
        assert doomed[i] in doomed;
        WithoutOneMore(old(log), doomed, i);
        if doomed[i].id in log {
          log := log - {doomed[i].id};
          deleted := deleted + 1;
        }
      }
      assert doomed[..|doomed|] == doomed;
    }

    /** Deletes one batch, oldest first, and counts what it deleted. */
    method PruneEvents(q: Query, cutoff: int, limit: int) returns (deleted: nat)
      requires Keyed(log)
      modifies this
      ensures log == PruneLog(old(log), q, cutoff, limit)
      ensures deleted == |Doomed(old(log), q, cutoff, limit)|
      ensures forall id :: id in old(log) && id !in log ==>
                old(log)[id].tenant == q.tenant && old(log)[id].at < cutoff
                && (q.workspace.Some? ==> old(log)[id].workspace == q.workspace)
    {
      forall id { PruneInFields(log, q, cutoff, limit, id); }
      SortedFacts(Stamps(Window(log, q, Some(cutoff))), true);
      DoomedInWindow(log, q, cutoff, limit);
      deleted := DeleteRows(Doomed(log, q, cutoff, limit));
    }
  }
}
