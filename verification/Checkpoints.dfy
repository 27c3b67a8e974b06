/** Working-memory checkpoints: compare-and-swap on the head revision of a thread, and
    compaction of old revisions, which the protocol must not notice. */
module Checkpoints {
  import opened Uuids
  import opened Records

  datatype Checkpoint = Checkpoint(id: Uuid, tenant: Uuid, workspace: Uuid, thread: Uuid,
                                   revision: int, state: string)

  type Table = map<Uuid, seq<Checkpoint>>

  datatype Op =
    | SaveIfHead(checkpoint: Checkpoint, expected: int)
    | Compact(tenant: Uuid, thread: Uuid, keepLast: int)

  datatype Reply =
    | Saved(checkpoint: Checkpoint)
    | StaleHead(thread: Uuid, expected: int, actual: int)
    | Removed(count: int)

  function Rows(t: Table, thread: Uuid): seq<Checkpoint> {
    if thread in t then t[thread] else []
  }

  /** `[r for r in revs if (r.tenant_id == tenant_id) == wanted]`. */
  function Filter(rows: seq<Checkpoint>, tenant: Uuid, wanted: bool): seq<Checkpoint> {
    if rows == [] then []
    else
      var rest := Filter(rows[..|rows| - 1], tenant, wanted);
      var last := rows[|rows| - 1];
      if (last.tenant == tenant) == wanted then rest + [last] else rest
  }

  function Mine(t: Table, tenant: Uuid, thread: Uuid): seq<Checkpoint> {
    Filter(Rows(t, thread), tenant, true)
  }

  function LastOf(rows: seq<Checkpoint>): Option<Checkpoint> {
    if rows == [] then None else Some(rows[|rows| - 1])
  }

  /** `get_head`. */
  function Head(t: Table, tenant: Uuid, thread: Uuid): Option<Checkpoint> {
    LastOf(Mine(t, tenant, thread))
  }

  function RevisionOf(head: Option<Checkpoint>): int {
    if head.None? then 0 else head.value.revision
  }

  /** Python's `rows[-k:]`: for k = 0 that is every row, for negative k it drops from the front. */
  function FromEnd(rows: seq<Checkpoint>, k: int): seq<Checkpoint> {
    var start := if k > 0 then (if k < |rows| then |rows| - k else 0)
                 else if -k < |rows| then -k else |rows|;
    rows[start..]
  }

  function SaveStep(t: Table, c: Checkpoint, expected: int): (Table, Reply) {
    var actual := RevisionOf(Head(t, c.tenant, c.thread));
    if actual != expected then (t, StaleHead(c.thread, expected, actual))
    else (t[c.thread := Rows(t, c.thread) + [c]], Saved(c))
  }

  function CompactRows(rows: seq<Checkpoint>, tenant: Uuid, keep: int): seq<Checkpoint> {
    Filter(rows, tenant, false) + FromEnd(Filter(rows, tenant, true), keep)
  }

  function CompactStep(t: Table, tenant: Uuid, thread: Uuid, keep: int): (Table, Reply) {
    var n := |Mine(t, tenant, thread)|;
    if n <= keep then (t, Removed(0))
    else (t[thread := CompactRows(Rows(t, thread), tenant, keep)], Removed(n - keep))
  }

  function Step(t: Table, op: Op): (Table, Reply) {
    match op
    case SaveIfHead(c, expected) => SaveStep(t, c, expected)
    case Compact(tenant, thread, keep) => CompactStep(t, tenant, thread, keep)
  }

  // ---------------------------------------------------------------- filtering

  lemma {:induction false} FilterConcat(a: seq<Checkpoint>, b: seq<Checkpoint>, tenant: Uuid, w: bool)
    ensures Filter(a + b, tenant, w) == Filter(a, tenant, w) + Filter(b, tenant, w)
  {
    if b == [] {
      assert a + b == a;
    } else {
      var n := |b| - 1;
      assert (a + b)[..|a| + n] == a + b[..n];
      FilterConcat(a, b[..n], tenant, w);
    }
  }

  lemma {:induction false} FilterOnly(rows: seq<Checkpoint>, tenant: Uuid, w: bool)
    ensures forall x :: x in Filter(rows, tenant, w) ==> (x.tenant == tenant) == w
  {
    if rows != [] { FilterOnly(rows[..|rows| - 1], tenant, w); }
  }

  lemma {:induction false} FilterAll(rows: seq<Checkpoint>, tenant: Uuid, w: bool)
    requires forall x :: x in rows ==> (x.tenant == tenant) == w
    ensures Filter(rows, tenant, w) == rows
    ensures Filter(rows, tenant, !w) == []
  {
    if rows != [] { FilterAll(rows[..|rows| - 1], tenant, w); }
  }

  lemma FilterSnoc(rows: seq<Checkpoint>, x: Checkpoint, tenant: Uuid, w: bool)
    ensures Filter(rows + [x], tenant, w) ==
            Filter(rows, tenant, w) + if (x.tenant == tenant) == w then [x] else []
  {
    assert (rows + [x])[..|rows|] == rows;
  }

  /** Setting one tenant aside does not disturb the order of another tenant's rows. */
  lemma {:induction false} FilterOther(rows: seq<Checkpoint>, tenant: Uuid, other: Uuid)
    requires tenant != other
    ensures Filter(Filter(rows, tenant, false), other, true) == Filter(rows, other, true)
  {
    if rows != [] {
      var front, x := rows[..|rows| - 1], rows[|rows| - 1];
      FilterOther(front, tenant, other);
      if x.tenant != tenant { FilterSnoc(Filter(front, tenant, false), x, other, true); }
    }
  }

  // ---------------------------------------------------------------- calls, in the rows stored

  /** The i-th row of a thread is the tenant's latest. */
  predicate IsLatest(rows: seq<Checkpoint>, tenant: Uuid, i: nat) {
    i < |rows| && rows[i].tenant == tenant
    && forall j :: i < j < |rows| ==> rows[j].tenant != tenant
  }

  lemma {:induction false} LatestIsLast(rows: seq<Checkpoint>, tenant: Uuid, i: nat)
    requires IsLatest(rows, tenant, i)
    ensures LastOf(Filter(rows, tenant, true)) == Some(rows[i])
  {
    if i < |rows| - 1 { LatestIsLast(rows[..|rows| - 1], tenant, i); }
  }

  /** A save succeeds exactly when the tenant's latest row of the thread has the expected revision;
      it then appends its row to the thread and changes no other, and is otherwise told the
      latest revision. */
  lemma SaveChecksHead(t: Table, c: Checkpoint, expected: int, i: nat)
    requires c.thread in t && IsLatest(t[c.thread], c.tenant, i)
    ensures Step(t, SaveIfHead(c, expected)) ==
              if t[c.thread][i].revision == expected
              then (t[c.thread := t[c.thread] + [c]], Saved(c))
              else (t, StaleHead(c.thread, expected, t[c.thread][i].revision))
  {
    LatestIsLast(t[c.thread], c.tenant, i);
  }

  /** Without a row of the tenant the expected revision is 0. */
  lemma FirstSaveExpectsZero(t: Table, c: Checkpoint, expected: int)
    requires c.thread in t ==> forall x :: x in t[c.thread] ==> x.tenant != c.tenant
    ensures Step(t, SaveIfHead(c, expected)) ==
              if expected == 0
              then (t[c.thread := (if c.thread in t then t[c.thread] else []) + [c]], Saved(c))
              else (t, StaleHead(c.thread, expected, 0))
  {
    FilterAll(Rows(t, c.thread), c.tenant, false);
  }

  /** A tenant's list holds exactly its rows of the thread. */
  lemma {:induction false} MineInFields(rows: seq<Checkpoint>, tenant: Uuid, x: Checkpoint)
    ensures x in Filter(rows, tenant, true) <==> x in rows && x.tenant == tenant
  {
    if rows != [] {
      var front, last := rows[..|rows| - 1], rows[|rows| - 1];
      MineInFields(front, tenant, x);
      assert rows == front + [last];
    }
  }

  // ---------------------------------------------------------------- one step

  /** A save appends to one tenant's list of one thread and touches no other list. */
  lemma SaveAppends(t: Table, c: Checkpoint, expected: int, tenant: Uuid, thread: Uuid)
    requires RevisionOf(Head(t, c.tenant, c.thread)) == expected
    ensures Mine(Step(t, SaveIfHead(c, expected)).0, tenant, thread) ==
            Mine(t, tenant, thread) + if tenant == c.tenant && thread == c.thread then [c] else []
  {
    FilterConcat(Rows(t, c.thread), [c], tenant, true);
  }

  lemma CompactedRows(rows: seq<Checkpoint>, tenant: Uuid, keep: int, other: Uuid)
    ensures var mine := Filter(rows, tenant, true);
            Filter(CompactRows(rows, tenant, keep), other, true)
            == if other == tenant then FromEnd(mine, keep) else Filter(rows, other, true)
  {
    var mine := Filter(rows, tenant, true);
    var aside, kept := Filter(rows, tenant, false), FromEnd(mine, keep);
    FilterConcat(aside, kept, other, true);
    FilterOnly(rows, tenant, true);
    FilterOnly(rows, tenant, false);
    assert forall x :: x in kept ==> x in mine;
    if other == tenant {
      FilterAll(aside, tenant, false);
      FilterAll(kept, tenant, true);
    } else {
      FilterOther(rows, tenant, other);
      FilterAll(kept, other, false);
    }
  }

  /** Compaction replaces the tenant's list by its tail and leaves all others as they were. */
  lemma CompactKeepsTail(t: Table, tenant: Uuid, thread: Uuid, keep: int, other: Uuid, elsewhere: Uuid)
    ensures var t' := Step(t, Compact(tenant, thread, keep)).0;
            Mine(t', other, elsewhere) ==
              if other == tenant && elsewhere == thread && |Mine(t, tenant, thread)| > keep
              then FromEnd(Mine(t, tenant, thread), keep) else Mine(t, other, elsewhere)
  {
    CompactedRows(Rows(t, thread), tenant, keep, other);
  }

  /** The reported count is the number of rows deleted exactly for keep_last >= 1 (or nothing to
      keep at 0): at 0 the slice keeps every row yet reports them all as removed. */
  lemma CompactCountExact(t: Table, tenant: Uuid, thread: Uuid, keep: int)
    ensures var (t', reply) := Step(t, Compact(tenant, thread, keep));
            (reply == Removed(|Mine(t, tenant, thread)| - |Mine(t', tenant, thread)|)
             <==> keep >= 1 || (keep == 0 && Mine(t, tenant, thread) == []))
  {
    CompactKeepsTail(t, tenant, thread, keep, tenant, thread);
  }

  /** The head survives exactly unless a negative keep_last drops every row. */
  lemma CompactKeepsHead(t: Table, tenant: Uuid, thread: Uuid, keep: int)
    ensures var t' := Step(t, Compact(tenant, thread, keep)).0;
            var n := |Mine(t, tenant, thread)|;
            Head(t', tenant, thread) == Head(t, tenant, thread) <==> keep >= 0 || n == 0 || -keep < n
  {
    CompactKeepsTail(t, tenant, thread, keep, tenant, thread);
  }

  // ---------------------------------------------------------------- runs

  function End(t: Table, ops: seq<Op>): Table
    decreases |ops|
  {
    if ops == [] then t else End(Step(t, ops[0]).0, ops[1..])
  }

  /** The replies to the saves of a run, in order. */
  function SaveReplies(t: Table, ops: seq<Op>): seq<Reply>
    decreases |ops|
  {
    if ops == [] then []
    else
      var (t', reply) := Step(t, ops[0]);
      if ops[0].Compact? then SaveReplies(t', ops[1..]) else [reply] + SaveReplies(t', ops[1..])
  }

  function DropCompactions(ops: seq<Op>): seq<Op> {
    if ops == [] then []
    else if ops[0].Compact? then DropCompactions(ops[1..])
    else [ops[0]] + DropCompactions(ops[1..])
  }

  predicate KeepsSome(ops: seq<Op>) {
    forall i :: 0 <= i < |ops| && ops[i].Compact? ==> ops[i].keepLast >= 0
  }

  /** A tail that still has the last row. */
  predicate IsTail(a: seq<Checkpoint>, b: seq<Checkpoint>) {
    |a| <= |b| && a == b[|b| - |a|..] && (a == [] ==> b == [])
  }

  lemma TailGrows(a: seq<Checkpoint>, b: seq<Checkpoint>, x: seq<Checkpoint>)
    requires IsTail(a, b)
    ensures IsTail(a + x, b + x)
  {}

  lemma TailShrinks(a: seq<Checkpoint>, b: seq<Checkpoint>, k: nat)
    requires IsTail(a, b) && |a| > k
    ensures IsTail(FromEnd(a, k), b)
  {}

  /** Every list of the compacted table is a tail of the full one, with the same head. */
  ghost predicate Shadows(compacted: Table, full: Table) {
    forall tenant: Uuid, thread: Uuid ::
      IsTail(Mine(compacted, tenant, thread), Mine(full, tenant, thread))
  }

  lemma ShadowHead(c: Table, f: Table, tenant: Uuid, thread: Uuid)
    requires Shadows(c, f)
    ensures Head(c, tenant, thread) == Head(f, tenant, thread)
  {
    var a, b := Mine(c, tenant, thread), Mine(f, tenant, thread);
    assert IsTail(a, b);
    if a != [] { assert a[|a| - 1] == b[|b| - 1]; }
  }

  lemma SaveKeepsShadow(c: Table, f: Table, op: Op)
    requires Shadows(c, f) && op.SaveIfHead?
    ensures Step(c, op).1 == Step(f, op).1
    ensures Shadows(Step(c, op).0, Step(f, op).0)
  {
    var cp := op.checkpoint;
    ShadowHead(c, f, cp.tenant, cp.thread);
    if RevisionOf(Head(c, cp.tenant, cp.thread)) == op.expected {
      forall tenant: Uuid, thread: Uuid
        ensures IsTail(Mine(Step(c, op).0, tenant, thread), Mine(Step(f, op).0, tenant, thread))
      {
        SaveAppends(c, cp, op.expected, tenant, thread);
        SaveAppends(f, cp, op.expected, tenant, thread);
        TailGrows(Mine(c, tenant, thread), Mine(f, tenant, thread),
                  if tenant == cp.tenant && thread == cp.thread then [cp] else []);
      }
    }
  }

  lemma CompactKeepsShadow(c: Table, f: Table, op: Op)
    requires Shadows(c, f) && op.Compact? && op.keepLast >= 0
    ensures Shadows(Step(c, op).0, f)
  {
    forall tenant: Uuid, thread: Uuid
      ensures IsTail(Mine(Step(c, op).0, tenant, thread), Mine(f, tenant, thread))
    {
      CompactKeepsTail(c, op.tenant, op.thread, op.keepLast, tenant, thread);
      var mine := Mine(c, tenant, thread);
      if |mine| > op.keepLast { TailShrinks(mine, Mine(f, tenant, thread), op.keepLast); }
    }
  }

  /** Compaction is invisible to compare-and-swap: deleting all compactions from any run leaves
      every save's success or conflict unchanged, and the final lists differ only by old rows. */
  lemma {:induction false} CompactionIsInvisible(c: Table, f: Table, ops: seq<Op>)
    requires Shadows(c, f) && KeepsSome(ops)
    ensures SaveReplies(c, ops) == SaveReplies(f, DropCompactions(ops))
    ensures Shadows(End(c, ops), End(f, DropCompactions(ops)))
    decreases |ops|
  {
    if ops != [] {
      var op, rest := ops[0], ops[1..];
      if op.Compact? {
        CompactKeepsShadow(c, f, op);
        CompactionIsInvisible(Step(c, op).0, f, rest);
      } else {
        SaveKeepsShadow(c, f, op);
        CompactionIsInvisible(Step(c, op).0, Step(f, op).0, rest);
        assert DropCompactions(ops)[1..] == DropCompactions(rest);
      }
    }
  }

  /** From one start, every head read after a run is the head read without its compactions. */
  lemma HeadsUnaffected(t: Table, ops: seq<Op>, tenant: Uuid, thread: Uuid)
    requires KeepsSome(ops)
    ensures Head(End(t, ops), tenant, thread) == Head(End(t, DropCompactions(ops)), tenant, thread)
  {
    CompactionIsInvisible(t, t, ops);
    ShadowHead(End(t, ops), End(t, DropCompactions(ops)), tenant, thread);
  }

  // ---------------------------------------------------------------- the head is the maximum

  predicate Numbered(op: Op) {
    op.SaveIfHead? ==> op.checkpoint.revision == op.expected + 1
  }

  ghost predicate Increasing(rows: seq<Checkpoint>) {
    (forall i :: 0 <= i < |rows| ==> rows[i].revision >= 1) &&
    forall i, j :: 0 <= i < j < |rows| ==> rows[i].revision < rows[j].revision
  }

  ghost predicate Ordered(t: Table) {
    forall tenant: Uuid, thread: Uuid :: Increasing(Mine(t, tenant, thread))
  }

  lemma NextIsHighest(rows: seq<Checkpoint>, c: Checkpoint)
    requires Increasing(rows)
    ensures c.revision == RevisionOf(LastOf(rows)) + 1 ==> Increasing(rows + [c])
  {}

  lemma SaveKeepsIncreasing(t: Table, op: Op, tenant: Uuid, thread: Uuid)
    requires op.SaveIfHead? && Numbered(op) && Increasing(Mine(t, tenant, thread))
    ensures Increasing(Mine(Step(t, op).0, tenant, thread))
  {
    var c := op.checkpoint;
    if RevisionOf(Head(t, c.tenant, c.thread)) == op.expected {
      SaveAppends(t, c, op.expected, tenant, thread);
      NextIsHighest(Mine(t, tenant, thread), c);
    }
  }

  lemma CompactKeepsIncreasing(t: Table, op: Op, tenant: Uuid, thread: Uuid)
    requires op.Compact? && Increasing(Mine(t, tenant, thread))
    ensures Increasing(Mine(Step(t, op).0, tenant, thread))
  {
    CompactKeepsTail(t, op.tenant, op.thread, op.keepLast, tenant, thread);
  }

  lemma StepKeepsOrder(t: Table, op: Op)
    requires Ordered(t) && Numbered(op)
    ensures Ordered(Step(t, op).0)
  {
    var t' := Step(t, op).0;
    forall tenant: Uuid, thread: Uuid ensures Increasing(Mine(t', tenant, thread)) {
      assert Increasing(Mine(t, tenant, thread));
      if op.Compact? {
        CompactKeepsIncreasing(t, op, tenant, thread);
      } else {
        SaveKeepsIncreasing(t, op, tenant, thread);
      }
    }
  }

  lemma {:induction false} RunKeepsOrder(t: Table, ops: seq<Op>)
    requires Ordered(t) && forall i :: 0 <= i < |ops| ==> Numbered(ops[i])
    ensures Ordered(End(t, ops))
    decreases |ops|
  {
    if ops != [] {
      StepKeepsOrder(t, ops[0]);
      RunKeepsOrder(Step(t, ops[0]).0, ops[1..]);
    }
  }

  lemma LastIsMaximum(rows: seq<Checkpoint>)
    requires Increasing(rows)
    ensures forall i :: 0 <= i < |rows| ==>
              rows[i].revision <= LastOf(rows).value.revision
              && (rows[i].revision == LastOf(rows).value.revision ==> rows[i] == LastOf(rows).value)
  {}

  /** After any run of numbered saves and compactions, `get_head` is the unique row of maximal
      revision, so a stored revision number never names two states. */
  lemma HeadIsMaximum(ops: seq<Op>, tenant: Uuid, thread: Uuid)
    requires forall i :: 0 <= i < |ops| ==> Numbered(ops[i])
    ensures var rows := Mine(End(map[], ops), tenant, thread);
            var head := Head(End(map[], ops), tenant, thread);
            (head.None? <==> rows == []) &&
            forall i :: 0 <= i < |rows| ==>
              rows[i].revision <= head.value.revision
              && (rows[i].revision == head.value.revision ==> rows[i] == head.value)
  {
    RunKeepsOrder(map[], ops);
    LastIsMaximum(Mine(End(map[], ops), tenant, thread));
  }

  lemma StepNeverRetreats(t: Table, op: Op, tenant: Uuid, thread: Uuid)
    requires Numbered(op) && (op.Compact? ==> op.keepLast >= 0)
    ensures RevisionOf(Head(Step(t, op).0, tenant, thread)) >= RevisionOf(Head(t, tenant, thread))
  {
    if op.Compact? {
      CompactKeepsTail(t, op.tenant, op.thread, op.keepLast, tenant, thread);
    } else if RevisionOf(Head(t, op.checkpoint.tenant, op.checkpoint.thread)) == op.expected {
      SaveAppends(t, op.checkpoint, op.expected, tenant, thread);
    }
  }

  lemma {:induction false} HeadNeverRetreats(t: Table, ops: seq<Op>, tenant: Uuid, thread: Uuid)
    requires KeepsSome(ops) && forall i :: 0 <= i < |ops| ==> Numbered(ops[i])
    ensures RevisionOf(Head(End(t, ops), tenant, thread)) >= RevisionOf(Head(t, tenant, thread))
    decreases |ops|
  {
    if ops != [] {
      StepNeverRetreats(t, ops[0], tenant, thread);
      HeadNeverRetreats(Step(t, ops[0]).0, ops[1..], tenant, thread);
    }
  }

  lemma SavedIsHead(t: Table, a: Op)
    requires a.SaveIfHead? && Step(t, a).1.Saved?
    ensures Head(Step(t, a).0, a.checkpoint.tenant, a.checkpoint.thread) == Some(a.checkpoint)
  {
    SaveAppends(t, a.checkpoint, a.expected, a.checkpoint.tenant, a.checkpoint.thread);
  }

  lemma HigherHeadRefuses(t: Table, b: Op)
    requires b.SaveIfHead?
    ensures var actual := RevisionOf(Head(t, b.checkpoint.tenant, b.checkpoint.thread));
            actual > b.expected ==> Step(t, b) == (t, StaleHead(b.checkpoint.thread, b.expected, actual))
  {}

  /** No lost update: once a save against some revision was accepted, every later save of that
      thread against the same revision is refused, whatever saves and compactions lie between,
      and the refusal reports a revision above the one expected. */
  lemma NoLostUpdate(t: Table, a: Op, between: seq<Op>, b: Op)
    requires a.SaveIfHead? && b.SaveIfHead? && a.expected == b.expected && Numbered(a)
    requires a.checkpoint.tenant == b.checkpoint.tenant && a.checkpoint.thread == b.checkpoint.thread
    requires KeepsSome(between) && forall i :: 0 <= i < |between| ==> Numbered(between[i])
    requires Step(t, a).1.Saved?
    ensures var t' := End(Step(t, a).0, between);
            Step(t', b).0 == t' && Step(t', b).1.StaleHead? && Step(t', b).1.actual > b.expected
  {
    SavedIsHead(t, a);
    HeadNeverRetreats(Step(t, a).0, between, a.checkpoint.tenant, a.checkpoint.thread);
    HigherHeadRefuses(End(Step(t, a).0, between), b);
  }

  // ---------------------------------------------------------------- the store object

  class CheckpointStore {
    var revisions: Table

    constructor ()
      ensures revisions == map[] && Ordered(revisions)
    {
      revisions := map[];
    }

    method TenantRows(tenant: Uuid, thread: Uuid, wanted: bool) returns (rows: seq<Checkpoint>)
      ensures rows == Filter(Rows(revisions, thread), tenant, wanted)
    {
      var all := if thread in revisions then revisions[thread] else [];
      rows := [];
      for i := 0 to |all|
        invariant rows == Filter(all[..i], tenant, wanted)
      {
        assert all[..i + 1][..i] == all[..i];
        if (all[i].tenant == tenant) == wanted { rows := rows + [all[i]]; }
      }
      assert all[..|all|] == all;
    }

    method Save(checkpoint: Checkpoint)
      modifies this
      ensures revisions ==
                old(revisions)[checkpoint.thread := Rows(old(revisions), checkpoint.thread) + [checkpoint]]
    {
      if checkpoint.thread !in revisions { revisions := revisions[checkpoint.thread := []]; }
      revisions := revisions[checkpoint.thread := revisions[checkpoint.thread] + [checkpoint]];
    }

    method SaveHead(checkpoint: Checkpoint, expected: int) returns (reply: Reply)
      modifies this
      ensures (revisions, reply) == Step(old(revisions), SaveIfHead(checkpoint, expected))
    {
      var mine := TenantRows(checkpoint.tenant, checkpoint.thread, true);
      var actual := if mine == [] then 0 else mine[|mine| - 1].revision;
      if actual != expected { return StaleHead(checkpoint.thread, expected, actual); }
      Save(checkpoint);
      return Saved(checkpoint);
    }

    method GetHead(tenant: Uuid, thread: Uuid) returns (head: Option<Checkpoint>)
      ensures head == Head(revisions, tenant, thread)
    {
      var mine := TenantRows(tenant, thread, true);
      head := if mine == [] then None else Some(mine[|mine| - 1]);
    }

    method Shrink(tenant: Uuid, thread: Uuid, keepLast: int) returns (reply: Reply)
      modifies this
      ensures (revisions, reply) == Step(old(revisions), Compact(tenant, thread, keepLast))
    {
      var mine := TenantRows(tenant, thread, true);
      var others := TenantRows(tenant, thread, false);
      if |mine| <= keepLast { return Removed(0); }
      var removed := |mine| - keepLast;
      var kept := FromEnd(mine, keepLast);
      revisions := revisions[thread := others + kept];
      return Removed(removed);
    }
  }
}
