/** Purging expired conversation turns: transcripts are blanked oldest first, a batch at a time,
    and everything that identifies a turn stays. */
module Turns {
  import opened Basics
  import opened Uuids
  import opened Records
  import opened Ordering

  const PURGED := "[PURGED_AFTER_CURATION]"
  const AFTER_EXPIRY := "purged_after_expiry"
  const AFTER_CURATION := "purged_after_curation"

  datatype Message = Message(role: string, name: Option<string>, content: string,
                             metadata: map<string, string>)

  datatype Turn = Turn(id: Uuid, tenant: Uuid, workspace: Uuid, thread: Uuid, agent: Option<Uuid>,
                       namespace: string, sourceKind: string, policy: string, createdAt: int,
                       expiresAt: Option<int>, metadata: map<string, string>,
                       messages: seq<Message>)

  type Table = map<Uuid, Turn>

  ghost predicate Keyed(t: Table) {
    forall id :: id in t ==> t[id].id == id
  }

  function BlankMessage(m: Message, reason: string): Message {
    m.(content := PURGED, metadata := m.metadata["retention" := reason])
  }

  /** The turn with its transcript replaced and the reason recorded. */
  function Blank(turn: Turn, reason: string): Turn {
    turn.(metadata := turn.metadata["retention" := reason],
          messages := seq(|turn.messages|,
            i requires 0 <= i < |turn.messages| => BlankMessage(turn.messages[i], reason)))
  }

  predicate HasContent(turn: Turn) {
    exists i :: 0 <= i < |turn.messages| && turn.messages[i].content != PURGED
  }

  predicate IsDue(turn: Turn, tenant: Uuid, workspace: Uuid, now: int) {
    turn.tenant == tenant && turn.workspace == workspace && turn.expiresAt.Some?
    && turn.expiresAt.value <= now && HasContent(turn)
  }

  /** The sort key: turns that never expire sort as of `now`. */
  function KeyOf(turn: Turn, now: int): Stamp {
    Stamp(if turn.expiresAt.Some? then turn.expiresAt.value else now, turn.id)
  }

  function Keys(t: Table, now: int): set<Stamp> {
    set id | id in t :: KeyOf(t[id], now)
  }

  function DueIds(t: Table, tenant: Uuid, workspace: Uuid, now: int): set<Uuid> {
    set id | id in t && IsDue(t[id], tenant, workspace, now)
  }

  function Keep(q: seq<Stamp>, ids: set<Uuid>): seq<Stamp> {
    if q == [] then []
    else Keep(q[..|q| - 1], ids) + if q[|q| - 1].id in ids then [q[|q| - 1]] else []
  }

  /** The due turns in purge order: sort everything, then filter. */
  function DueList(t: Table, tenant: Uuid, workspace: Uuid, now: int): seq<Stamp> {
    Keep(Sorted(Keys(t, now), true), DueIds(t, tenant, workspace, now))
  }

  function DueStamps(t: Table, tenant: Uuid, workspace: Uuid, now: int): set<Stamp> {
    set id | id in t && IsDue(t[id], tenant, workspace, now) :: KeyOf(t[id], now)
  }

  function Selected(t: Table, tenant: Uuid, workspace: Uuid, now: int, limit: nat): seq<Stamp> {
    var due := DueList(t, tenant, workspace, now);
    due[..Min(limit, |due|)]
  }

  function PurgeOne(t: Table, tenant: Uuid, id: Uuid, reason: string): Table {
    if id in t && t[id].tenant == tenant then t[id := Blank(t[id], reason)] else t
  }

  function PurgeEach(t: Table, tenant: Uuid, stamps: seq<Stamp>, reason: string): Table {
    if stamps == [] then t
    else PurgeOne(PurgeEach(t, tenant, stamps[..|stamps| - 1], reason), tenant,
                  stamps[|stamps| - 1].id, reason)
  }

  function PurgeExpired(t: Table, tenant: Uuid, workspace: Uuid, now: int, limit: nat): Table {
    PurgeEach(t, tenant, Selected(t, tenant, workspace, now, limit), AFTER_EXPIRY)
  }

  // ---------------------------------------------------------------- selection

  lemma {:induction false} KeepFacts(q: seq<Stamp>, ids: set<Uuid>)
    requires IsSorted(q, true)
    ensures IsSorted(Keep(q, ids), true)
    ensures forall s :: s in Keep(q, ids) <==> s in q && s.id in ids
  {
    if q != [] {
      var front, last := q[..|q| - 1], q[|q| - 1];
      var kept := Keep(front, ids);
      KeepFacts(front, ids);
      assert q == front + [last];
      forall i | 0 <= i < |kept| ensures Precedes(true, kept[i], last) {
        assert kept[i] in kept && kept[i] in front;
      }
    }
  }

  /** Sorting everything and filtering gives the due turns by (expiry, id). */
  lemma DueListIsSorted(t: Table, tenant: Uuid, workspace: Uuid, now: int)
    requires Keyed(t)
    ensures DueList(t, tenant, workspace, now) == Sorted(DueStamps(t, tenant, workspace, now), true)
    ensures |DueList(t, tenant, workspace, now)| == |DueStamps(t, tenant, workspace, now)|
  {
    var ids := DueIds(t, tenant, workspace, now);
    var all := Sorted(Keys(t, now), true);
    SortedFacts(Keys(t, now), true);
    KeepFacts(all, ids);
    var due := DueStamps(t, tenant, workspace, now);
    forall s | s in due ensures s in Elems(all) && s.id in ids {}
    forall s | s in Elems(all) && s.id in ids ensures s in due {
      var id :| id in t && KeyOf(t[id], now) == s;
    }
    assert Elems(Keep(all, ids)) == due;
    SortedOf(Keep(all, ids), due, true);
  }

  // ---------------------------------------------------------------- conservation

  predicate SameMessage(a: Message, b: Message) {
    b == a.(content := b.content, metadata := b.metadata)
    && b.metadata - {"retention"} == a.metadata - {"retention"}
  }

  /** Everything but message contents and retention metadata is the same. */
  predicate SameIdentity(a: Turn, b: Turn) {
    b == a.(metadata := b.metadata, messages := b.messages) && |a.messages| == |b.messages|
    && b.metadata - {"retention"} == a.metadata - {"retention"}
    && forall i :: 0 <= i < |a.messages| ==> SameMessage(a.messages[i], b.messages[i])
  }

  ghost predicate Conserves(t: Table, t': Table) {
    t.Keys == t'.Keys && forall id :: id in t ==> SameIdentity(t[id], t'[id])
  }

  /** What purging a list of turns of one tenant does to each turn. */
  lemma {:induction false} PurgeEachFacts(t: Table, tenant: Uuid, stamps: seq<Stamp>, reason: string)
    requires forall s :: s in stamps ==> s.id in t && t[s.id].tenant == tenant
    ensures var t' := PurgeEach(t, tenant, stamps, reason);
            Conserves(t, t')
            && (forall id :: id in t && (forall s :: s in stamps ==> s.id != id) ==> t'[id] == t[id])
            && (forall s :: s in stamps ==> !HasContent(t'[s.id]))
  {
    if stamps != [] {
      var front, last := stamps[..|stamps| - 1], stamps[|stamps| - 1];
      PurgeEachFacts(t, tenant, front, reason);
      assert stamps == front + [last];
      var mid := PurgeEach(t, tenant, front, reason);
      assert last in stamps;
      assert SameIdentity(t[last.id], mid[last.id]);
      BlankKeepsIdentity(mid[last.id], reason);
      SameIdentityTrans(t[last.id], mid[last.id], Blank(mid[last.id], reason));
    }
  }

  lemma BlankMessageKeeps(m: Message, reason: string)
    ensures SameMessage(m, BlankMessage(m, reason))
  {
    assert m.metadata["retention" := reason] - {"retention"} == m.metadata - {"retention"};
  }

  lemma BlankKeepsIdentity(turn: Turn, reason: string)
    ensures SameIdentity(turn, Blank(turn, reason)) && !HasContent(Blank(turn, reason))
  {
    assert turn.metadata["retention" := reason] - {"retention"} == turn.metadata - {"retention"};
    forall i | 0 <= i < |turn.messages|
      ensures SameMessage(turn.messages[i], Blank(turn, reason).messages[i])
    {
      BlankMessageKeeps(turn.messages[i], reason);
    }
  }

  lemma SameIdentityTrans(a: Turn, b: Turn, c: Turn)
    requires SameIdentity(a, b) && SameIdentity(b, c)
    ensures SameIdentity(a, c)
  {
    forall i | 0 <= i < |a.messages| ensures SameMessage(a.messages[i], c.messages[i]) {
      assert SameMessage(a.messages[i], b.messages[i]) && SameMessage(b.messages[i], c.messages[i]);
    }
  }

  // ---------------------------------------------------------------- in the fields of turns

  /** What purging leaves of a turn: every message's text is the notice, the reason is recorded on
      the turn and on each message, and all else is as it was. */
  lemma BlankInFields(turn: Turn, reason: string)
    ensures var b := Blank(turn, reason);
            |b.messages| == |turn.messages|
            && b == turn.(metadata := turn.metadata["retention" := reason], messages := b.messages)
            && forall i :: 0 <= i < |b.messages| ==>
                 b.messages[i] == turn.messages[i].(
                   content := "[PURGED_AFTER_CURATION]",
                   metadata := turn.messages[i].metadata["retention" := reason])
  {}

  lemma DueInFields(turn: Turn, tenant: Uuid, workspace: Uuid, now: int)
    ensures IsDue(turn, tenant, workspace, now) <==>
            turn.tenant == tenant && turn.workspace == workspace && turn.expiresAt.Some?
            && turn.expiresAt.value <= now
            && exists i :: 0 <= i < |turn.messages|
                 && turn.messages[i].content != "[PURGED_AFTER_CURATION]"
  {}

  // ---------------------------------------------------------------- one call

  lemma SelectedAreDue(t: Table, tenant: Uuid, workspace: Uuid, now: int, limit: nat)
    requires Keyed(t)
    ensures forall s :: s in Selected(t, tenant, workspace, now, limit) ==>
              s.id in t && IsDue(t[s.id], tenant, workspace, now) && KeyOf(t[s.id], now) == s
  {
    DueListIsSorted(t, tenant, workspace, now);
    var due := DueStamps(t, tenant, workspace, now);
    SortedFacts(due, true);
    forall s | s in Selected(t, tenant, workspace, now, limit) ensures s in due {
      assert s in Elems(Sorted(due, true));
    }
  }

  /** A call purges exactly the earliest min(limit, k) of the k due turns, keeps every turn's
      identity, and leaves the rest of the queue as it was. */
  lemma PurgeTakesEarliest(t: Table, tenant: Uuid, workspace: Uuid, now: int, limit: nat)
    requires Keyed(t)
    ensures var due := DueList(t, tenant, workspace, now);
            var t' := PurgeExpired(t, tenant, workspace, now, limit);
            Keyed(t') && Conserves(t, t')
            && DueList(t', tenant, workspace, now) == due[Min(limit, |due|)..]
            && (forall id :: id in t && (forall s :: s in due[..Min(limit, |due|)] ==> s.id != id) ==>
                  t'[id] == t[id])
  {
    var chosen := Selected(t, tenant, workspace, now, limit);
    SelectedAreDue(t, tenant, workspace, now, limit);
    PurgeEachFacts(t, tenant, chosen, AFTER_EXPIRY);
    var t' := PurgeExpired(t, tenant, workspace, now, limit);
    var due := DueStamps(t, tenant, workspace, now);
    DueListIsSorted(t, tenant, workspace, now);
    DueListIsSorted(t', tenant, workspace, now);
    AfterRemoval(due, true, Min(limit, |DueList(t, tenant, workspace, now)|));
    DueAfterPurge(t, t', tenant, workspace, now, chosen);
  }

  /** A purge changes only expired turns of the tenant's workspace that have text left, and blanks
      them for expiry. */
  lemma PurgeInFields(t: Table, tenant: Uuid, workspace: Uuid, now: int, limit: nat, id: Uuid)
    requires Keyed(t) && id in t
    ensures var t' := PurgeExpired(t, tenant, workspace, now, limit);
            id in t'
            && (t'[id] != t[id] ==>
                  t[id].tenant == tenant && t[id].workspace == workspace && t[id].expiresAt.Some?
                  && t[id].expiresAt.value <= now
                  && t'[id] == Blank(t[id], "purged_after_expiry"))
  {
    SelectedAreDue(t, tenant, workspace, now, limit);
    ChosenOnce(t, tenant, workspace, now, limit);
    PurgeEachBlanks(t, tenant, Selected(t, tenant, workspace, now, limit), AFTER_EXPIRY, id);
  }

  /** A due turn is left as it was only behind a full batch, whose turns all expire before it. */
  lemma DueLeftBehind(t: Table, tenant: Uuid, workspace: Uuid, now: int, limit: nat, id: Uuid)
    requires Keyed(t) && id in t && IsDue(t[id], tenant, workspace, now)
    requires forall s :: s in Selected(t, tenant, workspace, now, limit) ==> s.id != id
    ensures |Selected(t, tenant, workspace, now, limit)| == limit
    ensures forall s :: s in Selected(t, tenant, workspace, now, limit) ==>
              s.at < t[id].expiresAt.value || (s.at == t[id].expiresAt.value && s.id.n < id.n)
  {
    var due := DueStamps(t, tenant, workspace, now);
    var q, k := Sorted(due, true), |Selected(t, tenant, workspace, now, limit)|;
    DueListIsSorted(t, tenant, workspace, now);
    SortedFacts(due, true);
    assert KeyOf(t[id], now) in Elems(q);
    assert q[..|q|] == q;
    forall s | s in Selected(t, tenant, workspace, now, limit)
      ensures Precedes(true, s, KeyOf(t[id], now))
    {
      NotOnPageIsLater(q, true, k, s, KeyOf(t[id], now));
    }
  }

  ghost predicate DistinctTurns(stamps: seq<Stamp>) {
    forall i, j :: 0 <= i < j < |stamps| ==> stamps[i].id != stamps[j].id
  }

  lemma ChosenOnce(t: Table, tenant: Uuid, workspace: Uuid, now: int, limit: nat)
    requires Keyed(t)
    ensures DistinctTurns(Selected(t, tenant, workspace, now, limit))
  {
    var chosen := Selected(t, tenant, workspace, now, limit);
    SelectedAreDue(t, tenant, workspace, now, limit);
    DueListIsSorted(t, tenant, workspace, now);
    SortedFacts(DueStamps(t, tenant, workspace, now), true);
    forall i, j | 0 <= i < j < |chosen| ensures chosen[i].id != chosen[j].id {
      assert chosen[i] in chosen && chosen[j] in chosen;
      assert Precedes(true, chosen[i], chosen[j]);
    }
  }

  /** Each listed turn is blanked once. */
  lemma {:induction false} PurgeEachBlanks(t: Table, tenant: Uuid, stamps: seq<Stamp>,
                                           reason: string, id: Uuid)
    requires DistinctTurns(stamps) && id in t
    requires forall s :: s in stamps ==> s.id in t && t[s.id].tenant == tenant
    ensures id in PurgeEach(t, tenant, stamps, reason)
    ensures PurgeEach(t, tenant, stamps, reason)[id] ==
            if exists s :: s in stamps && s.id == id then Blank(t[id], reason) else t[id]
  {
    if stamps != [] {
      var front, last := stamps[..|stamps| - 1], stamps[|stamps| - 1];
      assert stamps == front + [last];
      PurgeEachBlanks(t, tenant, front, reason, id);
      PurgeEachFacts(t, tenant, front, reason);
      if last.id == id {
        assert forall s :: s in front ==> s.id != id;
        assert last in stamps;
      }
    }
  }

  lemma DueAfterPurge(t: Table, t': Table, tenant: Uuid, workspace: Uuid, now: int, chosen: seq<Stamp>)
    requires Keyed(t) && Conserves(t, t')
    requires forall s :: s in chosen ==> s.id in t && KeyOf(t[s.id], now) == s && !HasContent(t'[s.id])
    requires forall id :: id in t && (forall s :: s in chosen ==> s.id != id) ==> t'[id] == t[id]
    ensures DueStamps(t', tenant, workspace, now) ==
            DueStamps(t, tenant, workspace, now) - Elems(chosen)
  {
    forall s | s in DueStamps(t', tenant, workspace, now)
      ensures s in DueStamps(t, tenant, workspace, now) && s !in chosen
    {
      var id :| id in t' && IsDue(t'[id], tenant, workspace, now) && KeyOf(t'[id], now) == s;
      assert SameIdentity(t[id], t'[id]);
      assert forall c :: c in chosen ==> c.id != id;
    }
    forall s | s in DueStamps(t, tenant, workspace, now) && s !in chosen
      ensures s in DueStamps(t', tenant, workspace, now)
    {
      var id :| id in t && IsDue(t[id], tenant, workspace, now) && KeyOf(t[id], now) == s;
      forall c | c in chosen ensures c.id != id {
        assert KeyOf(t[c.id], now) == c && c != s;
      }
      assert t'[id] == t[id];
    }
  }

  // ---------------------------------------------------------------- repeated calls

  function PurgeCalls(t: Table, tenant: Uuid, workspace: Uuid, now: int, limit: nat, calls: nat): Table {
    if calls == 0 then t
    else PurgeExpired(PurgeCalls(t, tenant, workspace, now, limit, calls - 1), tenant, workspace, now, limit)
  }

  /** How many of k due turns that many calls have purged. */
  function Done(k: nat, limit: nat, calls: nat): (d: nat)
    ensures d <= k
  {
    if calls == 0 then 0 else var d := Done(k, limit, calls - 1); d + Min(limit, k - d)
  }

  lemma {:induction false} DoneIsProduct(k: nat, limit: nat, calls: nat)
    ensures Done(k, limit, calls) == Min(calls * limit, k)
  {
    if calls > 0 {
      DoneIsProduct(k, limit, calls - 1);
      assert calls * limit == (calls - 1) * limit + limit;
    }
  }

  /** The queue is the original one without its first d turns. */
  ghost predicate Drained(t: Table, tenant: Uuid, workspace: Uuid, now: int, due: seq<Stamp>, d: nat) {
    Keyed(t) && d <= |due| && DueList(t, tenant, workspace, now) == due[d..]
  }

  lemma PurgeLeavesRest(t: Table, tenant: Uuid, workspace: Uuid, now: int, limit: nat)
    requires Keyed(t)
    ensures Keyed(PurgeExpired(t, tenant, workspace, now, limit))
    ensures var due := DueList(t, tenant, workspace, now);
            DueList(PurgeExpired(t, tenant, workspace, now, limit), tenant, workspace, now)
            == due[Min(limit, |due|)..]
  {
    PurgeTakesEarliest(t, tenant, workspace, now, limit);
  }

  lemma RestOfRest(due: seq<Stamp>, d: nat, k: nat)
    requires d + k <= |due|
    ensures due[d..][k..] == due[d + k..]
  {}

  lemma OneCallDrains(t: Table, tenant: Uuid, workspace: Uuid, now: int, limit: nat,
                      due: seq<Stamp>, d: nat)
    requires Drained(t, tenant, workspace, now, due, d)
    ensures Drained(PurgeExpired(t, tenant, workspace, now, limit), tenant, workspace, now, due,
                    d + Min(limit, |due| - d))
  {
    PurgeLeavesRest(t, tenant, workspace, now, limit);
    RestOfRest(due, d, Min(limit, |due| - d));
  }

  lemma {:induction false} CallsDrain(t: Table, tenant: Uuid, workspace: Uuid, now: int, limit: nat,
                                      due: seq<Stamp>, calls: nat)
    requires Drained(t, tenant, workspace, now, due, 0)
    ensures Drained(PurgeCalls(t, tenant, workspace, now, limit, calls), tenant, workspace, now, due,
                    Done(|due|, limit, calls))
    decreases calls
  {
    if calls > 0 {
      CallsDrain(t, tenant, workspace, now, limit, due, calls - 1);
      OneCallDrains(PurgeCalls(t, tenant, workspace, now, limit, calls - 1), tenant, workspace, now,
                    limit, due, Done(|due|, limit, calls - 1));
    }
  }

  /** Any number of calls purges the first calls * limit turns of the queue, in order. */
  lemma CallsPurgePrefix(t: Table, tenant: Uuid, workspace: Uuid, now: int, limit: nat, calls: nat)
    requires Keyed(t)
    ensures var due := DueList(t, tenant, workspace, now);
            DueList(PurgeCalls(t, tenant, workspace, now, limit, calls), tenant, workspace, now)
            == due[Min(calls * limit, |due|)..]
  {
    var due := DueList(t, tenant, workspace, now);
    CallsDrain(t, tenant, workspace, now, limit, due, calls);
    DoneIsProduct(|due|, limit, calls);
  }

  lemma CeilCovers(k: nat, limit: nat)
    requires limit > 0
    ensures (k + limit - 1) / limit * limit >= k
  {
    var c := (k + limit - 1) / limit;
    assert k + limit - 1 == c * limit + (k + limit - 1) % limit;
  }

  /** ceil(k / limit) calls leave no due turn. */
  lemma CeilCallsLeaveNone(t: Table, tenant: Uuid, workspace: Uuid, now: int, limit: nat)
    requires Keyed(t) && limit > 0
    ensures var k := |DueList(t, tenant, workspace, now)|;
            DueList(PurgeCalls(t, tenant, workspace, now, limit, (k + limit - 1) / limit),
                    tenant, workspace, now) == []
  {
    var k := |DueList(t, tenant, workspace, now)|;
    CeilCovers(k, limit);
    CallsPurgePrefix(t, tenant, workspace, now, limit, (k + limit - 1) / limit);
  }

  // ---------------------------------------------------------------- runs

  /** An append that its idempotency key answers stores nothing and is no step. */
  datatype Op =
    | Append(turn: Turn)
    | PurgeTurn(tenant: Uuid, id: Uuid)
    | PurgeDue(tenant: Uuid, workspace: Uuid, now: int, limit: nat)

  function Step(t: Table, op: Op): Table {
    match op
    case Append(turn) => t[turn.id := turn]
    case PurgeTurn(tenant, id) => PurgeOne(t, tenant, id, AFTER_CURATION)
    case PurgeDue(tenant, workspace, now, limit) => PurgeExpired(t, tenant, workspace, now, limit)
  }

  /** The service builds every turn with a new id; the store itself does not check. */
  predicate Permitted(t: Table, op: Op) {
    op.Append? ==> op.turn.id !in t
  }

  predicate Picks(t: Table, op: Op, id: Uuid) {
    op.PurgeDue? &&
    exists s :: s in Selected(t, op.tenant, op.workspace, op.now, op.limit) && s.id == id
  }

  predicate Settled(t: Table, id: Uuid) {
    id in t && !HasContent(t[id])
  }

  /** An append that overwrites the turn with one that has content. */
  predicate Refills(op: Op, id: Uuid) {
    op.Append? && op.turn.id == id && HasContent(op.turn)
  }

  lemma StepKeepsKeyed(t: Table, op: Op)
    requires Keyed(t)
    ensures Keyed(Step(t, op)) && t.Keys <= Step(t, op).Keys
    ensures Permitted(t, op) ==> forall id :: id in t ==> SameIdentity(t[id], Step(t, op)[id])
  {
    if op.PurgeDue? {
      PurgeTakesEarliest(t, op.tenant, op.workspace, op.now, op.limit);
    } else if op.PurgeTurn? && op.id in t {
      BlankKeepsIdentity(t[op.id], AFTER_CURATION);
    }
  }

  /** A blanked turn stays blanked and unselected through every step but one that refills it; a
      selected turn is blanked. */
  lemma SettledIffNotRefilled(t: Table, op: Op, id: Uuid)
    requires Keyed(t)
    ensures Settled(t, id) ==> (Settled(Step(t, op), id) <==> !Refills(op, id)) && !Picks(t, op, id)
    ensures Picks(t, op, id) ==> Settled(Step(t, op), id)
  {
    if op.PurgeDue? {
      SelectedAreDue(t, op.tenant, op.workspace, op.now, op.limit);
      PurgeEachFacts(t, op.tenant, Selected(t, op.tenant, op.workspace, op.now, op.limit), AFTER_EXPIRY);
    } else if op.PurgeTurn? && op.id in t {
      BlankKeepsIdentity(t[op.id], AFTER_CURATION);
    }
  }

  ghost predicate IsRun(states: seq<Table>, ops: seq<Op>) {
    |states| == |ops| + 1 && Keyed(states[0]) &&
    forall i :: 0 <= i < |ops| ==> states[i + 1] == Step(states[i], ops[i])
  }

  ghost predicate IsPermittedRun(states: seq<Table>, ops: seq<Op>) {
    IsRun(states, ops) && forall i :: 0 <= i < |ops| ==> Permitted(states[i], ops[i])
  }

  lemma {:induction false} RunKeyed(states: seq<Table>, ops: seq<Op>, i: nat)
    requires IsRun(states, ops) && i < |states|
    ensures Keyed(states[i])
  {
    if i > 0 {
      RunKeyed(states, ops, i - 1);
      StepKeepsKeyed(states[i - 1], ops[i - 1]);
    }
  }

  /** Through a permitted run every turn keeps all but its contents and retention metadata. */
  lemma {:induction false} RunConserves(states: seq<Table>, ops: seq<Op>, id: Uuid, i: nat, j: nat)
    requires IsPermittedRun(states, ops) && i <= j < |states| && id in states[i]
    ensures id in states[j] && SameIdentity(states[i][id], states[j][id])
    decreases j
  {
    if i < j {
      RunConserves(states, ops, id, i, j - 1);
      RunKeyed(states, ops, j - 1);
      StepKeepsKeyed(states[j - 1], ops[j - 1]);
      SameIdentityTrans(states[i][id], states[j - 1][id], states[j][id]);
    }
  }

  lemma {:induction false} RunKeepsSettled(states: seq<Table>, ops: seq<Op>, id: Uuid, i: nat, j: nat)
    requires IsRun(states, ops) && i <= j < |states| && Settled(states[i], id)
    requires forall k :: i <= k < j ==> !Refills(ops[k], id)
    ensures Settled(states[j], id)
    decreases j
  {
    if i < j {
      RunKeepsSettled(states, ops, id, i, j - 1);
      RunKeyed(states, ops, j - 1);
      SettledIffNotRefilled(states[j - 1], ops[j - 1], id);
    }
  }

  /** In any run at all, a turn selected by two purges was appended anew, with content, between
      them. */
  lemma SelectedAgainOnlyIfRefilled(states: seq<Table>, ops: seq<Op>, id: Uuid, i: nat, j: nat)
    requires IsRun(states, ops) && i < j < |ops|
    requires Picks(states[i], ops[i], id) && Picks(states[j], ops[j], id)
    ensures exists k :: i < k < j && Refills(ops[k], id)
  {
    RunKeyed(states, ops, i);
    RunKeyed(states, ops, j);
    SettledIffNotRefilled(states[i], ops[i], id);
    if forall k :: i + 1 <= k < j ==> !Refills(ops[k], id) {
      RunKeepsSettled(states, ops, id, i + 1, j);
      SettledIffNotRefilled(states[j], ops[j], id);
    }
  }

  /** So with new ids no turn is ever selected twice, whatever clocks, limits, appends and curation
      purges come between. */
  lemma NeverSelectedTwice(states: seq<Table>, ops: seq<Op>, id: Uuid, i: nat, j: nat)
    requires IsPermittedRun(states, ops) && i < j < |ops|
    requires Picks(states[i], ops[i], id)
    ensures !Picks(states[j], ops[j], id)
  {
    RunKeyed(states, ops, i);
    SettledIffNotRefilled(states[i], ops[i], id);
    if Picks(states[j], ops[j], id) {
      SelectedAgainOnlyIfRefilled(states, ops, id, i, j);
      var k :| i < k < j && Refills(ops[k], id);
      assert Permitted(states[k], ops[k]);
      RunConserves(states, ops, id, i + 1, k);
    }
  }

  /** A turn is selected exactly when it is due and fewer due turns than the limit come before it. */
  lemma PicksIffEarly(t: Table, tenant: Uuid, workspace: Uuid, now: int, limit: nat, id: Uuid)
    requires Keyed(t) && id in t
    ensures Picks(t, PurgeDue(tenant, workspace, now, limit), id) <==>
            IsDue(t[id], tenant, workspace, now)
            && |Before(DueStamps(t, tenant, workspace, now), true, KeyOf(t[id], now))| < limit
  {
    var due := DueStamps(t, tenant, workspace, now);
    var q := Sorted(due, true);
    var x := KeyOf(t[id], now);
    DueListIsSorted(t, tenant, workspace, now);
    SelectedAreDue(t, tenant, workspace, now, limit);
    SortedFacts(due, true);
    if IsDue(t[id], tenant, workspace, now) {
      assert x in due && x.id == id;
      PageHasIffRank(due, true, x, Min(limit, |q|));
      assert x !in Before(due, true, x);
      SubsetSize(Before(due, true, x) + {x}, due);
    }
  }

  /** Appending an id the store holds, purged or not, replaces its turn: a purge selects it again
      exactly when the new turn is due and early enough in the queue for the limit. */
  lemma RefilledIsSelectedAgain(t: Table, turn: Turn, tenant: Uuid, workspace: Uuid, now: int, limit: nat)
    requires Keyed(t)
    ensures var t' := Step(t, Append(turn));
            Picks(t', PurgeDue(tenant, workspace, now, limit), turn.id) <==>
            IsDue(turn, tenant, workspace, now)
            && |Before(DueStamps(t', tenant, workspace, now), true, KeyOf(turn, now))| < limit
  {
    PicksIffEarly(Step(t, Append(turn)), tenant, workspace, now, limit, turn.id);
  }

  // ---------------------------------------------------------------- the store's part

  class TurnStore {
    var turns: Table

    constructor ()
      ensures turns == map[]
    {
      turns := map[];
    }

    method PurgeContent(tenant: Uuid, id: Uuid, reason: string) returns (done: bool)
      modifies this
      ensures turns == PurgeOne(old(turns), tenant, id, reason)
      ensures done <==> id in old(turns) && old(turns)[id].tenant == tenant
    {
      if id !in turns || turns[id].tenant != tenant { return false; }
      var turn := turns[id];
      var messages := [];
      for i := 0 to |turn.messages|
        invariant messages == Blank(turn, reason).messages[..i]
      {
        messages := messages + [turn.messages[i].(content := PURGED,
          metadata := turn.messages[i].metadata["retention" := reason])];
      }
      assert messages == Blank(turn, reason).messages;
      turns := turns[id := turn.(metadata := turn.metadata["retention" := reason],
                                 messages := messages)];
      return true;
    }

    /** Returns the purged turns' keys, earliest first. */
    method PurgeExpiredTurns(tenant: Uuid, workspace: Uuid, now: int, limit: nat)
      returns (chosen: seq<Stamp>)
      requires Keyed(turns)
      modifies this
      ensures chosen == Selected(old(turns), tenant, workspace, now, limit)
      ensures turns == PurgeExpired(old(turns), tenant, workspace, now, limit)
      ensures forall id :: id in old(turns) ==> id in turns
      ensures forall id :: id in old(turns) && turns[id] != old(turns)[id] ==>
                old(turns)[id].tenant == tenant && old(turns)[id].workspace == workspace
                && old(turns)[id].expiresAt.Some? && old(turns)[id].expiresAt.value <= now
                && turns[id] == Blank(old(turns)[id], "purged_after_expiry")
    {
      forall id | id in turns { PurgeInFields(turns, tenant, workspace, now, limit, id); }
      var due := DueList(turns, tenant, workspace, now);
      chosen := due[..Min(limit, |due|)];
      for i := 0 to |chosen|
        invariant turns == PurgeEach(old(turns), tenant, chosen[..i], AFTER_EXPIRY)
      {
        assert chosen[..i + 1][..i] == chosen[..i];
        var _ := PurgeContent(tenant, chosen[i].id, AFTER_EXPIRY);
      }
      assert chosen[..|chosen|] == chosen;
    }
  }
}
