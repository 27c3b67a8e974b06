/** Protected search digests of one workspace: the restartable backfill with its cursor file, live
    writers, and the retirement of an old key version gated on coverage. */
module SearchTokens {
  import opened Basics
  import opened Uuids
  import opened Records
  import opened Ordering

  type Digest = seq<bv8>

  /** A memory row; `raw` is the stored text, possibly encrypted. */
  datatype Row = Row(id: Uuid, at: int, raw: string, live: bool)

  datatype Token = Token(item: Uuid, version: int, digest: Digest)

  datatype Db = Db(rows: map<Uuid, Row>, tokens: set<Token>)

  /** How text is read and digested under the active key: `view` decrypts what is encrypted,
      `terms` is the set of keyed term digests, `marker` the per-key document marker. */
  datatype Scheme = Scheme(version: int, view: string -> string, terms: string -> set<Digest>,
                           marker: Digest)

  /** `protected_index_digests`. */
  function Digests(s: Scheme, row: Row): set<Digest> {
    s.terms(s.view(row.raw)) + {s.marker}
  }

  function TokensFor(s: Scheme, row: Row): set<Token> {
    set d | d in Digests(s, row) :: Token(row.id, s.version, d)
  }

  predicate Covered(db: Db, s: Scheme, id: Uuid)
    requires id in db.rows
  {
    TokensFor(s, db.rows[id]) <= db.tokens
  }

  function StampOf(row: Row): Stamp {
    Stamp(row.at, row.id)
  }

  ghost predicate Keyed(db: Db) {
    forall id :: id in db.rows ==> db.rows[id].id == id
  }

  /** `(created_at, id) > cursor`. */
  predicate After(cursor: Option<Stamp>, s: Stamp) {
    cursor.None? || Less(cursor.value, s)
  }

  function Ahead(db: Db, cursor: Option<Stamp>): set<Stamp> {
    set id | id in db.rows && db.rows[id].live && After(cursor, StampOf(db.rows[id]))
      :: StampOf(db.rows[id])
  }

  /** The rows one batch selects. */
  function Selected(db: Db, cursor: Option<Stamp>, size: nat): seq<Stamp> {
    var q := Sorted(Ahead(db, cursor), true);
    q[..Min(size, |q|)]
  }

  function TokensOf(db: Db, s: Scheme, at: seq<Stamp>): set<Token>
    requires forall x :: x in at ==> x.id in db.rows
  {
    set x, d | x in at && d in Digests(s, db.rows[x.id]) :: Token(db.rows[x.id].id, s.version, d)
  }

  function CursorAfter(cursor: Option<Stamp>, at: seq<Stamp>): Option<Stamp> {
    if at == [] then cursor else Some(at[|at| - 1])
  }

  lemma SelectedRows(db: Db, cursor: Option<Stamp>, size: nat)
    requires Keyed(db)
    ensures forall x :: x in Selected(db, cursor, size) ==>
              x.id in db.rows && StampOf(db.rows[x.id]) == x && db.rows[x.id].live && After(cursor, x)
    ensures Selected(db, cursor, size) == [] <==> Ahead(db, cursor) == {} || size == 0
  {
    var s := Ahead(db, cursor);
    SortedFacts(s, true);
    forall x | x in Selected(db, cursor, size) ensures x in s {
      assert x in Elems(Sorted(s, true));
    }
  }

  // ---------------------------------------------------------------- coverage

  /** Every live row at or before the cursor has all its active-version digests. */
  ghost predicate CoveredUpTo(db: Db, s: Scheme, cursor: Option<Stamp>) {
    forall id :: id in db.rows && db.rows[id].live && !After(cursor, StampOf(db.rows[id])) ==>
      Covered(db, s, id)
  }

  ghost predicate AllCovered(db: Db, s: Scheme) {
    forall id :: id in db.rows && db.rows[id].live ==> Covered(db, s, id)
  }

  /** A search finds the row: every digest of its readable text is stored for it under the active
      version, and so is the marker. */
  ghost predicate Indexed(db: Db, s: Scheme, id: Uuid)
    requires id in db.rows
  {
    forall d :: d in s.terms(s.view(db.rows[id].raw)) || d == s.marker ==>
      Token(id, s.version, d) in db.tokens
  }

  lemma CoveredIffIndexed(db: Db, s: Scheme, id: Uuid)
    requires Keyed(db) && id in db.rows
    ensures Covered(db, s, id) <==> Indexed(db, s, id)
  {
    if Covered(db, s, id) {
      forall d | d in s.terms(s.view(db.rows[id].raw)) || d == s.marker
        ensures Token(id, s.version, d) in db.tokens
      {
        assert Token(db.rows[id].id, s.version, d) in TokensFor(s, db.rows[id]);
      }
    }
  }

  /** Coverage, in the tokens themselves. */
  lemma AllCoveredIffIndexed(db: Db, s: Scheme)
    requires Keyed(db)
    ensures AllCovered(db, s) <==> forall id :: id in db.rows && db.rows[id].live ==> Indexed(db, s, id)
  {
    forall id | id in db.rows ensures Covered(db, s, id) <==> Indexed(db, s, id) {
      CoveredIffIndexed(db, s, id);
    }
  }

  /** A row's digests are written in one transaction, so its marker speaks for all of them. */
  ghost predicate MarkersHonest(db: Db, s: Scheme) {
    forall id :: id in db.rows && Token(id, s.version, s.marker) in db.tokens ==> Covered(db, s, id)
  }

  /** An empty batch means a complete index exactly when the cursor's own claim is true. */
  lemma CompleteIffCursorHonest(db: Db, s: Scheme, cursor: Option<Stamp>, size: nat)
    requires Keyed(db) && size > 0 && Selected(db, cursor, size) == []
    ensures AllCovered(db, s) <==> CoveredUpTo(db, s, cursor)
  {
    SelectedRows(db, cursor, size);
    forall id | id in db.rows && db.rows[id].live ensures !After(cursor, StampOf(db.rows[id])) {
      assert StampOf(db.rows[id]) !in Ahead(db, cursor);
    }
  }

  // ---------------------------------------------------------------- steps

  /** The database, the cursor file, and the cursor of the running process, if there is one. */
  datatype State = State(db: Db, saved: Option<Stamp>, running: Option<Option<Stamp>>)

  datatype Op =
    | Begin
    | Batch(size: nat)
    | Finish
    | Crash
    | Insert(row: Row)
    | SoftDelete(id: Uuid)
    | Rewrite(id: Uuid, raw: string)
    | OtherVersion(tokens: set<Token>)
    | Retire(version: int)

  function BatchDb(db: Db, s: Scheme, cursor: Option<Stamp>, size: nat): Db
    requires Keyed(db)
  {
    SelectedRows(db, cursor, size);
    db.(tokens := db.tokens + TokensOf(db, s, Selected(db, cursor, size)))
  }

  function Step(st: State, s: Scheme, op: Op): State
    requires Keyed(st.db)
  {
    match op
    case Begin => st.(running := Some(st.saved))
    case Batch(size) =>
      if st.running.None? then st
      else st.(db := BatchDb(st.db, s, st.running.value, size),
               running := Some(CursorAfter(st.running.value,
                                           Selected(st.db, st.running.value, size))))
    case Finish => if st.running.None? then st else st.(saved := st.running.value, running := None)
    case Crash => st.(running := None)
    case Insert(row) =>
      st.(db := Db(st.db.rows[row.id := row], st.db.tokens + TokensFor(s, row)))
    case SoftDelete(id) =>
      if id in st.db.rows
      then st.(db := st.db.(rows := st.db.rows[id := st.db.rows[id].(live := false)])) else st
    case Rewrite(id, raw) =>
      if id in st.db.rows
      then st.(db := st.db.(rows := st.db.rows[id := st.db.rows[id].(raw := raw)])) else st
    case OtherVersion(tokens) => st.(db := st.db.(tokens := st.db.tokens + tokens))
    case Retire(version) =>
      st.(db := st.db.(tokens := set t | t in st.db.tokens && t.version != version))
  }

  /** New rows are new; rewriting keeps the readable text (re-encryption); tokens of other key
      versions carry other versions; the retired version is not the active one. */
  predicate Permitted(st: State, s: Scheme, op: Op) {
    match op
    case Insert(row) => row.id !in st.db.rows
    case Rewrite(id, raw) => id in st.db.rows ==> s.view(raw) == s.view(st.db.rows[id].raw)
    case OtherVersion(tokens) => forall t :: t in tokens ==> t.version != s.version
    case Retire(version) => version != s.version
    case _ => true
  }

  ghost predicate Inv(st: State, s: Scheme) {
    Keyed(st.db) && CoveredUpTo(st.db, s, st.saved)
    && (st.running.Some? ==> CoveredUpTo(st.db, s, st.running.value))
    && MarkersHonest(st.db, s)
  }

  lemma BatchCovers(db: Db, s: Scheme, cursor: Option<Stamp>, size: nat)
    requires Keyed(db) && CoveredUpTo(db, s, cursor)
    ensures CoveredUpTo(BatchDb(db, s, cursor, size), s,
                        CursorAfter(cursor, Selected(db, cursor, size)))
  {
    var at := Selected(db, cursor, size);
    SelectedRows(db, cursor, size);
    var db' := BatchDb(db, s, cursor, size);
    var end := CursorAfter(cursor, at);
    forall id | id in db.rows && db.rows[id].live && !After(end, StampOf(db.rows[id]))
      ensures Covered(db', s, id)
    {
      var x := StampOf(db.rows[id]);
      if After(cursor, x) {
        NotAfterIsSelected(db, cursor, size, x);
        assert x in at;
      } else {
        assert Covered(db, s, id);
      }
    }
  }

  lemma NotAfterIsSelected(db: Db, cursor: Option<Stamp>, size: nat, x: Stamp)
    requires Keyed(db) && x in Ahead(db, cursor)
    requires !After(CursorAfter(cursor, Selected(db, cursor, size)), x)
    ensures x in Selected(db, cursor, size)
  {
    var s := Ahead(db, cursor);
    var q := Sorted(s, true);
    SortedFacts(s, true);
    assert x in Elems(q);
    var i :| 0 <= i < |q| && q[i] == x;
    var k := Min(size, |q|);
    assert forall j :: 0 < k <= j < |q| ==> Precedes(true, q[k - 1], q[j]);
    assert i < k;
    assert q[..k][i] == x;
  }

  lemma MoreTokens(db: Db, s: Scheme, more: set<Token>, id: Uuid)
    requires id in db.rows && Covered(db, s, id)
    ensures Covered(db.(tokens := db.tokens + more), s, id)
  {}

  lemma BatchKeepsMarkers(db: Db, s: Scheme, cursor: Option<Stamp>, size: nat)
    requires Keyed(db) && MarkersHonest(db, s)
    ensures MarkersHonest(BatchDb(db, s, cursor, size), s)
  {
    var at := Selected(db, cursor, size);
    SelectedRows(db, cursor, size);
    var db' := BatchDb(db, s, cursor, size);
    forall id | id in db.rows && Token(id, s.version, s.marker) in db'.tokens
      ensures Covered(db', s, id)
    {
      if Token(id, s.version, s.marker) in db.tokens {
        assert Covered(db, s, id);
      } else {
        var x, d :| x in at && d in Digests(s, db.rows[x.id])
                    && Token(db.rows[x.id].id, s.version, d) == Token(id, s.version, s.marker);
        assert x.id == id;
      }
    }
  }

  lemma BatchKeepsInv(st: State, s: Scheme, size: nat)
    requires Inv(st, s) && st.running.Some?
    ensures Inv(Step(st, s, Batch(size)), s)
  {
    BatchCovers(st.db, s, st.running.value, size);
    BatchKeepsMarkers(st.db, s, st.running.value, size);
    SelectedRows(st.db, st.running.value, size);
    var st' := Step(st, s, Batch(size));
    forall id | id in st.db.rows && st.db.rows[id].live && !After(st.saved, StampOf(st.db.rows[id]))
      ensures Covered(st'.db, s, id)
    {
      MoreTokens(st.db, s, TokensOf(st.db, s, Selected(st.db, st.running.value, size)), id);
    }
  }

  lemma InsertKeepsInv(st: State, s: Scheme, row: Row)
    requires Inv(st, s) && row.id !in st.db.rows
    ensures Inv(Step(st, s, Insert(row)), s)
  {
    var db' := Step(st, s, Insert(row)).db;
    assert Covered(db', s, row.id);
    forall id | id in st.db.rows && Covered(st.db, s, id) ensures Covered(db', s, id) {}
    forall id | id in st.db.rows && Token(id, s.version, s.marker) in db'.tokens
      ensures Token(id, s.version, s.marker) in st.db.tokens {}
  }

  lemma RewriteKeepsInv(st: State, s: Scheme, id: Uuid, raw: string)
    requires Inv(st, s) && Permitted(st, s, Rewrite(id, raw))
    ensures Inv(Step(st, s, Rewrite(id, raw)), s)
  {
    var db' := Step(st, s, Rewrite(id, raw)).db;
    forall x | x in st.db.rows ensures Covered(db', s, x) <==> Covered(st.db, s, x) {}
  }

  lemma SoftDeleteKeepsInv(st: State, s: Scheme, id: Uuid)
    requires Inv(st, s)
    ensures Inv(Step(st, s, SoftDelete(id)), s)
  {
    var db' := Step(st, s, SoftDelete(id)).db;
    forall x | x in st.db.rows ensures Covered(db', s, x) <==> Covered(st.db, s, x) {}
  }

  lemma TokensKeepInv(st: State, s: Scheme, op: Op)
    requires Inv(st, s) && Permitted(st, s, op) && (op.OtherVersion? || op.Retire?)
    ensures Inv(Step(st, s, op), s)
  {
    var db' := Step(st, s, op).db;
    forall x | x in st.db.rows ensures Covered(db', s, x) <==> Covered(st.db, s, x) {
      forall t | t in TokensFor(s, st.db.rows[x]) ensures t in db'.tokens <==> t in st.db.tokens {}
    }
  }

  /** Every step keeps "all rows at or before a cursor, saved or running, are covered". */
  lemma StepKeepsInv(st: State, s: Scheme, op: Op)
    requires Inv(st, s) && Permitted(st, s, op)
    ensures Inv(Step(st, s, op), s)
  {
    match op
    case Batch(size) => if st.running.Some? { BatchKeepsInv(st, s, size); }
    case Insert(row) => InsertKeepsInv(st, s, row);
    case SoftDelete(id) => SoftDeleteKeepsInv(st, s, id);
    case Rewrite(id, raw) => RewriteKeepsInv(st, s, id, raw);
    case OtherVersion(_) => TokensKeepInv(st, s, op);
    case Retire(_) => TokensKeepInv(st, s, op);
    case _ =>
  }

  ghost predicate Follows(st: State, s: Scheme, op: Op, st': State) {
    Keyed(st.db) && Permitted(st, s, op) && st' == Step(st, s, op)
  }

  ghost predicate IsRun(states: seq<State>, ops: seq<Op>, s: Scheme) {
    |states| == |ops| + 1 && states[0].saved.None? && states[0].running.None?
    && Keyed(states[0].db) && MarkersHonest(states[0].db, s)
    && forall i :: 0 <= i < |ops| ==> Follows(states[i], s, ops[i], states[i + 1])
  }

  lemma {:induction false} RunKeepsInv(states: seq<State>, ops: seq<Op>, s: Scheme, i: nat)
    requires IsRun(states, ops, s) && i < |states|
    ensures Inv(states[i], s)
    decreases i
  {
    if i > 0 {
      RunKeepsInv(states, ops, s, i - 1);
      assert Follows(states[i - 1], s, ops[i - 1], states[i]);
      StepKeepsInv(states[i - 1], s, ops[i - 1]);
    }
  }

  lemma StepKeepsAllCovered(st: State, s: Scheme, op: Op)
    requires Inv(st, s) && Permitted(st, s, op) && AllCovered(st.db, s)
    ensures AllCovered(Step(st, s, op).db, s)
  {
    StepKeepsInv(st, s, op);
    var db' := Step(st, s, op).db;
    forall id | id in db'.rows && db'.rows[id].live ensures Covered(db', s, id) {
      match op
      case Batch(size) =>
        if st.running.Some? {
          SelectedRows(st.db, st.running.value, size);
          MoreTokens(st.db, s, TokensOf(st.db, s, Selected(st.db, st.running.value, size)), id);
        }
      case Insert(row) => if id != row.id { assert Covered(st.db, s, id); }
      case Rewrite(_, _) => assert Covered(st.db, s, id);
      case SoftDelete(_) => assert Covered(st.db, s, id);
      case _ => assert Covered(st.db, s, id);
    }
  }

  lemma FollowsKeepsAllCovered(st: State, s: Scheme, op: Op, st': State)
    requires Inv(st, s) && Follows(st, s, op, st') && AllCovered(st.db, s)
    ensures AllCovered(st'.db, s)
  {
    StepKeepsAllCovered(st, s, op);
  }

  lemma {:induction false} RunKeepsAllCovered(states: seq<State>, ops: seq<Op>, s: Scheme, i: nat, j: nat)
    requires IsRun(states, ops, s) && i <= j < |states| && AllCovered(states[i].db, s)
    ensures AllCovered(states[j].db, s)
    decreases j
  {
    if i < j {
      RunKeepsAllCovered(states, ops, s, i, j - 1);
      RunKeepsInv(states, ops, s, j - 1);
      FollowsKeepsAllCovered(states[j - 1], s, ops[j - 1], states[j]);
    }
  }

  /** Restart safety: however the work was split into invocations and wherever it crashed, once a
      running backfill finds no further row every live row has all its active-version digests, and
      that stays so for the rest of the run, retirements of other versions included. */
  lemma CompleteMeansCovered(states: seq<State>, ops: seq<Op>, s: Scheme, i: nat, j: nat, size: nat)
    requires IsRun(states, ops, s) && i <= j < |states|
    requires states[i].running.Some? && size > 0
    requires Selected(states[i].db, states[i].running.value, size) == []
    ensures AllCovered(states[j].db, s)
    ensures forall id :: id in states[j].db.rows && states[j].db.rows[id].live ==>
              Indexed(states[j].db, s, id)
  {
    RunKeepsInv(states, ops, s, i);
    CompleteIffCursorHonest(states[i].db, s, states[i].running.value, size);
    RunKeepsAllCovered(states, ops, s, i, j);
    RunKeepsInv(states, ops, s, j);
    AllCoveredIffIndexed(states[j].db, s);
  }

  /** What a cursor claims, in the fields of rows. */
  lemma UpToIndexed(db: Db, s: Scheme, cursor: Option<Stamp>)
    requires Keyed(db) && CoveredUpTo(db, s, cursor)
    ensures forall id :: id in db.rows && db.rows[id].live && cursor.Some?
                         && (db.rows[id].at < cursor.value.at
                             || (db.rows[id].at == cursor.value.at && id.n <= cursor.value.id.n)) ==>
              Indexed(db, s, id)
  {
    forall id | id in db.rows && db.rows[id].live && !After(cursor, StampOf(db.rows[id]))
      ensures Indexed(db, s, id)
    {
      CoveredIffIndexed(db, s, id);
    }
  }

  // ---------------------------------------------------------------- traces

  /** The steps lead from one state to the other, each permitted when it is taken. */
  ghost predicate Leads(st: State, s: Scheme, ops: seq<Op>, st': State)
    decreases |ops|
  {
    Keyed(st.db) &&
    if ops == [] then st' == st
    else Permitted(st, s, ops[0]) && Leads(Step(st, s, ops[0]), s, ops[1..], st')
  }

  lemma StepKeepsKeyed(st: State, s: Scheme, op: Op)
    requires Keyed(st.db) && Permitted(st, s, op)
    ensures Keyed(Step(st, s, op).db)
  {}

  lemma {:induction false} LeadsSnoc(st: State, s: Scheme, ops: seq<Op>, mid: State, op: Op)
    requires Leads(st, s, ops, mid) && Keyed(mid.db) && Permitted(mid, s, op)
    ensures Leads(st, s, ops + [op], Step(mid, s, op))
    decreases |ops|
  {
    if ops == [] {
      StepKeepsKeyed(st, s, op);
      assert ([] + [op])[1..] == [];
    } else {
      assert (ops + [op])[1..] == ops[1..] + [op];
      LeadsSnoc(Step(st, s, ops[0]), s, ops[1..], mid, op);
    }
  }

  lemma {:induction false} LeadsKeepInv(st: State, s: Scheme, ops: seq<Op>, st': State)
    requires Leads(st, s, ops, st') && Inv(st, s)
    ensures Inv(st', s)
    decreases |ops|
  {
    if ops != [] {
      StepKeepsInv(st, s, ops[0]);
      LeadsKeepInv(Step(st, s, ops[0]), s, ops[1..], st');
    }
  }

  lemma RunSnoc(states: seq<State>, ops: seq<Op>, s: Scheme, op: Op)
    requires IsRun(states, ops, s) && Permitted(states[|ops|], s, op) && Keyed(states[|ops|].db)
    ensures IsRun(states + [Step(states[|ops|], s, op)], ops + [op], s)
  {
    var longer, more := states + [Step(states[|ops|], s, op)], ops + [op];
    forall i | 0 <= i < |more| ensures Follows(longer[i], s, more[i], longer[i + 1]) {
      if i < |ops| { assert Follows(states[i], s, ops[i], states[i + 1]); }
    }
  }

  /** A trace that starts where a run ends continues it. */
  lemma {:induction false} TraceExtendsRun(states: seq<State>, ops: seq<Op>, s: Scheme,
                                           more: seq<Op>, st': State)
    returns (longer: seq<State>)
    requires IsRun(states, ops, s) && Leads(states[|ops|], s, more, st')
    ensures IsRun(longer, ops + more, s) && longer[..|states|] == states
    ensures longer[|ops| + |more|] == st'
    decreases |more|
  {
    if more == [] {
      assert ops + more == ops;
      longer := states;
    } else {
      RunSnoc(states, ops, s, more[0]);
      assert (ops + [more[0]]) + more[1..] == ops + more;
      longer := TraceExtendsRun(states + [Step(states[|ops|], s, more[0])], ops + [more[0]], s,
                                more[1..], st');
      assert longer[..|states|] == longer[..|states| + 1][..|states|];
    }
  }

  /** Batches alone change no row, take nothing away and add only digests of those rows. */
  lemma {:induction false} BatchesOnlyAdd(st: State, s: Scheme, ops: seq<Op>, st': State)
    requires Leads(st, s, ops, st') && forall i :: 0 <= i < |ops| ==> ops[i].Batch?
    ensures st'.db.rows == st.db.rows && st.db.tokens <= st'.db.tokens
    ensures forall t :: t in st'.db.tokens && t !in st.db.tokens ==>
              t.item in st.db.rows && t.version == s.version
              && (t.digest in s.terms(s.view(st.db.rows[t.item].raw)) || t.digest == s.marker)
    decreases |ops|
  {
    if ops != [] {
      BatchAdds(st, s, ops[0]);
      BatchesOnlyAdd(Step(st, s, ops[0]), s, ops[1..], st');
    }
  }

  lemma BatchAdds(st: State, s: Scheme, op: Op)
    requires Keyed(st.db) && op.Batch?
    ensures Step(st, s, op).db.rows == st.db.rows && st.db.tokens <= Step(st, s, op).db.tokens
    ensures forall t :: t in Step(st, s, op).db.tokens && t !in st.db.tokens ==>
              t.item in st.db.rows && t.version == s.version
              && (t.digest in s.terms(s.view(st.db.rows[t.item].raw)) || t.digest == s.marker)
  {
    if st.running.Some? { SelectedRows(st.db, st.running.value, op.size); }
  }

  // ---------------------------------------------------------------- retirement

  datatype Verdict = Invalid | NotAllowed | Incomplete | DryRun(found: nat) | Deleted(found: nat, count: nat)

  /** The coverage gate asks for markers only. */
  predicate Gate(db: Db, s: Scheme) {
    forall id :: id in db.rows && db.rows[id].live ==> Token(id, s.version, s.marker) in db.tokens
  }

  function OldTokens(db: Db, version: int): set<Token> {
    set t | t in db.tokens && t.version == version
  }

  /** The marker gate is exact: it opens precisely when every live row is fully covered. */
  lemma GateIsExact(db: Db, s: Scheme)
    requires Keyed(db) && MarkersHonest(db, s)
    ensures Gate(db, s) <==> AllCovered(db, s)
  {
    forall id | id in db.rows && db.rows[id].live && Covered(db, s, id)
      ensures Token(id, s.version, s.marker) in db.tokens
    {
      assert Token(db.rows[id].id, s.version, s.marker) in TokensFor(s, db.rows[id]);
    }
  }

  class SearchIndex {
    var db: Db

    constructor (initial: Db)
      ensures db == initial
    {
      db := initial;
    }

    /** `retire_key_version`: deletes exactly the old version's digests, and only while every live
        row has all its digests under the active version, which it keeps. */
    method RetireKey(s: Scheme, retired: int, canDelete: bool, apply: bool) returns (v: Verdict)
      requires Keyed(db) && MarkersHonest(db, s)
      modifies this
      ensures db.rows == old(db.rows)
      ensures v.Deleted? <==> 0 < retired <= 32767 && retired != s.version && apply && canDelete
                              && AllCovered(old(db), s)
      ensures v.Deleted? ==>
                db.tokens == old(db.tokens) - OldTokens(old(db), retired) && AllCovered(db, s)
                && v.count == v.found == |OldTokens(old(db), retired)| && OldTokens(db, retired) == {}
      ensures v.Deleted? ==>
                (forall id :: id in db.rows && db.rows[id].live ==> Indexed(db, s, id))
                && (forall t :: t in db.tokens <==> t in old(db).tokens && t.version != retired)
      ensures v.Deleted? || v.Incomplete? ==>
                (v.Deleted? <==> forall id :: id in old(db).rows && old(db).rows[id].live ==>
                                   Indexed(old(db), s, id))
      ensures !v.Deleted? ==> db == old(db)
      ensures v.Incomplete? ==> !AllCovered(db, s)
    {
      if !(0 < retired <= 32767) || retired == s.version { return Invalid; }
      GateIsExact(db, s);
      AllCoveredIffIndexed(db, s);
      var coverage := Gate(db, s);
      var oldCount := |OldTokens(db, retired)|;
      if !apply { return DryRun(oldCount); }
      if !canDelete { return NotAllowed; }
      if !coverage { return Incomplete; }
      var doomed := OldTokens(db, retired);
      ghost var before := db;
      db := db.(tokens := db.tokens - doomed);
      forall id | id in db.rows && db.rows[id].live ensures Covered(db, s, id) {
        assert Covered(before, s, id);
      }
      AllCoveredIffIndexed(db, s);
      return Deleted(oldCount, |doomed|);
    }

    /** Other writers between two batches. */
    method Interfere(s: Scheme, ops: seq<Op>, ghost saved: Option<Stamp>, ghost running: Option<Stamp>,
                     ghost start: State, ghost trace: seq<Op>)
      requires Leads(start, s, trace, State(db, saved, Some(running)))
      requires Keyed(db) && Foreign(db, s, ops)
      modifies this
      ensures Keyed(db) && Leads(start, s, trace + ops, State(db, saved, Some(running)))
    {
      assert trace + ops[..0] == trace;
      for i := 0 to |ops|
        invariant Keyed(db) && Foreign(db, s, ops[i..])
        invariant Leads(start, s, trace + ops[..i], State(db, saved, Some(running)))
      {
        assert ops[i..][1..] == ops[i + 1..];
        assert trace + ops[..i + 1] == (trace + ops[..i]) + [ops[i]];
        ForeignIgnoresProcess(db, s, ops[i], saved, running);
        StepKeepsKeyed(State(db, None, None), s, ops[i]);
        LeadsSnoc(start, s, trace + ops[..i], State(db, saved, Some(running)), ops[i]);
        db := Step(State(db, None, None), s, ops[i]).db;
      }
      assert trace + ops[..|ops|] == trace + ops;
    }

    /** Other writers act before batch n. */
    method AwaitOthers(s: Scheme, others: (nat, Db) -> seq<Op>, n: nat, ghost saved: Option<Stamp>,
                       ghost running: Option<Stamp>, ghost start: State, ghost trace: seq<Op>,
                       ghost size: nat, ghost batches: nat)
      requires Traced(start, s, trace, State(db, saved, Some(running)), size, batches, others)
      requires Foreign(db, s, others(n, db))
      modifies this
      ensures Traced(start, s, trace + others(n, old(db)), State(db, saved, Some(running)), size,
                     batches, others)
    {
      OthersPerform(trace, s, size, batches, others, n, db);
      Interfere(s, others(n, db), saved, running, start, trace);
    }

    /** One committed batch, if there is a row to take. */
    method TakeBatch(s: Scheme, running: Option<Stamp>, size: nat, ghost saved: Option<Stamp>,
                     ghost start: State, ghost trace: seq<Op>, ghost batches: nat,
                     ghost others: (nat, Db) -> seq<Op>)
      returns (found: bool, next: Option<Stamp>)
      requires Traced(start, s, trace, State(db, saved, Some(running)), size, batches, others)
      modifies this
      ensures found <==> Selected(old(db), running, size) != []
      ensures if found
              then Traced(start, s, trace + [Batch(size)], State(db, saved, Some(next)), size,
                          batches + 1, others)
                   && |Ahead(db, next)| < |Ahead(old(db), running)|
              else db == old(db) && next == running
    {
      var rows := Selected(db, running, size);
      if rows == [] { return false, running; }
      FewerAhead(db, running, size);
      BatchTraced(start, s, trace, db, saved, running, size, batches, others);
      SelectedRows(db, running, size);
      db := db.(tokens := db.tokens + TokensOf(db, s, rows));
      return true, Some(rows[|rows| - 1]);
    }

    /** `backfill_workspace` with dry_run off. Each turn is one committed batch; before each of the
        first `busy` batches other writers act, in whatever way depends on what they see. `trace`
        is what was done, in order: the batches of this process and the steps of the others. */
    method Backfill(s: Scheme, cursor: Option<Stamp>, size: nat, maxBatches: Option<nat>,
                    busy: nat, others: (nat, Db) -> seq<Op>)
      returns (end: Option<Stamp>, complete: bool, batches: nat, ghost trace: seq<Op>)
      requires 1 <= size <= 10000 && (maxBatches.Some? ==> maxBatches.value >= 1)
      requires Inv(State(db, cursor, None), s)
      requires forall i: nat, d: Db :: Foreign(d, s, others(i, d))
      modifies this
      ensures Traced(State(old(db), cursor, Some(cursor)), s, trace, State(db, cursor, Some(end)),
                     size, batches, others)
      ensures busy == 0 ==> |trace| == batches
      ensures Keyed(db) && CoveredUpTo(db, s, end) && CoveredUpTo(db, s, cursor)
              && MarkersHonest(db, s)
      ensures complete ==> Selected(db, end, size) == [] && AllCovered(db, s)
      ensures complete ==> forall id :: id in db.rows && db.rows[id].live ==> Indexed(db, s, id)
      ensures forall id :: id in db.rows && db.rows[id].live && end.Some?
                           && (db.rows[id].at < end.value.at
                               || (db.rows[id].at == end.value.at && id.n <= end.value.id.n)) ==>
                Indexed(db, s, id)
      ensures !complete ==> maxBatches.Some? && batches == maxBatches.value
      ensures maxBatches.Some? ==> batches <= maxBatches.value
    {
      end, complete, batches, trace := cursor, false, 0, [];
      ghost var start := State(db, cursor, Some(cursor));
      while maxBatches.None? || batches < maxBatches.value
        invariant !complete && (maxBatches.Some? ==> batches <= maxBatches.value)
        invariant Traced(start, s, trace, State(db, cursor, Some(end)), size, batches, others)
        invariant busy == 0 ==> |trace| == batches
        decreases if batches < busy then busy - batches else 0, |Ahead(db, end)|
      {
        if batches < busy {
          ghost var seen := db;
          AwaitOthers(s, others, batches, cursor, end, start, trace, size, batches);
          trace := trace + others(batches, seen);
        }
        var found;
        found, end := TakeBatch(s, end, size, cursor, start, trace, batches, others);
        if !found {
          complete := true;
          break;
        }
        batches, trace := batches + 1, trace + [Batch(size)];
      }
      LeadsKeepInv(start, s, trace, State(db, cursor, Some(end)));
      if complete { CompleteIffCursorHonest(db, s, end, size); }
      UpToIndexed(db, s, end);
      AllCoveredIffIndexed(db, s);
    }
  }

  function CountBatches(ops: seq<Op>): nat {
    if ops == [] then 0
    else CountBatches(ops[..|ops| - 1]) + if ops[|ops| - 1].Batch? then 1 else 0
  }

  /** The trace holds that many batches, all of the given size, and else only steps of the others. */
  ghost predicate Performed(ops: seq<Op>, size: nat, batches: nat, others: (nat, Db) -> seq<Op>) {
    CountBatches(ops) == batches
    && forall i :: 0 <= i < |ops| ==>
         if ops[i].Batch? then ops[i].size == size else exists n: nat, d: Db :: ops[i] in others(n, d)
  }

  ghost predicate Traced(start: State, s: Scheme, trace: seq<Op>, st: State, size: nat, batches: nat,
                         others: (nat, Db) -> seq<Op>)
  {
    Keyed(st.db) && Leads(start, s, trace, st) && Performed(trace, size, batches, others)
  }

  lemma BatchTraced(start: State, s: Scheme, trace: seq<Op>, db: Db, saved: Option<Stamp>,
                    running: Option<Stamp>, size: nat, batches: nat, others: (nat, Db) -> seq<Op>)
    requires Traced(start, s, trace, State(db, saved, Some(running)), size, batches, others)
    ensures var rows := Selected(db, running, size);
            Traced(start, s, trace + [Batch(size)],
                   State(BatchDb(db, s, running, size), saved, Some(CursorAfter(running, rows))),
                   size, batches + 1, others)
  {
    var st := State(db, saved, Some(running));
    LeadsSnoc(start, s, trace, st, Batch(size));
    StepKeepsKeyed(st, s, Batch(size));
    BatchPerforms(trace, size, batches, others);
  }

  lemma BatchPerforms(ops: seq<Op>, size: nat, batches: nat, others: (nat, Db) -> seq<Op>)
    requires Performed(ops, size, batches, others)
    ensures Performed(ops + [Batch(size)], size, batches + 1, others)
  {
    assert (ops + [Batch(size)])[..|ops|] == ops;
  }

  lemma {:induction false} QuietSteps(ops: seq<Op>, more: seq<Op>)
    requires forall i :: 0 <= i < |more| ==> !more[i].Batch?
    ensures CountBatches(ops + more) == CountBatches(ops)
  {
    if more == [] {
      assert ops + more == ops;
    } else {
      QuietSteps(ops, more[..|more| - 1]);
      assert (ops + more)[..|ops| + |more| - 1] == ops + more[..|more| - 1];
    }
  }

  lemma {:induction false} ForeignIsQuiet(db: Db, s: Scheme, ops: seq<Op>)
    requires Keyed(db) && Foreign(db, s, ops)
    ensures forall i :: 0 <= i < |ops| ==> !ops[i].Batch?
    decreases |ops|
  {
    if ops != [] {
      StepKeepsKeyed(State(db, None, None), s, ops[0]);
      ForeignIsQuiet(Step(State(db, None, None), s, ops[0]).db, s, ops[1..]);
      forall i | 0 < i < |ops| ensures !ops[i].Batch? {
        assert ops[i] == ops[1..][i - 1];
      }
    }
  }

  lemma OthersPerform(ops: seq<Op>, s: Scheme, size: nat, batches: nat, others: (nat, Db) -> seq<Op>,
                      n: nat, d: Db)
    requires Performed(ops, size, batches, others) && Keyed(d) && Foreign(d, s, others(n, d))
    ensures Performed(ops + others(n, d), size, batches, others)
  {
    var more := others(n, d);
    ForeignIsQuiet(d, s, more);
    QuietSteps(ops, more);
    forall i | |ops| <= i < |ops| + |more| ensures (ops + more)[i] in others(n, d) {
      assert (ops + more)[i] == more[i - |ops|];
    }
  }

  /** Steps of other writers, permitted one after the other. */
  ghost predicate Foreign(db: Db, s: Scheme, ops: seq<Op>)
    decreases |ops|
  {
    ops != [] && Keyed(db) ==>
      !(ops[0].Begin? || ops[0].Batch? || ops[0].Finish? || ops[0].Crash?)
      && Permitted(State(db, None, None), s, ops[0])
      && Foreign(Step(State(db, None, None), s, ops[0]).db, s, ops[1..])
  }

  lemma ForeignIgnoresProcess(db: Db, s: Scheme, op: Op, saved: Option<Stamp>, running: Option<Stamp>)
    requires Keyed(db) && !(op.Begin? || op.Batch? || op.Finish? || op.Crash?)
    ensures Permitted(State(db, saved, Some(running)), s, op) <==> Permitted(State(db, None, None), s, op)
    ensures Step(State(db, saved, Some(running)), s, op) ==
            State(Step(State(db, None, None), s, op).db, saved, Some(running))
  {}

  lemma FewerAhead(db: Db, cursor: Option<Stamp>, size: nat)
    requires Keyed(db) && Selected(db, cursor, size) != []
    ensures forall tokens :: |Ahead(Db(db.rows, tokens), CursorAfter(cursor, Selected(db, cursor, size)))|
                             < |Ahead(db, cursor)|
  {
    var at := Selected(db, cursor, size);
    SelectedRows(db, cursor, size);
    var last := at[|at| - 1];
    assert last in at;
    forall tokens
      ensures |Ahead(Db(db.rows, tokens), CursorAfter(cursor, at))| < |Ahead(db, cursor)|
    {
      var rest := Ahead(Db(db.rows, tokens), Some(last));
      assert rest <= Ahead(db, cursor) - {last};
      SubsetSize(rest, Ahead(db, cursor) - {last});
    }
  }

}
