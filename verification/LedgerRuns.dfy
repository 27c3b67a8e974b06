/** What holds over whole runs: any finite interleaving of permitted calls from the empty store. */
module LedgerRuns {
  import opened Uuids
  import opened Records
  import opened Chains
  import opened Ledger
  import opened LedgerInvariant

  ghost predicate IsRun(states: seq<State>, ops: seq<Op>) {
    |states| == |ops| + 1 && states[0] == EMPTY &&
    forall i :: 0 <= i < |ops| ==>
      Permitted(states[i], ops[i]) && states[i + 1] == Step(states[i], ops[i]).0
  }

  ghost function OutcomeAt(states: seq<State>, ops: seq<Op>, i: nat): Outcome
    requires i < |ops| && |states| == |ops| + 1
  {
    Step(states[i], ops[i]).1
  }

  ghost predicate Grows<K, V>(m: map<K, V>, m': map<K, V>) {
    forall k :: k in m ==> k in m' && m'[k] == m[k]
  }

  /** Nothing stored is changed or removed, and published events keep their places. */
  ghost predicate Extends(s: State, s': State) {
    Grows(s.items, s'.items) && Grows(s.idem, s'.idem) && s.events <= s'.events
    && Grows(s.audit, s'.audit)
  }

  lemma {:induction false} AddItemsGrows(items: Items, writes: seq<Write>)
    requires DistinctIds(writes)
    requires forall i :: 0 <= i < |writes| ==> writes[i].item.id !in items
    ensures Grows(items, AddItems(items, writes))
    ensures forall i :: 0 <= i < |writes| ==>
              writes[i].item.id in AddItems(items, writes)
              && AddItems(items, writes)[writes[i].item.id] == writes[i].item
    ensures forall id :: id in AddItems(items, writes) && id !in items ==>
              exists i :: 0 <= i < |writes| && writes[i].item.id == id
    decreases |writes|
  {
    if writes != [] {
      var next := items[writes[0].item.id := writes[0].item];
      AddItemsGrows(next, writes[1..]);
      var all := AddItems(items, writes);
      assert writes[0].item.id in next;
      forall i | 0 < i < |writes|
        ensures writes[i].item.id in all && all[writes[i].item.id] == writes[i].item
      {
        assert writes[1..][i - 1] == writes[i];
      }
      forall id | id in all && id !in items && id != writes[0].item.id
        ensures exists i :: 0 <= i < |writes| && writes[i].item.id == id
      {
        var i :| 0 <= i < |writes| - 1 && writes[1..][i].item.id == id;
        assert writes[i + 1].item.id == id;
      }
    }
  }

  lemma ResolveExtends(s: State, op: Op)
    requires Permitted(s, op) && op.Resolve?
    ensures Extends(s, Step(s, op).0)
  {
    AddItemsGrows(s.items, op.writes);
  }

  lemma StoreExtends(s: State, item: Item, event: Event, key: Option<Key>,
                     audit: Option<AuditEvent>)
    requires item.id !in s.items && !Seen(s, key)
    ensures Extends(s, Store(s, item, event, key, audit))
  {}

  lemma AcceptExtends(s: State, op: Op)
    requires Permitted(s, op) && op.Accept?
    ensures Extends(s, Step(s, op).0)
  {
    var k := (op.item.tenant, ScopeKey(op.item.workspace, op.acceptKey));
    if k !in s.idem { StoreExtends(s, op.item, op.event, Some(k), op.audit); }
  }

  lemma StepExtends(s: State, op: Op)
    requires Permitted(s, op)
    ensures Extends(s, Step(s, op).0)
  {
    match op
    case Retain(item, event, key, audit) =>
      var k := Scoped(item.tenant, item.workspace, key);
      if !Seen(s, k) { StoreExtends(s, item, event, k, audit); }
    case Supersede(item, event, _, key, audit) =>
      var k := Scoped(item.tenant, item.workspace, key);
      if !Seen(s, k) { StoreExtends(s, item, event, k, audit); }
    case Accept(_, _, _, _, _, _) => AcceptExtends(s, op);
    case Resolve(_, _, _) => ResolveExtends(s, op);
    case _ =>
  }

  /** Reachable states satisfy the invariant: well-shaped chains, resolvable keys, one outbox
      event per item, every accepted proposal backed by a stored memory. */
  lemma {:induction false} RunKeepsInv(states: seq<State>, ops: seq<Op>, i: nat)
    requires IsRun(states, ops) && i < |states|
    ensures Inv(states[i])
  {
    if i > 0 {
      RunKeepsInv(states, ops, i - 1);
      StepKeepsInv(states[i - 1], ops[i - 1]);
    }
  }

  /** The ledger is append-only over any stretch of a run. */
  lemma {:induction false} RunAppendsOnly(states: seq<State>, ops: seq<Op>, i: nat, j: nat)
    requires IsRun(states, ops) && i <= j < |states|
    ensures Extends(states[i], states[j])
    decreases j
  {
    if i < j {
      RunAppendsOnly(states, ops, i, j - 1);
      StepExtends(states[j - 1], ops[j - 1]);
    }
  }

  // ---------------------------------------------------------------- single calls

  function WriterKey(op: Op): Option<Key> {
    match op
    case Retain(item, _, key, _) => Scoped(item.tenant, item.workspace, key)
    case Supersede(item, _, _, key, _) => Scoped(item.tenant, item.workspace, key)
    case Accept(_, item, _, _, key, _) => Scoped(item.tenant, item.workspace, Some(key))
    case _ => None
  }

  // ---------------------------------------------------------------- compare and swap

  /** The i-th step gave item p a replacement. */
  ghost predicate Replaces(states: seq<State>, i: nat, p: Uuid)
    requires i + 1 < |states|
  {
    exists c :: c in states[i + 1].items && c !in states[i].items
                && states[i + 1].items[c].supersedes == Some(p)
  }

  /** However many writers race on one parent, by supersede or by conflict resolution, at most
      one call of the whole run replaces it. */
  lemma RaceHasOneWinner(states: seq<State>, ops: seq<Op>, p: Uuid, i: nat, j: nat)
    requires IsRun(states, ops) && i < j < |ops|
    requires Replaces(states, i, p)
    ensures !Replaces(states, j, p)
  {
    var c :| c in states[i + 1].items && c !in states[i].items
             && states[i + 1].items[c].supersedes == Some(p);
    RunAppendsOnly(states, ops, i + 1, j);
    RunAppendsOnly(states, ops, j, j + 1);
    RunKeepsInv(states, ops, j + 1);
    forall d | d in states[j + 1].items && d !in states[j].items
      ensures states[j + 1].items[d].supersedes != Some(p)
    {
      assert c in states[j].items && c in states[j + 1].items;
      assert states[j + 1].items[c].supersedes == Some(p);
    }
  }

  /** What a writer with an unused key learns from a failed attempt on p: the revision of the true
      head, which is above p's; from another tenant, that there is no such item. */
  ghost predicate ToldOfHead(s: State, op: Op, p: Uuid, out: Outcome)
    requires p in s.items && op.Supersede?
  {
    var head := Latest(s.items, s.items[p]);
    out == (if op.item.tenant == s.items[p].tenant
            then Failed(RevisionConflict(p, op.expected, head.revision)) else Failed(NotFound))
    && head.revision > s.items[p].revision && !HasChild(s.items, head.id)
  }

  lemma LoserStep(s: State, op: Op, p: Uuid)
    requires Inv(s) && p in s.items && HasChild(s.items, p)
    requires op.Supersede? && op.item.supersedes == Some(p) && !Seen(s, WriterKey(op))
    ensures Step(s, op).0 == s && ToldOfHead(s, op, p, Step(s, op).1)
  {
    var c :| c in s.items && s.items[c].supersedes == Some(p);
    LeafHasNoChild(s.items, p);
    OneLeafPerChain(s.items, p, p);
    LatestOfChild(s.items, c);
  }

  /** Once p has been replaced, a later attempt under an unused key raises the conflict with the
      revision of the true head and leaves the ledger as it was. */
  lemma LoserSeesHead(states: seq<State>, ops: seq<Op>, p: Uuid, i: nat, j: nat)
    requires IsRun(states, ops) && i < j < |ops|
    requires Replaces(states, i, p)
    ensures p in states[j].items
    ensures ops[j].Supersede? && ops[j].item.supersedes == Some(p)
            && !Seen(states[j], WriterKey(ops[j])) ==>
              states[j + 1] == states[j] && ToldOfHead(states[j], ops[j], p, OutcomeAt(states, ops, j))
  {
    var c :| c in states[i + 1].items && c !in states[i].items
             && states[i + 1].items[c].supersedes == Some(p);
    RunAppendsOnly(states, ops, i + 1, j);
    RunKeepsInv(states, ops, j);
    assert c in states[j].items && states[j].items[c].supersedes == Some(p);
    if ops[j].Supersede? && ops[j].item.supersedes == Some(p)
       && !Seen(states[j], WriterKey(ops[j]))
    {
      LoserStep(states[j], ops[j], p);
    }
  }

  /** A supersede call creates its row exactly when the key is unused, the parent is a stored,
      unreplaced item of the tenant, and the expected revision is the parent's. */
  lemma SupersedeWinsIff(s: State, op: Op)
    requires Inv(s) && op.Supersede? && Permitted(s, op)
    ensures Step(s, op).1 == Stored(op.item, true) <==>
            && op.item.supersedes.Some?
            && !Seen(s, Scoped(op.item.tenant, op.item.workspace, op.key))
            && var p := op.item.supersedes.value;
               p in s.items && s.items[p].tenant == op.item.tenant
               && !HasChild(s.items, p) && s.items[p].revision == op.expected
    ensures Step(s, op).1 == Stored(op.item, true) ==>
            Step(s, op).0.items == s.items[op.item.id := op.item]
            && Step(s, op).0.events == s.events + [op.event]
  {
    if op.item.supersedes.Some? && op.item.supersedes.value in s.items {
      LeafHasNoChild(s.items, op.item.supersedes.value);
    }
  }

  /** A retain call creates its row exactly when its key is unused, and then adds precisely that
      row, that key, one outbox event and the audit entry. */
  lemma RetainWinsIff(s: State, op: Op)
    requires Inv(s) && op.Retain? && Permitted(s, op)
    ensures Step(s, op).1.Stored?
    ensures Step(s, op).1.created <==> !Seen(s, WriterKey(op))
    ensures Step(s, op).1.created ==>
              Step(s, op).1.item == op.item
              && Step(s, op).0 == s.(items := s.items[op.item.id := op.item],
                                     idem := Remember(s.idem, WriterKey(op), op.item.id),
                                     events := s.events + [op.event],
                                     audit := AddAudit(s.audit, op.audit))
    ensures !Step(s, op).1.created ==>
              Step(s, op).0 == s && Step(s, op).1.item == s.items[s.idem[WriterKey(op).value]]
  {}

  /** An acceptance creates a memory exactly when the stored proposal is still open and the key is
      unused; it then stores the memory with its event and moves the proposal to accepted. */
  lemma AcceptWinsIff(s: State, op: Op)
    requires Inv(s) && op.Accept? && Permitted(s, op)
    ensures var p := op.proposal.id;
            var (s', out) := Step(s, op);
            (out.Taken? && out.created <==>
               p in s.proposals && s.proposals[p].tenant == op.proposal.tenant
               && (s.proposals[p].status == Open || s.proposals[p].status == NeedsReview)
               && !Seen(s, WriterKey(op)))
            && (out.Taken? && out.created ==>
                  out.memory == op.item && s'.items == s.items[op.item.id := op.item]
                  && s'.events == s.events + [op.event]
                  && s'.proposals == s.proposals[p := out.proposal]
                  && out.proposal.status == ProposalStatus.Accepted
                  && out.proposal.acceptedMemory == Some(Str(op.item.id))
                  && out.proposal.text == s.proposals[p].text)
            && (!(out.Taken? && out.created) ==> s' == s)
  {}

  /** Without the numbering rule a successful replacement leaves the writers' and the readers'
      view of the chain apart: the shape survives exactly when the replacement is newer. */
  lemma NumberingIsNeeded(s: State, op: Op)
    requires Inv(s) && op.Supersede? && FreshPair(s, op.item, op.event)
    requires Step(s, op).1 == Stored(op.item, true)
    ensures WellShaped(Step(s, op).0.items) <==> Outgrows(s.items, op.item)
  {
    JoinKeepsShape(s.items, op.item);
    LeafHasNoChild(s.items, op.item.supersedes.value);
  }

  // ---------------------------------------------------------------- idempotency keys

  /** A key resolves, for the rest of the run, to the item first stored under it, and that item
      belongs to the tenant and workspace the key was scoped to. */
  lemma KeyResolvesForever(states: seq<State>, ops: seq<Op>, i: nat, j: nat, k: Key)
    requires IsRun(states, ops) && i <= j < |states| && k in states[i].idem
    ensures k in states[j].idem && states[j].idem[k] == states[i].idem[k]
    ensures states[i].idem[k] in states[i].items && states[i].idem[k] in states[j].items
    ensures var item := states[i].items[states[i].idem[k]];
            states[j].items[states[j].idem[k]] == item
            && item.tenant == k.0 && ScopedTo(k.1, item.workspace)
  {
    RunKeepsInv(states, ops, i);
    RunAppendsOnly(states, ops, i, j);
  }

  /** A replay returns the first item, stores nothing and publishes nothing. */
  lemma ReplayReturnsFirst(states: seq<State>, ops: seq<Op>, i: nat, j: nat)
    requires IsRun(states, ops) && i <= j < |ops|
    requires ops[j].Retain? || (ops[j].Supersede? && ops[j].item.supersedes.Some?)
    requires WriterKey(ops[j]).Some? && WriterKey(ops[j]).value in states[i].idem
    ensures states[i].idem[WriterKey(ops[j]).value] in states[i].items
    ensures states[j + 1] == states[j]
    ensures OutcomeAt(states, ops, j) ==
            Stored(states[i].items[states[i].idem[WriterKey(ops[j]).value]], false)
  {
    KeyResolvesForever(states, ops, i, j, WriterKey(ops[j]).value);
  }

  /** Equal recorded keys mean equal tenant, workspace and client key: scopes never collide. */
  lemma WriterKeysDoNotCollide(a: Op, b: Op)
    requires a.Retain? && b.Retain? && a.key.Some? && b.key.Some?
    requires WriterKey(a) == WriterKey(b)
    ensures a.item.tenant == b.item.tenant && a.item.workspace == b.item.workspace && a.key == b.key
  {
    ScopeKeyInjective(a.item.workspace, a.key.value, b.item.workspace, b.key.value);
  }

  // ---------------------------------------------------------------- proposals

  /** Assigns each key to the proposal whose acceptance may use it, or to ordinary writes. */
  type Owners = Key -> Option<Uuid>

  predicate Respects(own: Owners, op: Op) {
    match op
    case Accept(p, item, _, _, key, _) =>
      own((item.tenant, ScopeKey(item.workspace, key))) == Some(p.id)
    case _ => WriterKey(op).Some? ==> own(WriterKey(op).value).None?
  }

  ghost predicate AcceptedAs(s: State, p: Uuid, memory: Uuid) {
    p in s.proposals && s.proposals[p].status == ProposalStatus.Accepted
    && s.proposals[p].acceptedMemory == Some(Str(memory))
  }

  ghost predicate KeysOwned(s: State, own: Owners) {
    forall k :: k in s.idem && own(k).Some? ==> AcceptedAs(s, own(k).value, s.idem[k])
  }

  /** The step leaves the verdict on p as it is, and an accepted proposal entirely. */
  ghost predicate VerdictKept(s: State, s': State, p: Uuid)
    requires p in s.proposals
  {
    p in s'.proposals && s'.proposals[p].status == s.proposals[p].status
    && s'.proposals[p].tenant == s.proposals[p].tenant
    && (s.proposals[p].status == ProposalStatus.Accepted ==> s'.proposals[p] == s.proposals[p])
  }

  lemma AcceptKeepsVerdict(s: State, op: Op, p: Uuid)
    requires Inv(s) && op.Accept? && p in s.proposals
    requires s.proposals[p].status == ProposalStatus.Accepted || s.proposals[p].status == Refused
    ensures VerdictKept(s, Step(s, op).0, p)
  {
    assert op.proposal.id in s.proposals ==> s.proposals[op.proposal.id].id == op.proposal.id;
  }

  lemma OthersLeaveProposals(s: State, op: Op)
    requires !op.Accept? && !op.FileProposal? && !op.SaveProposalReview?
    ensures Step(s, op).0.proposals == s.proposals
  {}

  lemma FilingKeepsVerdict(s: State, op: Op, p: Uuid)
    requires Inv(s) && Permitted(s, op) && p in s.proposals
    requires op.FileProposal? || op.SaveProposalReview?
    requires s.proposals[p].status == ProposalStatus.Accepted || s.proposals[p].status == Refused
    ensures VerdictKept(s, Step(s, op).0, p)
  {}

  /** Acceptance and refusal are final for a permitted step. */
  lemma VerdictIsFinal(s: State, op: Op, p: Uuid)
    requires Inv(s) && Permitted(s, op) && p in s.proposals
    requires s.proposals[p].status == ProposalStatus.Accepted || s.proposals[p].status == Refused
    ensures VerdictKept(s, Step(s, op).0, p)
  {
    if op.Accept? {
      AcceptKeepsVerdict(s, op, p);
    } else if op.FileProposal? || op.SaveProposalReview? {
      FilingKeepsVerdict(s, op, p);
    } else {
      OthersLeaveProposals(s, op);
    }
  }

  lemma NewKeyIsWriters(s: State, op: Op, k: Key)
    requires k !in s.idem && k in Step(s, op).0.idem
    ensures WriterKey(op) == Some(k)
  {}

  lemma AcceptRecordsKey(s: State, op: Op)
    requires Inv(s) && op.Accept? && WriterKey(op).value !in s.idem
    requires WriterKey(op).value in Step(s, op).0.idem
    ensures AcceptedAs(Step(s, op).0, op.proposal.id, Step(s, op).0.idem[WriterKey(op).value])
  {}

  /** A key recorded by this step belongs to its writer. */
  lemma NewKeyOwned(s: State, op: Op, own: Owners, k: Key)
    requires Inv(s) && Permitted(s, op) && Respects(own, op)
    requires k !in s.idem && k in Step(s, op).0.idem && own(k).Some?
    ensures AcceptedAs(Step(s, op).0, own(k).value, Step(s, op).0.idem[k])
  {
    NewKeyIsWriters(s, op, k);
    if op.Accept? { AcceptRecordsKey(s, op); }
  }

  lemma StepKeepsOwned(s: State, op: Op, own: Owners)
    requires Inv(s) && Permitted(s, op) && KeysOwned(s, own) && Respects(own, op)
    ensures KeysOwned(Step(s, op).0, own)
  {
    var s' := Step(s, op).0;
    forall k | k in s'.idem && own(k).Some? ensures AcceptedAs(s', own(k).value, s'.idem[k]) {
      if k in s.idem {
        assert AcceptedAs(s, own(k).value, s.idem[k]);
        VerdictIsFinal(s, op, own(k).value);
        StepExtends(s, op);
      } else {
        NewKeyOwned(s, op, own, k);
      }
    }
  }

  lemma {:induction false} RunKeepsOwned(states: seq<State>, ops: seq<Op>, own: Owners, i: nat)
    requires IsRun(states, ops) && i < |states|
    requires forall n :: 0 <= n < |ops| ==> Respects(own, ops[n])
    ensures KeysOwned(states[i], own)
  {
    if i > 0 {
      RunKeepsOwned(states, ops, own, i - 1);
      RunKeepsInv(states, ops, i - 1);
      StepKeepsOwned(states[i - 1], ops[i - 1], own);
    }
  }

  lemma {:induction false} RunKeepsVerdict(states: seq<State>, ops: seq<Op>, p: Uuid, i: nat, j: nat)
    requires IsRun(states, ops) && i <= j < |states| && p in states[i].proposals
    requires states[i].proposals[p].status == ProposalStatus.Accepted
             || states[i].proposals[p].status == Refused
    ensures p in states[j].proposals
    ensures states[j].proposals[p].status == states[i].proposals[p].status
    ensures states[j].proposals[p].tenant == states[i].proposals[p].tenant
    ensures states[i].proposals[p].status == ProposalStatus.Accepted ==>
              states[j].proposals[p] == states[i].proposals[p]
    decreases j
  {
    if i < j {
      RunKeepsVerdict(states, ops, p, i, j - 1);
      RunKeepsInv(states, ops, j - 1);
      VerdictIsFinal(states[j - 1], ops[j - 1], p);
    }
  }

  lemma NamedMemoryIs(items: Items, id: Uuid)
    requires id in items
    ensures NamedMemory(items, Some(Str(id))) == Some(items[id])
  {
    forall x | x in items && Str(x) == Str(id) ensures x == id { StrInjective(x, id); }
  }

  function AcceptKey(op: Op): Key
    requires op.Accept?
  {
    (op.item.tenant, ScopeKey(op.item.workspace, op.acceptKey))
  }

  /** The acceptance key is unused, or names the memory its proposal was accepted as. The service
      passes a caller's key through, so nothing but the caller keeps it from being another one. */
  ghost predicate UsesOwnKey(s: State, op: Op)
    requires op.Accept?
  {
    AcceptKey(op) in s.idem ==> AcceptedAs(s, op.proposal.id, s.idem[AcceptKey(op)])
  }

  /** The memory an acceptance is answered with is the one its proposal is accepted as exactly when
      its key is its own. */
  lemma AnsweredOwnMemoryIff(s: State, op: Op)
    requires Inv(s) && Permitted(s, op) && op.Accept? && Step(s, op).1.Taken?
    ensures var memory := Step(s, op).1.memory;
            var s' := Step(s, op).0;
            (AcceptedAs(s', op.proposal.id, memory.id) <==> UsesOwnKey(s, op))
            && memory.id in s'.items && s'.items[memory.id] == memory
            && op.proposal.id in s'.proposals
            && s'.proposals[op.proposal.id].tenant == op.proposal.tenant
  {
    var p := s.proposals[op.proposal.id];
    if AcceptKey(op) !in s.idem && p.status == ProposalStatus.Accepted {
      var m :| m in s.items && Str(m) == p.acceptedMemory.value;
      NamedMemoryIs(s.items, m);
    }
  }

  /** Under a key recorded for something else an acceptance is answered with that other memory,
      marked as not created, and an open proposal stays open. */
  lemma SharedKeyAcceptsNothing(s: State, op: Op)
    requires Inv(s) && Permitted(s, op) && op.Accept? && Step(s, op).1.Taken?
    requires !UsesOwnKey(s, op)
    ensures Step(s, op).0 == s && !Step(s, op).1.created
    ensures Step(s, op).1.memory == s.items[s.idem[AcceptKey(op)]]
    ensures Step(s, op).1.proposal == s.proposals[op.proposal.id]
  {}

  lemma TakenIsDecided(s: State, op: Op, memory: Item)
    requires Inv(s) && op.Accept? && AcceptedAs(s, op.proposal.id, memory.id)
    requires memory.id in s.items && s.items[memory.id] == memory
    requires s.proposals[op.proposal.id].tenant == op.proposal.tenant
    ensures Step(s, op).0 == s && Step(s, op).1.Taken? && !Step(s, op).1.created
    ensures Step(s, op).1.memory == memory <==> UsesOwnKey(s, op)
  {
    NamedMemoryIs(s.items, memory.id);
    if AcceptKey(op) in s.idem && UsesOwnKey(s, op) {
      StrInjective(s.idem[AcceptKey(op)], memory.id);
    }
  }

  /** Once an acceptance of a proposal under its own key has been answered, every later acceptance
      of it, under whatever key, creates nothing, and is answered with that same memory exactly when
      its key is its own. */
  lemma AcceptExactlyOnce(states: seq<State>, ops: seq<Op>, i: nat, j: nat)
    requires IsRun(states, ops) && i < j < |ops|
    requires ops[i].Accept? && ops[j].Accept? && OutcomeAt(states, ops, i).Taken?
    requires UsesOwnKey(states[i], ops[i])
    requires ops[i].proposal.id == ops[j].proposal.id
             && ops[i].proposal.tenant == ops[j].proposal.tenant
    ensures states[j + 1] == states[j]
    ensures OutcomeAt(states, ops, j).Taken? && !OutcomeAt(states, ops, j).created
    ensures OutcomeAt(states, ops, j).memory == OutcomeAt(states, ops, i).memory
            <==> UsesOwnKey(states[j], ops[j])
  {
    var p, memory := ops[i].proposal.id, OutcomeAt(states, ops, i).memory;
    RunKeepsInv(states, ops, i);
    AnsweredOwnMemoryIff(states[i], ops[i]);
    RunKeepsVerdict(states, ops, p, i + 1, j);
    RunAppendsOnly(states, ops, i + 1, j);
    RunKeepsInv(states, ops, j);
    TakenIsDecided(states[j], ops[j], memory);
  }

  /** Where every acceptance key belongs to one proposal, all keys are their proposals' own. */
  lemma OwnedKeysAreOwn(states: seq<State>, ops: seq<Op>, own: Owners, i: nat)
    requires IsRun(states, ops) && i < |ops| && ops[i].Accept?
    requires forall n :: 0 <= n < |ops| ==> Respects(own, ops[n])
    ensures UsesOwnKey(states[i], ops[i])
  {
    RunKeepsOwned(states, ops, own, i);
    assert Respects(own, ops[i]);
  }

  lemma AcceptFindsMemory(s: State, op: Op)
    requires Inv(s) && op.Accept?
    ensures AcceptStep(s, op.proposal, op.item, op.event, op.review, op.acceptKey, op.audit).1
            != Failed(AcceptedMemoryMissing)
  {
    if op.proposal.id in s.proposals {
      var p := s.proposals[op.proposal.id];
      if p.status == ProposalStatus.Accepted {
        var m :| m in s.items && Str(m) == p.acceptedMemory.value;
        NamedMemoryIs(s.items, m);
      }
    }
  }

  /** The "accepted proposal is missing its durable memory" branch cannot be reached. */
  lemma AcceptedMemoryIsDurable(states: seq<State>, ops: seq<Op>, i: nat)
    requires IsRun(states, ops) && i < |ops|
    ensures OutcomeAt(states, ops, i) != Failed(AcceptedMemoryMissing)
  {
    RunKeepsInv(states, ops, i);
    match ops[i]
    case Resolve(d, writes, _) => NoAcceptErrors(states[i].items, d, writes);
    case Accept(_, _, _, _, _, _) => AcceptFindsMemory(states[i], ops[i]);
    case _ =>
  }

  lemma {:induction false} NoAcceptErrors(items: Items, d: Decision, writes: seq<Write>)
    ensures BatchError(items, d, writes) != Some(AcceptedMemoryMissing)
    ensures BatchError(items, d, writes) != Some(AlreadyApplied)
  {
    if writes != [] { NoAcceptErrors(items, d, writes[1..]); }
  }

  /** A refused proposal stays refused, and every acceptance of it raises and changes nothing. */
  lemma RefusedStaysRefused(states: seq<State>, ops: seq<Op>, p: Uuid, i: nat, j: nat)
    requires IsRun(states, ops) && i <= j < |ops|
    requires p in states[i].proposals && states[i].proposals[p].status == Refused
    ensures p in states[j].proposals && states[j].proposals[p].status == Refused
    ensures ops[j].Accept? && ops[j].proposal.id == p
            && ops[j].proposal.tenant == states[i].proposals[p].tenant ==>
              OutcomeAt(states, ops, j) == Failed(ProposalRefused) && states[j + 1] == states[j]
  {
    RunKeepsVerdict(states, ops, p, i, j);
  }

  // ---------------------------------------------------------------- conflict resolution

  /** A write the current ledger can take: in the decision's scope, replacing an unreplaced item
      of the tenant at the revision the operator saw. */
  ghost predicate Acceptable(items: Items, d: Decision, w: Write) {
    w.item.tenant == d.tenant && w.item.workspace == d.workspace && w.item.supersedes.Some? &&
    var p := w.item.supersedes.value;
    p in items && items[p].tenant == d.tenant && !HasChild(items, p) && items[p].revision == w.expected
  }

  lemma AcceptableMeansNoError(items: Items, d: Decision, w: Write)
    requires WellShaped(items)
    ensures WriteError(items, d, w).None? <==> Acceptable(items, d, w)
  {
    if w.item.supersedes.Some? && w.item.supersedes.value in items {
      LeafHasNoChild(items, w.item.supersedes.value);
    }
  }

  lemma BatchFreeIffAcceptable(items: Items, d: Decision, writes: seq<Write>)
    requires WellShaped(items)
    ensures BatchError(items, d, writes).None? <==>
            forall i :: 0 <= i < |writes| ==> Acceptable(items, d, writes[i])
  {
    BatchErrorFree(items, d, writes);
    forall i | 0 <= i < |writes|
      ensures WriteError(items, d, writes[i]).None? <==> Acceptable(items, d, writes[i])
    {
      AcceptableMeansNoError(items, d, writes[i]);
    }
  }

  lemma ResolutionSucceeds(s: State, d: Decision, writes: seq<Write>, audit: Option<AuditEvent>)
    requires !Applied(s, CaseKey(d)) && BatchError(s.items, d, writes).None?
    ensures var (s', out) := Step(s, Resolve(d, writes, audit));
            && out == Decided(d) && s'.reviews == s.reviews[CaseKey(d) := d]
            && s'.items == AddItems(s.items, writes)
            && s'.events == s.events + WriteEvents(writes)
            && s'.idem == s.idem && s'.proposals == s.proposals
  {}

  lemma ResolutionFails(s: State, d: Decision, writes: seq<Write>, audit: Option<AuditEvent>)
    requires !Applied(s, CaseKey(d)) && BatchError(s.items, d, writes).Some?
    ensures Step(s, Resolve(d, writes, audit)).1.Failed? && Step(s, Resolve(d, writes, audit)).0 == s
  {}

  /** All or nothing, for a batch of any length: the decision goes through exactly when every
      write is acceptable, and then every item and event is there and nothing else moved;
      otherwise the ledger is untouched. */
  lemma ResolutionIsAtomic(s: State, d: Decision, writes: seq<Write>, audit: Option<AuditEvent>)
    requires Inv(s) && Permitted(s, Resolve(d, writes, audit)) && !Applied(s, CaseKey(d))
    ensures var (s', out) := Step(s, Resolve(d, writes, audit));
            if forall i :: 0 <= i < |writes| ==> Acceptable(s.items, d, writes[i]) then
              && out == Decided(d) && s'.reviews == s.reviews[CaseKey(d) := d]
              && Grows(s.items, s'.items)
              && (forall i :: 0 <= i < |writes| ==>
                    writes[i].item.id in s'.items && s'.items[writes[i].item.id] == writes[i].item)
              && (forall id :: id in s'.items && id !in s.items ==>
                    exists i :: 0 <= i < |writes| && writes[i].item.id == id)
              && s'.events == s.events + WriteEvents(writes)
              && s'.idem == s.idem && s'.proposals == s.proposals
            else out.Failed? && s' == s
  {
    BatchFreeIffAcceptable(s.items, d, writes);
    if BatchError(s.items, d, writes).Some? {
      ResolutionFails(s, d, writes, audit);
    } else {
      ResolutionSucceeds(s, d, writes, audit);
      AddItemsGrows(s.items, writes);
    }
  }

  lemma TwoChildrenBreakShape(items: Items, a: Item, b: Item)
    requires a.id in items && items[a.id] == a && b.id in items && items[b.id] == b
    requires a.id != b.id && a.supersedes.Some? && a.supersedes == b.supersedes
    ensures !WellShaped(items)
  {
    assert !Linear(items);
  }

  /** Writes are all validated before any is applied, so nothing in the call stops two of them
      from naming one parent: the result is well shaped exactly when the parents are distinct. */
  lemma DistinctParentsAreNeeded(s: State, d: Decision, writes: seq<Write>,
                                 audit: Option<AuditEvent>)
    requires Inv(s) && !Applied(s, CaseKey(d)) && DistinctIds(writes)
    requires forall i :: 0 <= i < |writes| ==>
               FreshPair(s, writes[i].item, writes[i].event) && Outgrows(s.items, writes[i].item)
               && Acceptable(s.items, d, writes[i])
    ensures Step(s, Resolve(d, writes, audit)).1 == Decided(d)
    ensures WellShaped(Step(s, Resolve(d, writes, audit)).0.items) <==> DistinctParents(writes)
  {
    var op := Resolve(d, writes, audit);
    BatchErrorFree(s.items, d, writes);
    forall i | 0 <= i < |writes| { AcceptableMeansNoError(s.items, d, writes[i]); }
    if DistinctParents(writes) {
      StepKeepsInv(s, op);
    } else {
      AddItemsGrows(s.items, writes);
      var i, j :| 0 <= i < j < |writes| && writes[i].item.supersedes.Some?
                  && writes[i].item.supersedes == writes[j].item.supersedes;
      TwoChildrenBreakShape(Step(s, op).0.items, writes[i].item, writes[j].item);
    }
  }

  lemma StepKeepsApplied(s: State, op: Op, c: (Uuid, Uuid))
    requires Permitted(s, op) && Applied(s, c)
    ensures Applied(Step(s, op).0, c) && Step(s, op).0.reviews[c] == s.reviews[c]
  {}

  lemma {:induction false} AppliedForever(states: seq<State>, ops: seq<Op>, c: (Uuid, Uuid),
                                          i: nat, j: nat)
    requires IsRun(states, ops) && i <= j < |states| && Applied(states[i], c)
    ensures Applied(states[j], c) && states[j].reviews[c] == states[i].reviews[c]
    decreases j
  {
    if i < j {
      AppliedForever(states, ops, c, i, j - 1);
      StepKeepsApplied(states[j - 1], ops[j - 1], c);
    }
  }

  /** An applied decision is immutable for the rest of the run: repeating it returns it, any other
      verdict on the case is refused, and neither changes the ledger. */
  lemma AppliedIsImmutable(states: seq<State>, ops: seq<Op>, i: nat, j: nat)
    requires IsRun(states, ops) && i <= j < |ops| && ops[j].Resolve?
    requires Applied(states[i], CaseKey(ops[j].decision))
    ensures states[j + 1] == states[j]
    ensures var was := states[i].reviews[CaseKey(ops[j].decision)];
            OutcomeAt(states, ops, j) ==
              if was.kind == ops[j].decision.kind && was.winner == ops[j].decision.winner
              then Decided(was) else Failed(AlreadyApplied)
  {
    AppliedForever(states, ops, CaseKey(ops[j].decision), i, j);
  }

  // ---------------------------------------------------------------- freshness

  datatype Freshness = Freshness(active: nat, stale: nat, unpublished: nat, missing: nat)

  /** Unarchived items of the workspace without any child, whatever the child's tenant. */
  function ActiveItems(items: Items, tenant: Uuid, workspace: Uuid): set<Uuid> {
    set id | id in items && items[id].tenant == tenant && items[id].workspace == workspace
             && !Tombstone(items[id].status)
             && !exists c :: c in items && items[c].supersedes == Some(items[id].id)
  }

  function PendingIds(events: seq<Event>, tenant: Uuid, workspace: Uuid): set<Option<Uuid>> {
    set i | 0 <= i < |events| && events[i].tenant == tenant && events[i].workspace == workspace
            && events[i].name == RETAINED :: events[i].correlation
  }

  /** `workspace_embedding_freshness`. */
  function EmbeddingFreshness(s: State, tenant: Uuid, workspace: Uuid): Freshness {
    var active := ActiveItems(s.items, tenant, workspace);
    var pending := PendingIds(s.events, tenant, workspace);
    var unpublished := |set id | id in active && Some(id) in pending|;
    var missing := |set id | id in active && Some(id) !in pending|;
    Freshness(|active|, unpublished + missing, unpublished, missing)
  }

  /** In every reachable state the active count is the number of recallable heads of the
      workspace, and no active item lacks its delivery event. */
  lemma FreshnessCountsHeads(s: State, tenant: Uuid, workspace: Uuid)
    requires Inv(s)
    ensures var heads := set id | id in s.items && s.items[id].workspace == workspace
                                  && IsRecallableHead(s.items, tenant, id);
            EmbeddingFreshness(s, tenant, workspace) == Freshness(|heads|, |heads|, |heads|, 0)
  {
    var heads := set id | id in s.items && s.items[id].workspace == workspace
                          && IsRecallableHead(s.items, tenant, id);
    var active := ActiveItems(s.items, tenant, workspace);
    var pending := PendingIds(s.events, tenant, workspace);
    assert active == heads;
    forall id | id in active ensures Some(id) in pending {
      var i := ToldWitness(s.events, id);
      assert Announces(s.events[i], s.items[id]);
    }
    assert (set id | id in active && Some(id) in pending) == active;
    assert (set id | id in active && Some(id) !in pending) == {};
  }
}
