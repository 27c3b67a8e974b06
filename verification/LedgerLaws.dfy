/** What single calls leave behind and answer, field by field, and what that means for a client
    that repeats a call later in a run. */
module LedgerLaws {
  import opened Uuids
  import opened Records
  import opened Chains
  import opened Ledger
  import opened LedgerInvariant
  import opened LedgerRuns

  // ---------------------------------------------------------------- creation

  lemma CreatingStores(s: State, op: Op, key: Option<string>)
    requires op.Retain? && Step(s, op).1.Stored? && Step(s, op).1.created && key == op.key
    ensures Step(s, op).1.item == op.item
    ensures Step(s, op).0 ==
            Store(s, op.item, op.event, Scoped(op.item.tenant, op.item.workspace, key), op.audit)
  {}

  lemma ReplacingStores(s: State, op: Op, key: Option<string>)
    requires op.Supersede? && Step(s, op).1.Stored? && Step(s, op).1.created && key == op.key
    ensures Step(s, op).1.item == op.item
    ensures Step(s, op).0 ==
            Store(s, op.item, op.event, Scoped(op.item.tenant, op.item.workspace, key), op.audit)
  {}

  /** A retain or supersede that creates leaves its row, its key if it has one, its event and its
      audit entry unless one has that id, and nothing else. */
  lemma CreationIsComplete(s: State, op: Op)
    requires Inv(s) && Permitted(s, op) && (op.Retain? || op.Supersede?)
    requires Step(s, op).1.Stored? && Step(s, op).1.created
    ensures Step(s, op).1.item == op.item
    ensures Step(s, op).0 == s.(
              items := s.items[op.item.id := op.item],
              idem := if op.key.None? then s.idem
                      else s.idem[(op.item.tenant, ScopeKey(op.item.workspace, op.key.value)) := op.item.id],
              events := s.events + [op.event],
              audit := if op.audit.None? || op.audit.value.id in s.audit then s.audit
                       else s.audit[op.audit.value.id := op.audit.value])
  {
    if op.Retain? { CreatingStores(s, op, op.key); } else { ReplacingStores(s, op, op.key); }
  }

  /** An acceptance that creates leaves the memory, its key, its event and audit entry, and moves
      the proposal, otherwise unchanged, to accepted with its review and the memory's name. */
  lemma AcceptanceIsComplete(s: State, op: Op)
    requires Inv(s) && Permitted(s, op) && op.Accept?
    requires Step(s, op).1.Taken? && Step(s, op).1.created
    ensures op.proposal.id in s.proposals && Step(s, op).1.memory == op.item
    ensures var accepted := s.proposals[op.proposal.id].(
              status := ProposalStatus.Accepted, review := Some(op.review),
              acceptedMemory := Some(Str(op.item.id)));
            Step(s, op).1.proposal == accepted
            && Step(s, op).0 == s.(
              items := s.items[op.item.id := op.item],
              idem := s.idem[(op.item.tenant, ScopeKey(op.item.workspace, op.acceptKey)) := op.item.id],
              events := s.events + [op.event],
              proposals := s.proposals[op.proposal.id := accepted],
              audit := if op.audit.None? || op.audit.value.id in s.audit then s.audit
                       else s.audit[op.audit.value.id := op.audit.value])
  {}

  /** The call created a memory under this scope and key. */
  ghost predicate CreatedUnder(s: State, op: Op, tenant: Uuid, workspace: Uuid, key: string) {
    match op
    case Retain(item, _, k, _) =>
      item.tenant == tenant && item.workspace == workspace && k == Some(key)
      && Step(s, op).1 == Stored(item, true)
    case Supersede(item, _, _, k, _) =>
      item.tenant == tenant && item.workspace == workspace && k == Some(key)
      && Step(s, op).1 == Stored(item, true)
    case Accept(_, item, _, _, k, _) =>
      item.tenant == tenant && item.workspace == workspace && k == key
      && Step(s, op).1.Taken? && Step(s, op).1.created
    case _ => false
  }

  /** The call repeats a write under this scope and key. */
  predicate Repeats(op: Op, tenant: Uuid, workspace: Uuid, key: string) {
    match op
    case Retain(item, _, k, _) =>
      item.tenant == tenant && item.workspace == workspace && k == Some(key)
    case Supersede(item, _, _, k, _) =>
      item.tenant == tenant && item.workspace == workspace && k == Some(key)
      && item.supersedes.Some?
    case _ => false
  }

  lemma CreationRecordsKey(s: State, op: Op, tenant: Uuid, workspace: Uuid, key: string)
    requires Inv(s) && Permitted(s, op) && CreatedUnder(s, op, tenant, workspace, key)
    ensures op.Retain? || op.Supersede? || op.Accept?
    ensures Step(s, op).0.idem == s.idem[(tenant, ScopeKey(workspace, key)) := op.item.id]
    ensures op.item.id in Step(s, op).0.items && Step(s, op).0.items[op.item.id] == op.item
  {
    if op.Accept? { AcceptanceIsComplete(s, op); } else { CreationIsComplete(s, op); }
  }

  /** Whatever kind of call created under a key, every later retain or supersede of the run under
      that key, however it was built, is answered with the created item and changes nothing. */
  lemma CreatedKeyAnswers(states: seq<State>, ops: seq<Op>, i: nat, j: nat,
                          tenant: Uuid, workspace: Uuid, key: string)
    requires IsRun(states, ops) && i < j < |ops|
    requires CreatedUnder(states[i], ops[i], tenant, workspace, key)
    requires Repeats(ops[j], tenant, workspace, key)
    ensures ops[i].Retain? || ops[i].Supersede? || ops[i].Accept?
    ensures OutcomeAt(states, ops, j) == Stored(ops[i].item, false) && states[j + 1] == states[j]
  {
    RunKeepsInv(states, ops, i);
    CreationRecordsKey(states[i], ops[i], tenant, workspace, key);
    ReplayReturnsFirst(states, ops, i + 1, j);
  }

  // ---------------------------------------------------------------- refusals

  /** A supersede under an unused key that does not create raises: no declared parent, no such item
      in the tenant, or a revision conflict that names the childless end of the parent's chain. */
  lemma SupersedeRefusals(s: State, op: Op)
    requires Inv(s) && op.Supersede?
    requires op.key.Some? ==>
               (op.item.tenant, ScopeKey(op.item.workspace, op.key.value)) !in s.idem
    ensures op.item.supersedes.None? ==> Step(s, op) == (s, Failed(ParentNotDeclared))
    ensures op.item.supersedes.Some? ==>
              var p := op.item.supersedes.value;
              if p !in s.items || s.items[p].tenant != op.item.tenant
              then Step(s, op) == (s, Failed(NotFound))
              else if HasChild(s.items, p) then
                exists head :: head in s.items && !HasChild(s.items, head)
                  && Root(s.items, head) == Root(s.items, p)
                  && Step(s, op) == (s, Failed(RevisionConflict(p, op.expected, s.items[head].revision)))
              else s.items[p].revision != op.expected ==>
                Step(s, op) == (s, Failed(RevisionConflict(p, op.expected, s.items[p].revision)))
  {
    if op.item.supersedes.Some? && op.item.supersedes.value in s.items {
      var p := op.item.supersedes.value;
      var head := Latest(s.items, s.items[p]);
      LeafHasNoChild(s.items, p);
      OneLeafPerChain(s.items, p, p);
      LatestStored(s.items, p);
      LatestSharesRoot(s.items, p);
      assert s.items[head.id] == head;
    }
  }

  /** An acceptance of a proposal the tenant does not have, or of a refused one, raises. */
  lemma AcceptRefusals(s: State, op: Op)
    requires op.Accept?
    ensures op.proposal.id !in s.proposals
            || s.proposals[op.proposal.id].tenant != op.proposal.tenant ==>
              Step(s, op) == (s, Failed(NotFound))
    ensures op.proposal.id in s.proposals
            && s.proposals[op.proposal.id].tenant == op.proposal.tenant
            && s.proposals[op.proposal.id].status == Refused ==>
              Step(s, op) == (s, Failed(ProposalRefused))
  {}

  // ---------------------------------------------------------------- conflict resolution

  /** Whether a write is what the resolution loop lets pass, and what it raises if not. */
  ghost predicate RefusedWith(items: Items, d: Decision, w: Write, e: Error) {
    if w.item.tenant != d.tenant || w.item.workspace != d.workspace then e == CrossesScope
    else if w.item.supersedes.None? then e == ParentNotDeclared
    else
      var p := w.item.supersedes.value;
      if p !in items || items[p].tenant != w.item.tenant then e == NotFound
      else e.RevisionConflict? && e.item == p && e.expected == w.expected
           && (HasChild(items, p) || items[p].revision != w.expected)
           && exists head :: head in items && !HasChild(items, head)
                && items[head].revision == e.actual && items[head].revision >= items[p].revision
  }

  lemma WriteRefused(items: Items, d: Decision, w: Write)
    requires WellShaped(items) && WriteError(items, d, w).Some?
    ensures RefusedWith(items, d, w, WriteError(items, d, w).value)
  {
    if w.item.supersedes.Some? && w.item.supersedes.value in items {
      var p := w.item.supersedes.value;
      LeafHasNoChild(items, p);
      OneLeafPerChain(items, p, p);
      LatestStored(items, p);
      assert items[Latest(items, items[p]).id] == Latest(items, items[p]);
    }
  }

  lemma {:induction false} BatchRaisesFirst(items: Items, d: Decision, writes: seq<Write>, i: nat)
    requires WellShaped(items) && i < |writes| && !Acceptable(items, d, writes[i])
    requires forall k :: 0 <= k < i ==> Acceptable(items, d, writes[k])
    ensures BatchError(items, d, writes).Some?
    ensures RefusedWith(items, d, writes[i], BatchError(items, d, writes).value)
  {
    AcceptableMeansNoError(items, d, writes[0]);
    if i == 0 {
      WriteRefused(items, d, writes[0]);
    } else {
      assert writes[1..][i - 1] == writes[i];
      forall k | 0 <= k < i - 1 ensures Acceptable(items, d, writes[1..][k]) {
        assert writes[1..][k] == writes[k + 1];
      }
      BatchRaisesFirst(items, d, writes[1..], i - 1);
    }
  }

  /** A resolution raises the error of its first write that is not acceptable. */
  lemma ResolutionRaisesFirst(s: State, d: Decision, writes: seq<Write>, audit: Option<AuditEvent>, i: nat)
    requires Inv(s) && i < |writes| && !Acceptable(s.items, d, writes[i])
    requires forall k :: 0 <= k < i ==> Acceptable(s.items, d, writes[k])
    requires (d.tenant, d.caseId) in s.reviews ==> s.reviews[(d.tenant, d.caseId)].applied.None?
    ensures var (s', out) := Step(s, Resolve(d, writes, audit));
            s' == s && out.Failed? && RefusedWith(s.items, d, writes[i], out.error)
  {
    BatchRaisesFirst(s.items, d, writes, i);
  }

  /** A resolution that goes through changes, besides items and events, only the review of its case
      and the audit log. */
  lemma ResolutionIsComplete(s: State, d: Decision, writes: seq<Write>, audit: Option<AuditEvent>)
    requires Inv(s) && forall i :: 0 <= i < |writes| ==> Acceptable(s.items, d, writes[i])
    requires (d.tenant, d.caseId) in s.reviews ==> s.reviews[(d.tenant, d.caseId)].applied.None?
    ensures var (s', out) := Step(s, Resolve(d, writes, audit));
            out == Decided(d)
            && s' == s.(items := s'.items, events := s'.events,
                        reviews := s.reviews[(d.tenant, d.caseId) := d],
                        audit := if audit.None? || audit.value.id in s.audit then s.audit
                                 else s.audit[audit.value.id := audit.value])
            && |s'.events| == |s.events| + |writes|
            && forall i :: 0 <= i < |s'.events| ==>
                 s'.events[i] == if i < |s.events| then s.events[i] else writes[i - |s.events|].event
  {
    BatchFreeIffAcceptable(s.items, d, writes);
    ResolvingWrites(s, d, writes, audit);
    EventsAppended(s.events, writes);
  }

  lemma ResolvingWrites(s: State, d: Decision, writes: seq<Write>, audit: Option<AuditEvent>)
    requires !Applied(s, CaseKey(d)) && BatchError(s.items, d, writes).None?
    ensures Step(s, Resolve(d, writes, audit)) ==
            (s.(items := AddItems(s.items, writes), events := s.events + WriteEvents(writes),
                reviews := s.reviews[(d.tenant, d.caseId) := d],
                audit := if audit.None? || audit.value.id in s.audit then s.audit
                         else s.audit[audit.value.id := audit.value]),
             Decided(d))
  {}

  lemma EventsAppended(events: seq<Event>, writes: seq<Write>)
    ensures var all := events + WriteEvents(writes);
            |all| == |events| + |writes|
            && forall i :: 0 <= i < |all| ==>
                 all[i] == if i < |events| then events[i] else writes[i - |events|].event
  {}

  /** While the case's decision is applied, a resolution answers with it if verdict and winner agree
      and is refused otherwise, whatever its writes; the ledger stays as it was. */
  lemma AppliedAnswers(s: State, d: Decision, writes: seq<Write>, audit: Option<AuditEvent>)
    requires (d.tenant, d.caseId) in s.reviews && s.reviews[(d.tenant, d.caseId)].applied.Some?
    ensures var was := s.reviews[(d.tenant, d.caseId)];
            Step(s, Resolve(d, writes, audit)) ==
              (s, if was.kind == d.kind && was.winner == d.winner then Decided(was)
                  else Failed(AlreadyApplied))
  {}

  // ---------------------------------------------------------------- proposals and reviews

  /** Filing under an unused key stores the proposal and records the key; filing under a used key
      answers with the proposal filed first, as it is now, and changes nothing. */
  lemma FilingIsComplete(s: State, op: Op)
    requires Inv(s) && op.FileProposal?
    ensures var k := if op.key.None? then None
                     else Some((op.proposal.tenant, ScopeKey(op.proposal.workspace, op.key.value)));
            if k.Some? && k.value in s.filed then
              s.filed[k.value] in s.proposals
              && Step(s, op) == (s, Filed(s.proposals[s.filed[k.value]], false))
            else
              Step(s, op) == (s.(proposals := s.proposals[op.proposal.id := op.proposal],
                                 filed := if k.None? then s.filed else s.filed[k.value := op.proposal.id],
                                 audit := if op.audit.None? || op.audit.value.id in s.audit then s.audit
                                          else s.audit[op.audit.value.id := op.audit.value]),
                              Filed(op.proposal, true))
  {}

  lemma OthersLeaveFiled(s: State, op: Op)
    requires !op.FileProposal?
    ensures Step(s, op).0.filed == s.filed && s.proposals.Keys <= Step(s, op).0.proposals.Keys
  {}

  lemma StepKeepsFiled(s: State, op: Op)
    requires Inv(s) && Permitted(s, op)
    ensures Grows(s.filed, Step(s, op).0.filed)
    ensures s.proposals.Keys <= Step(s, op).0.proposals.Keys
  {
    if op.FileProposal? { FilingIsComplete(s, op); } else { OthersLeaveFiled(s, op); }
  }

  lemma {:induction false} RunKeepsFiled(states: seq<State>, ops: seq<Op>, i: nat, j: nat)
    requires IsRun(states, ops) && i <= j < |states|
    ensures Grows(states[i].filed, states[j].filed)
    ensures states[i].proposals.Keys <= states[j].proposals.Keys
    decreases j
  {
    if i < j {
      RunKeepsFiled(states, ops, i, j - 1);
      RunKeepsInv(states, ops, j - 1);
      StepKeepsFiled(states[j - 1], ops[j - 1]);
    }
  }

  /** A proposal is filed once per key: later filings under it name the proposal filed first. */
  lemma FiledKeyAnswers(states: seq<State>, ops: seq<Op>, i: nat, j: nat)
    requires IsRun(states, ops) && i < j < |ops| && ops[i].FileProposal? && ops[j].FileProposal?
    requires OutcomeAt(states, ops, i) == Filed(ops[i].proposal, true)
    requires ops[i].key.Some? && ops[i].key == ops[j].key
    requires ops[i].proposal.tenant == ops[j].proposal.tenant
             && ops[i].proposal.workspace == ops[j].proposal.workspace
    ensures states[j + 1] == states[j] && ops[i].proposal.id in states[j].proposals
    ensures OutcomeAt(states, ops, j) == Filed(states[j].proposals[ops[i].proposal.id], false)
  {
    RunKeepsInv(states, ops, i);
    FilingIsComplete(states[i], ops[i]);
    RunKeepsFiled(states, ops, i + 1, j);
    RunKeepsInv(states, ops, j);
    FilingIsComplete(states[j], ops[j]);
  }

  /** A review replaces the tenant's stored proposal and nothing else; a decision on a conflict
      replaces the case's review; publishing adds the event unless its id is known. */
  lemma ReviewsAreComplete(s: State, op: Op)
    ensures op.SaveProposalReview? ==>
              Step(s, op) ==
                if op.proposal.id in s.proposals
                   && s.proposals[op.proposal.id].tenant == op.proposal.tenant
                then (s.(proposals := s.proposals[op.proposal.id := op.proposal],
                         audit := if op.audit.None? || op.audit.value.id in s.audit then s.audit
                                  else s.audit[op.audit.value.id := op.audit.value]),
                      Reviewed(op.proposal))
                else (s, Failed(NotFound))
    ensures op.SaveConflictReview? ==>
              Step(s, op) ==
                (s.(reviews := s.reviews[(op.decision.tenant, op.decision.caseId) := op.decision],
                    audit := if op.audit.None? || op.audit.value.id in s.audit then s.audit
                             else s.audit[op.audit.value.id := op.audit.value]),
                 Decided(op.decision))
    ensures op.Publish? ==>
              Step(s, op) ==
                (s.(events := if exists i :: 0 <= i < |s.events| && s.events[i].id == op.event.id
                              then s.events else s.events + [op.event]),
                 Published)
  {}

  // ---------------------------------------------------------------- events

  lemma {:induction false} ToldAtLeast(events: seq<Event>, id: Uuid, i: nat, j: nat)
    requires i < |events| && Tells(events[i], id)
    requires j < |events| && Tells(events[j], id)
    ensures Told(events, id) >= if i == j then 1 else 2
  {
    var front := events[..|events| - 1];
    if i < |front| && j < |front| {
      ToldAtLeast(front, id, i, j);
    } else if i < |front| {
      ToldAtLeast(front, id, i, i);
    } else if j < |front| {
      ToldAtLeast(front, id, j, j);
    }
  }

  /** Every stored item has one delivery event, in its tenant and workspace, and only one. */
  lemma OneEventPerItem(s: State, id: Uuid) returns (i: nat)
    requires Inv(s) && id in s.items
    ensures i < |s.events| && s.events[i].name == "memory.retained.v1"
            && s.events[i].correlation == Some(id) && s.events[i].tenant == s.items[id].tenant
            && s.events[i].workspace == s.items[id].workspace
    ensures forall j ::
              (0 <= j < |s.events| && s.events[j].name == "memory.retained.v1"
               && s.events[j].correlation == Some(id)) ==> j == i
  {
    i := ToldWitness(s.events, id);
    assert Announces(s.events[i], s.items[id]);
    forall j | 0 <= j < |s.events| && Tells(s.events[j], id) ensures j == i {
      ToldAtLeast(s.events, id, i, j);
    }
  }

  // ---------------------------------------------------------------- readers

  /** Readers recall exactly the tenant's items that are neither rejected nor archived and are the
      end of their chain. */
  lemma RecallableIff(items: Items, tenant: Uuid, id: Uuid)
    requires WellShaped(items)
    ensures IsRecallableHead(items, tenant, id) <==>
            id in items && items[id].tenant == tenant
            && items[id].status != MemoryStatus.Rejected && items[id].status != Archived
            && Latest(items, items[id]) == items[id]
  {
    if id in items && items[id].tenant == tenant { LeafHasNoChild(items, id); }
  }

  /** The freshness counts, in the fields of items: every unarchived childless item of the
      workspace is active and waits for delivery. */
  lemma FreshnessInFields(s: State, tenant: Uuid, workspace: Uuid)
    requires Inv(s)
    ensures var heads := set id | id in s.items && s.items[id].tenant == tenant
                                  && s.items[id].workspace == workspace
                                  && s.items[id].status != MemoryStatus.Rejected
                                  && s.items[id].status != Archived
                                  && forall c :: c in s.items ==> s.items[c].supersedes != Some(id);
            EmbeddingFreshness(s, tenant, workspace) == Freshness(|heads|, |heads|, |heads|, 0)
  {
    FreshnessCountsHeads(s, tenant, workspace);
    var heads := set id | id in s.items && s.items[id].tenant == tenant
                          && s.items[id].workspace == workspace
                          && s.items[id].status != MemoryStatus.Rejected
                          && s.items[id].status != Archived
                          && forall c :: c in s.items ==> s.items[c].supersedes != Some(id);
    assert heads == set id | id in s.items && s.items[id].workspace == workspace
                             && IsRecallableHead(s.items, tenant, id);
  }
}
