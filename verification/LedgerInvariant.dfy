/** The invariant of the ledger and its preservation by every permitted step. */
module LedgerInvariant {
  import opened Uuids
  import opened Records
  import opened Chains
  import opened Ledger

  predicate Tells(event: Event, id: Uuid) {
    event.name == RETAINED && event.correlation == Some(id)
  }

  /** How many outbox rows announce the item. */
  function Told(events: seq<Event>, id: Uuid): nat {
    if events == [] then 0
    else Told(events[..|events| - 1], id) + (if Tells(events[|events| - 1], id) then 1 else 0)
  }

  /** A recorded key carries the workspace it was scoped to. */
  predicate ScopedTo(key: string, workspace: Uuid) {
    |key| >= 37 && key[..37] == Str(workspace) + ":"
  }

  ghost predicate KeysResolve(s: State) {
    forall k :: k in s.idem ==>
      s.idem[k] in s.items && s.items[s.idem[k]].tenant == k.0
      && ScopedTo(k.1, s.items[s.idem[k]].workspace)
  }

  /** Exactly one outbox event per stored item, in the item's scope, and none for others. */
  ghost predicate OutboxMatches(s: State) {
    && (forall id: Uuid :: Told(s.events, id) == if id in s.items then 1 else 0)
    && (forall i :: 0 <= i < |s.events| && s.events[i].name == RETAINED
                    && s.events[i].correlation.Some? && s.events[i].correlation.value in s.items ==>
          Announces(s.events[i], s.items[s.events[i].correlation.value]))
  }

  ghost predicate ProposalsBacked(s: State) {
    forall p :: p in s.proposals ==>
      s.proposals[p].id == p &&
      (s.proposals[p].status == ProposalStatus.Accepted ==>
         s.proposals[p].acceptedMemory.Some?
         && exists m :: m in s.items && Str(m) == s.proposals[p].acceptedMemory.value)
  }

  ghost predicate FiledResolve(s: State) {
    forall k :: k in s.filed ==> s.filed[k] in s.proposals
  }

  ghost predicate Inv(s: State) {
    WellShaped(s.items) && KeysResolve(s) && OutboxMatches(s) && ProposalsBacked(s)
    && FiledResolve(s)
  }

  lemma ToldSnoc(events: seq<Event>, event: Event, id: Uuid)
    ensures Told(events + [event], id) == Told(events, id) + if Tells(event, id) then 1 else 0
  {
    assert (events + [event])[..|events|] == events;
  }

  lemma ScopeKeyScoped(workspace: Uuid, key: string)
    ensures ScopedTo(ScopeKey(workspace, key), workspace)
  {}

  /** Adding one announced row, which may join the chains, keeps the invariant. */
  lemma AddAnnounced(s: State, item: Item, event: Event, s': State)
    requires Inv(s) && MayJoin(s.items, item) && Announces(event, item)
    requires s' == s.(items := s.items[item.id := item], events := s.events + [event])
    ensures Inv(s')
  {
    JoinKeepsShape(s.items, item);
    forall id: Uuid ensures Told(s'.events, id) == if id in s'.items then 1 else 0 {
      ToldSnoc(s.events, event, id);
    }
    forall i | 0 <= i < |s.events| && s.events[i].name == RETAINED && s.events[i].correlation.Some?
      ensures s.events[i].correlation.value != item.id
    {
      ToldPositive(s.events, i, s.events[i].correlation.value);
    }
  }

  lemma {:induction false} ToldPositive(events: seq<Event>, i: nat, id: Uuid)
    requires i < |events| && Tells(events[i], id)
    ensures Told(events, id) > 0
  {
    if i < |events| - 1 { ToldPositive(events[..|events| - 1], i, id); }
  }

  lemma {:induction false} ToldWitness(events: seq<Event>, id: Uuid) returns (i: nat)
    requires Told(events, id) > 0
    ensures i < |events| && Tells(events[i], id)
  {
    var n := |events| - 1;
    if Tells(events[n], id) { i := n; } else { i := ToldWitness(events[..n], id); }
  }

  lemma AddKey(s: State, key: Option<Key>, id: Uuid, s': State)
    requires Inv(s) && id in s.items
    requires key.Some? ==> key.value.0 == s.items[id].tenant
                           && ScopedTo(key.value.1, s.items[id].workspace)
    requires s' == s.(idem := Remember(s.idem, key, id))
    ensures Inv(s')
  {}

  lemma StoreKeepsInv(s: State, item: Item, event: Event, key: Option<string>,
                      audit: Option<AuditEvent>)
    requires Inv(s) && FreshPair(s, item, event) && MayJoin(s.items, item)
    ensures Inv(Store(s, item, event, Scoped(item.tenant, item.workspace, key), audit))
  {
    var k := Scoped(item.tenant, item.workspace, key);
    var s1 := s.(items := s.items[item.id := item], events := s.events + [event]);
    AddAnnounced(s, item, event, s1);
    if key.Some? { ScopeKeyScoped(item.workspace, key.value); }
    var s2 := s1.(idem := Remember(s.idem, k, item.id));
    AddKey(s1, k, item.id, s2);
    assert Store(s, item, event, k, audit) == s2.(audit := AddAudit(s.audit, audit));
  }

  /** A parent that passes the writer's check may take the replacement. */
  lemma CurrentParentMayJoin(items: Items, item: Item, parent: Item)
    requires WellShaped(items) && item.id !in items && Outgrows(items, item)
    requires item.supersedes.Some? && Get(items, item.tenant, item.supersedes.value) == Some(parent)
    requires Latest(items, parent).id == parent.id
    ensures MayJoin(items, item)
  {
    LeafHasNoChild(items, parent.id);
  }

  lemma SupersedeKeepsInv(s: State, op: Op)
    requires Inv(s) && op.Supersede? && Permitted(s, op)
    ensures Inv(Step(s, op).0)
  {
    var k := Scoped(op.item.tenant, op.item.workspace, op.key);
    if op.item.supersedes.Some? && !Seen(s, k) {
      var parent := Get(s.items, op.item.tenant, op.item.supersedes.value);
      if parent.Some? && Latest(s.items, parent.value).id == parent.value.id {
        CurrentParentMayJoin(s.items, op.item, parent.value);
        StoreKeepsInv(s, op.item, op.event, op.key, op.audit);
      }
    }
  }

  lemma SaveProposalKeepsInv(s: State, p: Proposal)
    requires Inv(s)
    requires p.status == ProposalStatus.Accepted ==>
               p.acceptedMemory.Some?
               && exists m :: m in s.items && Str(m) == p.acceptedMemory.value
    ensures Inv(s.(proposals := s.proposals[p.id := p]))
  {}

  lemma AcceptKeepsInv(s: State, op: Op)
    requires Inv(s) && op.Accept? && Permitted(s, op)
    ensures Inv(Step(s, op).0)
  {
    var s' := Step(s, op).0;
    if s' != s {
      StoreKeepsInv(s, op.item, op.event, Some(op.acceptKey), op.audit);
      var k := Scoped(op.item.tenant, op.item.workspace, Some(op.acceptKey));
      var s1 := Store(s, op.item, op.event, k, op.audit);
      var done := AcceptedBy(s.proposals[op.proposal.id], op.item.id, op.review);
      assert op.item.id in s1.items;
      SaveProposalKeepsInv(s1, done);
    }
  }

  // ---------------------------------------------------------------- resolution

  /** Batch writes valid against one item map stay valid while the earlier ones are applied. */
  ghost predicate Ready(s: State, writes: seq<Write>) {
    DistinctIds(writes) && DistinctParents(writes) &&
    forall i :: 0 <= i < |writes| ==>
      Announces(writes[i].event, writes[i].item) && MayJoin(s.items, writes[i].item)
  }

  lemma ReadyAfterFirst(s: State, writes: seq<Write>, s': State)
    requires writes != [] && Ready(s, writes)
    requires s'.items == s.items[writes[0].item.id := writes[0].item]
    ensures Ready(s', writes[1..])
  {
    forall i | 0 <= i < |writes| - 1 ensures MayJoin(s'.items, writes[1..][i].item) {
      var item := writes[i + 1].item;
      assert item.id != writes[0].item.id;
      if item.supersedes.Some? {
        var p := item.supersedes.value;
        assert !HasChild(s.items, p);
        assert writes[0].item.supersedes != item.supersedes;
        forall c | c in s'.items ensures s'.items[c].supersedes != Some(p) {
          if c != writes[0].item.id { assert c in s.items; }
        }
      }
    }
  }

  lemma {:induction false} BatchKeepsInv(s: State, writes: seq<Write>, s': State)
    requires Inv(s) && Ready(s, writes)
    requires s' == s.(items := AddItems(s.items, writes), events := s.events + WriteEvents(writes))
    ensures Inv(s')
    decreases |writes|
  {
    if writes == [] {
      assert s' == s;
    } else {
      var w := writes[0];
      var s1 := s.(items := s.items[w.item.id := w.item], events := s.events + [w.event]);
      AddAnnounced(s, w.item, w.event, s1);
      ReadyAfterFirst(s, writes, s1);
      assert s.events + WriteEvents(writes) == s1.events + WriteEvents(writes[1..]);
      BatchKeepsInv(s1, writes[1..], s');
    }
  }

  /** A batch passes validation exactly when each write does on its own. */
  lemma {:induction false} BatchErrorFree(items: Items, d: Decision, writes: seq<Write>)
    ensures BatchError(items, d, writes).None? <==>
            forall i :: 0 <= i < |writes| ==> WriteError(items, d, writes[i]).None?
  {
    if writes != [] {
      BatchErrorFree(items, d, writes[1..]);
      assert forall i :: 0 <= i < |writes| - 1 ==> writes[1..][i] == writes[i + 1];
    }
  }

  lemma ValidBatchReady(s: State, d: Decision, writes: seq<Write>, audit: Option<AuditEvent>)
    requires Inv(s) && Permitted(s, Resolve(d, writes, audit))
    requires BatchError(s.items, d, writes).None?
    ensures Ready(s, writes)
  {
    BatchErrorFree(s.items, d, writes);
    forall i | 0 <= i < |writes| ensures MayJoin(s.items, writes[i].item) {
      var item := writes[i].item;
      assert WriteError(s.items, d, writes[i]).None?;
      var parent := Get(s.items, item.tenant, item.supersedes.value);
      CurrentParentMayJoin(s.items, item, parent.value);
    }
  }

  lemma ResolveKeepsInv(s: State, op: Op)
    requires Inv(s) && op.Resolve? && Permitted(s, op)
    ensures Inv(Step(s, op).0)
  {
    var Resolve(d, writes, audit) := op;
    if !Applied(s, CaseKey(d)) && BatchError(s.items, d, writes).None? {
      ValidBatchReady(s, d, writes, audit);
      var s1 := s.(items := AddItems(s.items, writes), events := s.events + WriteEvents(writes));
      BatchKeepsInv(s, writes, s1);
      assert Step(s, op).0 ==
        s1.(reviews := s.reviews[CaseKey(d) := d], audit := AddAudit(s.audit, audit));
    }
  }

  // ---------------------------------------------------------------- every step

  lemma EnqueueOtherKeepsInv(s: State, event: Event)
    requires Inv(s) && event.name != RETAINED
    ensures Inv(s.(events := Enqueue(s.events, event)))
  {
    forall id: Uuid { ToldSnoc(s.events, event, id); }
  }

  lemma RetainKeepsInv(s: State, op: Op)
    requires Inv(s) && op.Retain? && Permitted(s, op)
    ensures Inv(Step(s, op).0)
  {
    StoreKeepsInv(s, op.item, op.event, op.key, op.audit);
  }

  lemma ReviewsKeepInv(s: State, op: Op)
    requires Inv(s) && Permitted(s, op)
    requires op.FileProposal? || op.SaveProposalReview? || op.SaveConflictReview?
    ensures Inv(Step(s, op).0)
  {
    if !op.SaveConflictReview? { SaveProposalKeepsInv(s, op.proposal); }
  }

  lemma PublishKeepsInv(s: State, op: Op)
    requires Inv(s) && op.Publish? && Permitted(s, op)
    ensures Inv(Step(s, op).0)
  {
    EnqueueOtherKeepsInv(s, op.event);
  }

  /** Every permitted step of every writer keeps the ledger invariant. */
  lemma StepKeepsInv(s: State, op: Op)
    requires Inv(s) && Permitted(s, op)
    ensures Inv(Step(s, op).0)
  {
    match op
    case Retain(_, _, _, _) => RetainKeepsInv(s, op);
    case Supersede(_, _, _, _, _) => SupersedeKeepsInv(s, op);
    case Accept(_, _, _, _, _, _) => AcceptKeepsInv(s, op);
    case Resolve(_, _, _) => ResolveKeepsInv(s, op);
    case Publish(_) => PublishKeepsInv(s, op);
    case _ => ReviewsKeepInv(s, op);
  }

  /** A call that raises, in any state and with any arguments, changes nothing. */
  lemma FailureChangesNothing(s: State, op: Op)
    requires Step(s, op).1.Failed?
    ensures Step(s, op).0 == s
  {}
}
