/** The store object: its dictionaries are fields the methods change in place. Each writer is
    proved to take the ledger value through the step of its operation, so what StepKeepsInv and
    the run theorems say of steps holds of calls. */
module MemoryStores {
  import opened Uuids
  import opened Records
  import opened Chains
  import L = Ledger
  import opened LedgerInvariant

  /** A walk of `_latest_descendant` from item to head over the given rows. */
  ghost predicate Trail(items: Items, item: Item, walk: seq<Uuid>, head: Item)
    decreases |walk|
  {
    if walk == [] then head == item
    else IsNewer(items, item, walk[0]) && Trail(items, items[walk[0]], walk[1..], head)
  }

  lemma {:induction false} TrailSnoc(items: Items, item: Item, walk: seq<Uuid>, head: Item, id: Uuid)
    requires Trail(items, item, walk, head) && IsNewer(items, head, id)
    ensures Trail(items, item, walk + [id], items[id])
    decreases |walk|
  {
    if walk != [] {
      TrailSnoc(items, items[walk[0]], walk[1..], head, id);
      assert (walk + [id])[1..] == walk[1..] + [id];
    }
  }

  class MemoryStore {
    var items: Items
    var idem: map<L.Key, Uuid>
    var events: seq<Event>
    var proposals: map<Uuid, Proposal>
    var filed: map<L.Key, Uuid>
    var reviews: map<(Uuid, Uuid), Decision>
    var audit: map<Uuid, AuditEvent>

    ghost function Snapshot(): L.State
      reads this
    {
      L.State(items, idem, events, proposals, filed, reviews, audit)
    }

    constructor ()
      ensures Snapshot() == L.EMPTY && Inv(Snapshot())
    {
      items, idem, events := map[], map[], [];
      proposals, filed, reviews, audit := map[], map[], map[], map[];
    }

    /** Ends on every item map; the result is a leaf reached from `item`, and on a well-shaped
        map it is the one leaf of the chain, in whatever order the rows are visited. */
    method LatestDescendant(item: Item) returns (head: Item)
      ensures exists walk :: Trail(items, item, walk, head)
      ensures forall id :: !IsNewer(items, head, id)
      ensures WellShaped(items) && item.id in items && items[item.id] == item ==>
                head == Latest(items, item)
    {
      head := item;
      var changed := true;
      ghost var walk: seq<Uuid> := [];
      while changed
        invariant Trail(items, item, walk, head)
        invariant head.tenant == item.tenant
        invariant !changed ==> forall id :: !IsNewer(items, head, id)
        invariant WellShaped(items) && item.id in items && items[item.id] == item ==>
                    head.id in items && items[head.id] == head
                    && Latest(items, head) == Latest(items, item)
        decreases |Above(items, head.revision)|, changed
      {
        changed := false;
        var pending := items.Keys;
        while pending != {}
          invariant pending <= items.Keys
          invariant forall id :: id in items && id !in pending ==> !IsNewer(items, head, id)
          decreases pending
        {
          var id :| id in pending;
          pending := pending - {id};
          var candidate := items[id];
          if candidate.tenant == item.tenant && candidate.supersedes == Some(head.id)
             && candidate.revision > head.revision
          {
            AboveShrinks(items, head, id);
            TrailSnoc(items, item, walk, head, id);
            if WellShaped(items) && item.id in items && items[item.id] == item {
              LatestOfChild(items, id);
            }
            head, changed, walk := candidate, true, walk + [id];
            break;
          }
        }
      }
    }

    method AppendAudit(entry: Option<AuditEvent>)
      modifies `audit
      ensures audit == L.AddAudit(old(audit), entry)
    {
      if entry.Some? && entry.value.id !in audit { audit := audit[entry.value.id := entry.value]; }
    }

    method Publish(event: Event)
      modifies `events
      ensures events == L.Enqueue(old(events), event)
    {
      if !exists i :: 0 <= i < |events| && events[i].id == event.id { events := events + [event]; }
    }

    method Append(item: Item, key: Option<string>) returns (stored: Item, created: bool)
      requires KeysResolve(Snapshot())
      modifies `items, `idem
      ensures var k := L.Scoped(item.tenant, item.workspace, key);
              created == !L.Seen(old(Snapshot()), k) &&
              (if created then stored == item && items == old(items)[item.id := item]
                               && idem == L.Remember(old(idem), k, item.id)
               else items == old(items) && idem == old(idem)
                    && L.Stored(stored, false) == L.Replay(old(Snapshot()), k.value))
    {
      var scoped := L.Scoped(item.tenant, item.workspace, key);
      if scoped.Some? {
        if scoped.value in idem {
          return items[idem[scoped.value]], false;
        }
      }
      items := items[item.id := item];
      if scoped.Some? { idem := idem[scoped.value := item.id]; }
      return item, true;
    }

    method Retain(item: Item, event: Event, key: Option<string>, entry: Option<AuditEvent>)
      returns (out: L.Outcome)
      requires KeysResolve(Snapshot())
      modifies this
      ensures (Snapshot(), out) == L.Step(old(Snapshot()), L.Retain(item, event, key, entry))
    {
      var stored, created := Append(item, key);
      if created {
        Publish(event);
        AppendAudit(entry);
      }
      out := L.Stored(stored, created);
    }

    method SupersedeIfCurrent(item: Item, event: Event, expected: int, key: Option<string>,
                              entry: Option<AuditEvent>)
      returns (out: L.Outcome)
      requires WellShaped(items) && KeysResolve(Snapshot())
      modifies this
      ensures (Snapshot(), out) ==
                L.Step(old(Snapshot()), L.Supersede(item, event, expected, key, entry))
    {
      var scoped := L.Scoped(item.tenant, item.workspace, key);
      if item.supersedes.None? { return L.Failed(L.ParentNotDeclared); }
      if scoped.Some? && scoped.value in idem {
        return L.Stored(items[idem[scoped.value]], false);
      }
      var parent := L.Get(items, item.tenant, item.supersedes.value);
      if parent.None? { return L.Failed(L.NotFound); }
      var child := LatestDescendant(parent.value);
      if child.id != parent.value.id || parent.value.revision != expected {
        return L.Failed(L.RevisionConflict(item.supersedes.value, expected, child.revision));
      }
      items := items[item.id := item];
      if scoped.Some? { idem := idem[scoped.value := item.id]; }
      Publish(event);
      AppendAudit(entry);
      return L.Stored(item, true);
    }

    method FindNamed(name: Option<string>) returns (found: Option<Item>)
      ensures found == L.NamedMemory(items, name)
    {
      found := None;
      if name.Some? {
        var pending := items.Keys;
        while pending != {}
          invariant pending <= items.Keys
          invariant forall id :: id in items && id !in pending ==> Str(id) != name.value
          decreases pending
        {
          var id :| id in pending;
          pending := pending - {id};
          if Str(id) == name.value {
            forall x | x in items && Str(x) == name.value ensures x == id { StrInjective(x, id); }
            return Some(items[id]);
          }
        }
      }
    }

    method AcceptProposal(proposal: Proposal, item: Item, event: Event, review: Review, key: string,
                          entry: Option<AuditEvent>)
      returns (out: L.Outcome)
      requires KeysResolve(Snapshot())
      modifies this
      ensures (Snapshot(), out) ==
                L.Step(old(Snapshot()), L.Accept(proposal, item, event, review, key, entry))
    {
      var scoped := (item.tenant, ScopeKey(item.workspace, key));
      if proposal.id !in proposals || proposals[proposal.id].tenant != proposal.tenant {
        return L.Failed(L.NotFound);
      }
      var current := proposals[proposal.id];
      if current.status == Refused { return L.Failed(L.ProposalRefused); }
      if scoped in idem { return L.Taken(current, items[idem[scoped]], false); }
      if current.status == ProposalStatus.Accepted {
        var memory := FindNamed(current.acceptedMemory);
        if memory.Some? { return L.Taken(current, memory.value, false); }
        return L.Failed(L.AcceptedMemoryMissing);
      }
      items := items[item.id := item];
      idem := idem[scoped := item.id];
      Publish(event);
      var reviewed := current.(status := ProposalStatus.Accepted, review := Some(review),
                               acceptedMemory := Some(Str(item.id)));
      proposals := proposals[current.id := reviewed];
      AppendAudit(entry);
      return L.Taken(reviewed, item, true);
    }

    /** The validation loop: the first error in write order, against unchanged items. */
    method ValidateWrites(decision: Decision, writes: seq<Write>) returns (e: Option<L.Error>)
      requires WellShaped(items)
      ensures e == L.BatchError(items, decision, writes)
    {
      for i := 0 to |writes|
        invariant L.BatchError(items, decision, writes) == L.BatchError(items, decision, writes[i..])
      {
        var w := writes[i];
        assert writes[i..][1..] == writes[i + 1..];
        if w.item.tenant != decision.tenant || w.item.workspace != decision.workspace {
          return Some(L.CrossesScope);
        }
        if w.item.supersedes.None? { return Some(L.ParentNotDeclared); }
        var parent := L.Get(items, w.item.tenant, w.item.supersedes.value);
        if parent.None? { return Some(L.NotFound); }
        var head := LatestDescendant(parent.value);
        if head.id != parent.value.id || parent.value.revision != w.expected {
          return Some(L.RevisionConflict(parent.value.id, w.expected, head.revision));
        }
      }
      return None;
    }

    method ApplyWrites(writes: seq<Write>)
      modifies `items, `events
      ensures items == L.AddItems(old(items), writes)
      ensures events == old(events) + L.WriteEvents(writes)
    {
      for i := 0 to |writes|
        invariant L.AddItems(items, writes[i..]) == L.AddItems(old(items), writes)
        invariant events == old(events) + L.WriteEvents(writes[..i])
      {
        assert writes[i..][1..] == writes[i + 1..];
        items := items[writes[i].item.id := writes[i].item];
        events := events + [writes[i].event];
      }
      assert writes[..|writes|] == writes;
    }

    method ApplyConflictResolution(decision: Decision, writes: seq<Write>, entry: Option<AuditEvent>)
      returns (out: L.Outcome)
      requires WellShaped(items) && KeysResolve(Snapshot())
      modifies this
      ensures (Snapshot(), out) == L.Step(old(Snapshot()), L.Resolve(decision, writes, entry))
    {
      var key := (decision.tenant, decision.caseId);
      if key in reviews {
        var existing := reviews[key];
        if existing.kind == decision.kind && existing.winner == decision.winner
           && existing.applied.Some?
        {
          return L.Decided(existing);
        }
        if existing.applied.Some? { return L.Failed(L.AlreadyApplied); }
      }
      var e := ValidateWrites(decision, writes);
      if e.Some? { return L.Failed(e.value); }
      ApplyWrites(writes);
      reviews := reviews[key := decision];
      AppendAudit(entry);
      return L.Decided(decision);
    }

    method FileProposal(p: Proposal, key: Option<string>, entry: Option<AuditEvent>)
      returns (out: L.Outcome)
      requires FiledResolve(Snapshot())
      modifies this
      ensures (Snapshot(), out) == L.Step(old(Snapshot()), L.FileProposal(p, key, entry))
    {
      var scoped := L.Scoped(p.tenant, p.workspace, key);
      if scoped.Some? && scoped.value in filed {
        return L.Filed(proposals[filed[scoped.value]], false);
      }
      proposals := proposals[p.id := p];
      if scoped.Some? { filed := filed[scoped.value := p.id]; }
      AppendAudit(entry);
      return L.Filed(p, true);
    }

    method SaveProposalReview(p: Proposal, entry: Option<AuditEvent>) returns (out: L.Outcome)
      modifies this
      ensures (Snapshot(), out) == L.Step(old(Snapshot()), L.SaveProposalReview(p, entry))
    {
      if p.id !in proposals || proposals[p.id].tenant != p.tenant { return L.Failed(L.NotFound); }
      proposals := proposals[p.id := p];
      AppendAudit(entry);
      return L.Reviewed(p);
    }

    method SaveConflictReview(d: Decision, entry: Option<AuditEvent>) returns (out: L.Outcome)
      modifies this
      ensures (Snapshot(), out) == L.Step(old(Snapshot()), L.SaveConflictReview(d, entry))
    {
      reviews := reviews[(d.tenant, d.caseId) := d];
      AppendAudit(entry);
      return L.Decided(d);
    }

    /** Any call, with permitted arguments, on a valid store: it takes the ledger step and leaves
        the store valid. */
    method Call(op: L.Op) returns (out: L.Outcome)
      requires Inv(Snapshot()) && L.Permitted(Snapshot(), op)
      modifies this
      ensures (Snapshot(), out) == L.Step(old(Snapshot()), op)
      ensures Inv(Snapshot())
    {
      StepKeepsInv(Snapshot(), op);
      match op
      case Retain(item, event, key, entry) => out := Retain(item, event, key, entry);
      case Supersede(item, event, expected, key, entry) =>
        out := SupersedeIfCurrent(item, event, expected, key, entry);
      case Accept(p, item, event, review, key, entry) =>
        out := AcceptProposal(p, item, event, review, key, entry);
      case Resolve(d, writes, entry) => out := ApplyConflictResolution(d, writes, entry);
      case FileProposal(p, key, entry) => out := FileProposal(p, key, entry);
      case SaveProposalReview(p, entry) => out := SaveProposalReview(p, entry);
      case SaveConflictReview(d, entry) => out := SaveConflictReview(d, entry);
      case Publish(event) => Publish(event); out := L.Published;
    }
  }
}
