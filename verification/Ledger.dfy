/** The ledger as a value and each writer of the store as a function on it. Every writer runs
    under one lock, so one call is one step; a raised exception is the outcome `Failed`. */
module Ledger {
  import opened Uuids
  import opened Records
  import opened Chains

  type Key = (Uuid, string)

  datatype State = State(
    items: Items,
    idem: map<Key, Uuid>,
    events: seq<Event>,
    proposals: map<Uuid, Proposal>,
    filed: map<Key, Uuid>,
    reviews: map<(Uuid, Uuid), Decision>,
    audit: map<Uuid, AuditEvent>)

  const EMPTY := State(map[], map[], [], map[], map[], map[], map[])

  datatype Error =
    | NotFound
    | ParentNotDeclared
    | RevisionConflict(item: Uuid, expected: int, actual: int)
    | ProposalRefused
    | AcceptedMemoryMissing
    | AlreadyApplied
    | CrossesScope

  datatype Outcome =
    | Stored(item: Item, created: bool)
    | Taken(proposal: Proposal, memory: Item, created: bool)
    | Filed(entry: Proposal, added: bool)
    | Reviewed(reviewed: Proposal)
    | Decided(decision: Decision)
    | Published
    | Failed(error: Error)

  datatype Op =
    | Retain(item: Item, event: Event, key: Option<string>, audit: Option<AuditEvent>)
    | Supersede(item: Item, event: Event, expected: int, key: Option<string>,
                audit: Option<AuditEvent>)
    | Accept(proposal: Proposal, item: Item, event: Event, review: Review, acceptKey: string,
             audit: Option<AuditEvent>)
    | Resolve(decision: Decision, writes: seq<Write>, audit: Option<AuditEvent>)
    | FileProposal(proposal: Proposal, key: Option<string>, audit: Option<AuditEvent>)
    | SaveProposalReview(proposal: Proposal, audit: Option<AuditEvent>)
    | SaveConflictReview(decision: Decision, audit: Option<AuditEvent>)
    | Publish(event: Event)

  // ---------------------------------------------------------------- parts

  /** `append_audit_event`: the first event under an id stays. */
  function AddAudit(log: map<Uuid, AuditEvent>, entry: Option<AuditEvent>)
    : map<Uuid, AuditEvent>
  {
    if entry.None? || entry.value.id in log then log else log[entry.value.id := entry.value]
  }

  predicate KnownEvent(events: seq<Event>, id: Uuid) {
    exists i :: 0 <= i < |events| && events[i].id == id
  }

  /** `publish`: at most one outbox row per event id. */
  function Enqueue(events: seq<Event>, event: Event): seq<Event> {
    if KnownEvent(events, event.id) then events else events + [event]
  }

  function Scoped(tenant: Uuid, workspace: Uuid, key: Option<string>): Option<Key> {
    if key.None? then None else Some((tenant, ScopeKey(workspace, key.value)))
  }

  function Get(items: Items, tenant: Uuid, id: Uuid): Option<Item> {
    if id in items && items[id].tenant == tenant then Some(items[id]) else None
  }

  function GetProposal(s: State, tenant: Uuid, id: Uuid): Option<Proposal> {
    if id in s.proposals && s.proposals[id].tenant == tenant then Some(s.proposals[id]) else None
  }

  predicate Seen(s: State, key: Option<Key>) {
    key.Some? && key.value in s.idem
  }

  function Replay(s: State, key: Key): Outcome
    requires key in s.idem
  {
    var id := s.idem[key];
    if id in s.items then Stored(s.items[id], false) else Failed(NotFound)
  }

  function Remember(idem: map<Key, Uuid>, key: Option<Key>, id: Uuid): map<Key, Uuid> {
    if key.None? then idem else idem[key.value := id]
  }

  /** The row, its key, its outbox event and its audit entry, together. */
  function Store(s: State, item: Item, event: Event, key: Option<Key>, audit: Option<AuditEvent>)
    : State
  {
    s.(items := s.items[item.id := item], idem := Remember(s.idem, key, item.id),
       events := Enqueue(s.events, event), audit := AddAudit(s.audit, audit))
  }

  // ---------------------------------------------------------------- writers

  function RetainStep(s: State, item: Item, event: Event, key: Option<string>,
                      audit: Option<AuditEvent>): (State, Outcome)
  {
    var k := Scoped(item.tenant, item.workspace, key);
    if Seen(s, k) then (s, Replay(s, k.value))
    else (Store(s, item, event, k, audit), Stored(item, true))
  }

  ghost function SupersedeStep(s: State, item: Item, event: Event, expected: int,
                               key: Option<string>, audit: Option<AuditEvent>): (State, Outcome)
  {
    var k := Scoped(item.tenant, item.workspace, key);
    if item.supersedes.None? then (s, Failed(ParentNotDeclared))
    else if Seen(s, k) then (s, Replay(s, k.value))
    else
      var parent := Get(s.items, item.tenant, item.supersedes.value);
      if parent.None? then (s, Failed(NotFound))
      else
        var head := Latest(s.items, parent.value);
        if head.id != parent.value.id || parent.value.revision != expected then
          (s, Failed(RevisionConflict(item.supersedes.value, expected, head.revision)))
        else (Store(s, item, event, k, audit), Stored(item, true))
  }

  /** Looks an accepted memory up by its printed id. */
  ghost function NamedMemory(items: Items, name: Option<string>): Option<Item> {
    if name.None? then None
    else if id :| id in items && Str(id) == name.value then Some(items[id]) else None
  }

  function AcceptedBy(p: Proposal, memory: Uuid, review: Review): Proposal {
    p.(status := ProposalStatus.Accepted, review := Some(review), acceptedMemory := Some(Str(memory)))
  }

  ghost function AcceptStep(s: State, proposal: Proposal, item: Item, event: Event,
                            review: Review, acceptKey: string, audit: Option<AuditEvent>)
    : (State, Outcome)
  {
    var k := (item.tenant, ScopeKey(item.workspace, acceptKey));
    var current := GetProposal(s, proposal.tenant, proposal.id);
    if current.None? then (s, Failed(NotFound))
    else if current.value.status == Refused then (s, Failed(ProposalRefused))
    else if k in s.idem then
      (s, if s.idem[k] in s.items then Taken(current.value, s.items[s.idem[k]], false)
          else Failed(NotFound))
    else if current.value.status == ProposalStatus.Accepted then
      var memory := NamedMemory(s.items, current.value.acceptedMemory);
      (s, if memory.Some? then Taken(current.value, memory.value, false)
          else Failed(AcceptedMemoryMissing))
    else
      var done := AcceptedBy(current.value, item.id, review);
      (Store(s, item, event, Some(k), audit).(proposals := s.proposals[current.value.id := done]),
       Taken(done, item, true))
  }

  /** The error a single write of a resolution raises against the current items, if any. */
  ghost function WriteError(items: Items, d: Decision, w: Write): Option<Error> {
    if w.item.tenant != d.tenant || w.item.workspace != d.workspace then Some(CrossesScope)
    else if w.item.supersedes.None? then Some(ParentNotDeclared)
    else
      var parent := Get(items, w.item.tenant, w.item.supersedes.value);
      if parent.None? then Some(NotFound)
      else
        var head := Latest(items, parent.value);
        if head.id != parent.value.id || parent.value.revision != w.expected then
          Some(RevisionConflict(parent.value.id, w.expected, head.revision))
        else None
  }

  /** The first error in write order. */
  ghost function BatchError(items: Items, d: Decision, writes: seq<Write>): Option<Error> {
    if writes == [] then None
    else
      var e := WriteError(items, d, writes[0]);
      if e.Some? then e else BatchError(items, d, writes[1..])
  }

  function AddItems(items: Items, writes: seq<Write>): Items
    decreases |writes|
  {
    if writes == [] then items
    else AddItems(items[writes[0].item.id := writes[0].item], writes[1..])
  }

  function WriteEvents(writes: seq<Write>): seq<Event> {
    seq(|writes|, i requires 0 <= i < |writes| => writes[i].event)
  }

  function CaseKey(d: Decision): (Uuid, Uuid) {
    (d.tenant, d.caseId)
  }

  predicate Applied(s: State, case_: (Uuid, Uuid)) {
    case_ in s.reviews && s.reviews[case_].applied.Some?
  }

  ghost function ResolveStep(s: State, d: Decision, writes: seq<Write>,
                             audit: Option<AuditEvent>): (State, Outcome)
  {
    var c := CaseKey(d);
    if Applied(s, c) then
      (s, if s.reviews[c].kind == d.kind && s.reviews[c].winner == d.winner
          then Decided(s.reviews[c]) else Failed(AlreadyApplied))
    else
      var e := BatchError(s.items, d, writes);
      if e.Some? then (s, Failed(e.value))
      else (s.(items := AddItems(s.items, writes), events := s.events + WriteEvents(writes),
               reviews := s.reviews[c := d], audit := AddAudit(s.audit, audit)),
            Decided(d))
  }

  function FileStep(s: State, p: Proposal, key: Option<string>, audit: Option<AuditEvent>)
    : (State, Outcome)
  {
    var k := Scoped(p.tenant, p.workspace, key);
    if k.Some? && k.value in s.filed then
      var id := s.filed[k.value];
      (s, if id in s.proposals then Filed(s.proposals[id], false) else Failed(NotFound))
    else
      (s.(proposals := s.proposals[p.id := p], filed := Remember(s.filed, k, p.id),
          audit := AddAudit(s.audit, audit)),
       Filed(p, true))
  }

  function ReviewStep(s: State, p: Proposal, audit: Option<AuditEvent>): (State, Outcome) {
    if GetProposal(s, p.tenant, p.id).None? then (s, Failed(NotFound))
    else (s.(proposals := s.proposals[p.id := p], audit := AddAudit(s.audit, audit)), Reviewed(p))
  }

  ghost function Step(s: State, op: Op): (State, Outcome) {
    match op
    case Retain(item, event, key, audit) => RetainStep(s, item, event, key, audit)
    case Supersede(item, event, expected, key, audit) =>
      SupersedeStep(s, item, event, expected, key, audit)
    case Accept(p, item, event, review, key, audit) => AcceptStep(s, p, item, event, review, key, audit)
    case Resolve(d, writes, audit) => ResolveStep(s, d, writes, audit)
    case FileProposal(p, key, audit) => FileStep(s, p, key, audit)
    case SaveProposalReview(p, audit) => ReviewStep(s, p, audit)
    case SaveConflictReview(d, audit) =>
      (s.(reviews := s.reviews[CaseKey(d) := d], audit := AddAudit(s.audit, audit)), Decided(d))
    case Publish(event) => (s.(events := Enqueue(s.events, event)), Published)
  }

  // ---------------------------------------------------------------- callers

  /** The event a service prepares together with an item. */
  predicate Announces(event: Event, item: Item) {
    event.name == RETAINED && event.tenant == item.tenant && event.workspace == item.workspace
    && event.correlation == Some(item.id)
  }

  predicate FreshPair(s: State, item: Item, event: Event) {
    item.id !in s.items && !KnownEvent(s.events, event.id) && Announces(event, item)
  }

  /** `MemoryItem.supersede` numbers a replacement above the parent it was made from. */
  predicate Outgrows(items: Items, item: Item) {
    item.supersedes.Some? && item.supersedes.value in items ==>
      items[item.supersedes.value].revision < item.revision
  }

  predicate DistinctParents(writes: seq<Write>) {
    forall i, j :: 0 <= i < j < |writes| && writes[i].item.supersedes.Some? ==>
      writes[i].item.supersedes != writes[j].item.supersedes
  }

  predicate DistinctIds(writes: seq<Write>) {
    forall i, j :: 0 <= i < j < |writes| ==>
      writes[i].item.id != writes[j].item.id && writes[i].event.id != writes[j].event.id
  }

  /** What the services guarantee about the arguments of a call. */
  ghost predicate Permitted(s: State, op: Op) {
    match op
    case Retain(item, event, _, _) => FreshPair(s, item, event) && item.supersedes.None?
    case Supersede(item, event, _, _, _) => FreshPair(s, item, event) && Outgrows(s.items, item)
    case Accept(_, item, event, _, _, _) => FreshPair(s, item, event) && item.supersedes.None?
    case Resolve(_, writes, _) =>
      DistinctIds(writes) && DistinctParents(writes) &&
      forall i :: 0 <= i < |writes| ==>
        FreshPair(s, writes[i].item, writes[i].event) && Outgrows(s.items, writes[i].item)
    case FileProposal(p, _, _) =>
      p.id !in s.proposals && (p.status == Open || p.status == NeedsReview)
    case SaveProposalReview(p, _) =>
      p.status == Refused
      && (p.id in s.proposals ==> s.proposals[p.id].status != ProposalStatus.Accepted)
    case SaveConflictReview(d, _) => !Applied(s, CaseKey(d))
    case Publish(event) => event.name != RETAINED
  }
}
