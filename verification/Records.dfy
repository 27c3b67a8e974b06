/** The values the store keeps, with the fields its code reads. */
module Records {
  import opened Uuids

  datatype Option<+T> = None | Some(value: T)

  datatype MemoryStatus =
    Active | Stale | Deprecated | Disputed | Hypothesis | Rejected | Archived | Pinned

  /** A canonical memory atom; a replacement names its parent in `supersedes`. */
  datatype Item = Item(id: Uuid, tenant: Uuid, workspace: Uuid, text: string,
                       status: MemoryStatus, revision: int, supersedes: Option<Uuid>)

  const RETAINED := "memory.retained.v1"

  datatype Event = Event(id: Uuid, name: string, tenant: Uuid, workspace: Uuid,
                         correlation: Option<Uuid>)

  datatype AuditEvent = AuditEvent(id: Uuid, tenant: Uuid, workspace: Option<Uuid>,
                                   action: string, resourceType: string, at: int)

  datatype ProposalStatus = Open | NeedsReview | Accepted | Refused

  datatype Review = Review(reviewer: string, reason: string, at: int)

  /** `acceptedMemory` is the string under metadata["accepted_memory_id"]. */
  datatype Proposal = Proposal(id: Uuid, tenant: Uuid, workspace: Uuid, text: string,
                               status: ProposalStatus, review: Option<Review>,
                               acceptedMemory: Option<string>)

  datatype VerdictKind = Unresolved | Confirmed | Overridden | Dismissed

  /** A conflict-review decision; `applied` is set once its writes are canonical. */
  datatype Decision = Decision(tenant: Uuid, workspace: Uuid, caseId: Uuid, kind: VerdictKind,
                               winner: Option<string>, reason: string, applied: Option<Uuid>)

  datatype Write = Write(item: Item, event: Event, expected: int)
}
