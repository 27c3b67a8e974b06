# Memory plane: models and proofs

A Dafny model of the append-only memory ledger and of the protocols that run against it, with
proofs of what they promise over all inputs, all runs and all interleavings.

- **Ledger** (`Records`, `Chains`, `Ledger`, `LedgerInvariant`, `LedgerRuns`, `LedgerLaws`, `MemoryStore`). The store is a
  value `State`; every writer is a step function on it, and the class `MemoryStore` updates its
  dictionaries in place and is proved to take exactly those steps. The writers decide "is the parent
  still the head" by walking the supersedes chain (`_latest_descendant`), the readers by asking for
  any child; one invariant, kept by every step, makes the two agree. Exactly-once acceptance,
  idempotent replay, the single winner of a race, all-or-nothing conflict resolution and the
  freshness counts follow for every run, and `LedgerLaws` says, field by field, what each call leaves
  and answers.
- **SDK** (`Sdk`). The retry loop, and its composition with the ledger: at-least-once delivery over a
  lossy network has one effect.
- **Checkpoints** (`Checkpoints`). Compare-and-swap on the head with compaction, which is invisible to it.
- **Audit log** (`Uuids`, `Ordering`, `AuditTrail`, `AuditRetention`). Keyset pages, the streaming and the
  simple exporter, and the prune loop, while other processes append.
- **Conversation turns** (`Turns`). Expiry purging.
- **Backups** (`Backup`). The framed encryption format and its atomic replacement of the target.
- **Protected search** (`SearchTokens`). Restartable token backfill and coverage-gated key retirement.
- **Re-encryption** (`Reencryption`, `SearchReencryption`). Batched in-place encryption of legacy columns.
  Since it changes no reader's view, encrypting item texts is a permitted `Rewrite` of the
  protected-search model (`EncryptionIsPermitted`) and cannot spoil coverage (`BatchKeepsCoverage`).
- **Vault text** (`VaultText`, `VaultBlocks`, `VaultFiles`). The line scanner, what it drops, and the
  split / replace pair.

Conventions. A call is one atomic step, since each writer holds the store's lock; a raised exception is
an outcome. Atomicity is an assumption for `purge_expired_turns`, which releases the lock after
selecting and takes it again for each turn (`src/memory_plane/adapters/in_memory.py:460-475`). Time is an integer. A UUID is a 128-bit number together with its printed form. The
iteration order of a dictionary is arbitrary: loops over one pick any remaining key. What the services
guarantee about arguments is the predicate `Ledger.Permitted`: new item and event ids are new, a
retained or accepted item supersedes nothing, a replacement has a larger revision than its parent
(`src/memory_plane/domain/models.py:131-148`), an event announces its item, the parents of one
resolution are distinct, reviews only refuse proposals that are not accepted, and a saved review does
not overwrite an applied one. In the same way `Turns.Permitted` says that the service appends every
turn under a new id (`src/memory_plane/services/conversations.py:196-208`). Two lemmas show why: `NumberingIsNeeded` and `DistinctParentsAreNeeded`
give, for calls that succeed, the exact condition under which the chains stay chains.

Where code and expectation differ, the model follows the code:

- Compaction with `keep_last = 0` keeps every row and reports all of them as removed, because `[-0:]`
  is the whole list; `CompactCountExact` and `CompactKeepsHead` say for which values the count and the
  head are right.
- `replaceBody` with a body that sanitizes to nothing moves the separating newlines into the front
  matter; `ReplaceRoundTrips` shows that for a file with front matter and no CRLF left in its parts
  this is the only way the round trip fails.
- In a file without front matter, a body that opens with `---` and has another `---` becomes front
  matter when it is saved (`RuledBodyBecomesFront`); `FrontlessRoundTrips` gives the exact condition.
- A JSON column holding null under the reserved key is never converted, because SQL's comparison is
  NULL (`NullUnderReservedKeyIsSkipped`, `PendingIffNotWrapped`).
- In the in-memory store no delivery event is ever consumed, so every active item counts as stale
  (`FreshnessCountsHeads`).
- `sanitizeVaultEditableBody` is not idempotent on every text: a kept line that ends in a carriage
  return, once rejoined with LF, reads as a CRLF break (`CarriageReturnsNeedTwoPasses`).
  `SanitizeIdempotent` says exactly when it is; LF files and CRLF files always are
  (`PlainTextNeedsOnePass`).
- An acceptance key that the caller chose (`src/memory_plane/services/proposals.py:349`) may already
  be recorded for another write. The acceptance is then answered with that write's memory and an open
  proposal stays open (`SharedKeyAcceptsNothing`); `AnsweredOwnMemoryIff` and `AcceptExactlyOnce` give
  the exact conditions, and `OwnedKeysAreOwn` a discipline that meets them, which no service enforces.
- `append_turn` of the in-memory store overwrites a turn stored under the same id, so a store fed
  with a used id brings purged content back (`SelectedAgainOnlyIfRefilled`,
  `RefilledIsSelectedAgain`).

## Model

| member | source | states |
|---|---|---|
| Uuids.StrOrder | src/memory_plane/adapters/in_memory.py:727-735 | comparing printed UUIDs, as the cursor does, agrees with comparing their numbers, as the sort does |
| Uuids.StrShape | src/memory_plane/adapters/in_memory.py:39-41 | a printed UUID is its 32 hexadecimal digits in groups of 8, 4, 4, 4 and 12 |
| Uuids.StrInjective | src/memory_plane/adapters/in_memory.py:543-546 | two UUIDs never print alike, so a memory found by its printed id is the right one |
| Uuids.ScopeKeyInjective | src/memory_plane/adapters/in_memory.py:39-41 | distinct (workspace, key) pairs never share a scoped idempotency key |
| Ordering.SortedUnique | src/memory_plane/adapters/in_memory.py:735-736 | sorting by (time, id) has one possible result, whatever order the rows came in |
| Ordering.AfterCursor | src/memory_plane/adapters/in_memory.py:724-733 | the rows a cursor leaves are exactly the rest of the sorted listing |
| Ordering.PageHasIffRank | src/memory_plane/adapters/in_memory.py:755-756 | a row is among the first k of the sorted listing exactly when fewer than k rows come before it |
| Ordering.AfterRemoval | src/memory_plane/adapters/in_memory.py:755-761 | deleting the first k rows leaves exactly the rest of the sorted listing |
| Chains.LeafHasNoChild | src/memory_plane/adapters/in_memory.py:258-293 | on a well-shaped map the chain walk moves exactly when the item has a child |
| Chains.OneLeafPerChain | src/memory_plane/adapters/in_memory.py:278-293 | every chain has one root and one childless end, and two items share one end exactly when they share the other |
| Chains.RecallableIffCurrent | src/memory_plane/adapters/in_memory.py:258-293 | readers recall an unarchived item exactly when writers would accept it as the current parent |
| Chains.JoinKeepsShape | src/memory_plane/adapters/in_memory.py:231-245 | inserting a new row keeps the chains well shaped exactly when it is a root or a newer replacement of an unreplaced item of its tenant |
| LedgerInvariant.AddAnnounced | src/memory_plane/adapters/in_memory.py:199-213 | storing a row together with its event keeps one outbox event per item |
| LedgerInvariant.BatchErrorFree | src/memory_plane/adapters/in_memory.py:893-912 | the validation loop passes exactly when every write passes on its own |
| LedgerInvariant.BatchKeepsInv | src/memory_plane/adapters/in_memory.py:913-915 | applying a validated batch of any length keeps the ledger invariant |
| LedgerInvariant.StepKeepsInv | src/memory_plane/adapters/in_memory.py:199-919 | every permitted call keeps: one child per item, parents in the same tenant with smaller revisions, resolvable keys, one event per item, accepted proposals backed by a stored memory |
| LedgerInvariant.FailureChangesNothing | src/memory_plane/adapters/in_memory.py:227-240 | a call that raises, in any state, leaves items, keys, events, proposals, reviews and audit log as they were |
| LedgerRuns.RunKeepsInv | src/memory_plane/adapters/in_memory.py:199-919 | the invariant holds in every reachable state |
| LedgerRuns.RunAppendsOnly | src/memory_plane/adapters/in_memory.py:199-251 | over any stretch of a run no item, key, event or audit entry changes or disappears |
| LedgerRuns.RetainWinsIff | src/memory_plane/adapters/in_memory.py:183-213 | retain creates exactly when its key is unused, and then adds just its row, key, event and audit entry |
| LedgerRuns.AcceptWinsIff | src/memory_plane/adapters/in_memory.py:523-566 | acceptance creates exactly for an open proposal under an unused key, and then stores the memory, its event and the accepted proposal; otherwise nothing changes |
| LedgerRuns.SupersedeWinsIff | src/memory_plane/adapters/in_memory.py:225-251 | supersede creates exactly when the key is unused, the parent exists in the tenant, has no replacement, and has the expected revision |
| LedgerRuns.RaceHasOneWinner | scripts/production_readiness_eval.py:144-170 | in any run, at most one call, supersede or resolution, ever replaces a given item |
| LedgerRuns.LoserSeesHead | src/memory_plane/adapters/in_memory.py:233-240 | a later attempt on a replaced item raises the conflict with the true head's revision and changes nothing |
| LedgerRuns.NumberingIsNeeded | src/memory_plane/adapters/in_memory.py:284-291 | after a successful supersede the chains are well shaped exactly when the replacement's revision is larger |
| LedgerRuns.KeyResolvesForever | src/memory_plane/adapters/in_memory.py:187-197 | a key resolves for the rest of the run to the first item stored under it, in the key's tenant and workspace |
| LedgerRuns.ReplayReturnsFirst | src/memory_plane/adapters/in_memory.py:187-192 | a replayed retain or supersede returns the first item and stores and publishes nothing |
| LedgerRuns.WriterKeysDoNotCollide | src/memory_plane/adapters/in_memory.py:39-41 | two retains with the same recorded key have the same tenant, workspace and client key |
| LedgerRuns.VerdictIsFinal | src/memory_plane/adapters/in_memory.py:510-566 | no permitted call changes an accepted proposal or reopens a refused one |
| LedgerRuns.AnsweredOwnMemoryIff | src/memory_plane/adapters/in_memory.py:535-566 | an answered acceptance names the memory its proposal is accepted as exactly when its key is unused or recorded for that memory |
| LedgerRuns.SharedKeyAcceptsNothing | src/memory_plane/adapters/in_memory.py:542-544 | under a key recorded for something else the answer is that other memory and nothing changes, so an open proposal stays open |
| LedgerRuns.AcceptExactlyOnce | src/memory_plane/adapters/in_memory.py:535-566 | once an acceptance under its own key was answered, every later acceptance under any key creates nothing, and returns the same memory exactly when its key is its own |
| LedgerRuns.OwnedKeysAreOwn | src/memory_plane/services/proposals.py:349 | where each acceptance key belongs to one proposal, as the default key does, every acceptance uses its own key |
| LedgerRuns.AcceptedMemoryIsDurable | src/memory_plane/adapters/in_memory.py:541-547 | the "missing its durable memory" error is unreachable |
| LedgerRuns.RefusedStaysRefused | src/memory_plane/adapters/in_memory.py:539-540 | a refused proposal stays refused and its acceptance raises |
| LedgerRuns.ResolutionIsAtomic | src/memory_plane/adapters/in_memory.py:893-919 | a resolution applies every write and event, or, if any write is stale, missing or out of scope, nothing |
| LedgerRuns.DistinctParentsAreNeeded | src/memory_plane/adapters/in_memory.py:893-915 | after a batch of individually valid writes the chains are well shaped exactly when no two writes share a parent |
| LedgerRuns.AppliedIsImmutable | src/memory_plane/adapters/in_memory.py:881-892 | repeating an applied decision returns it, another verdict is refused, and neither changes the ledger, for the rest of the run |
| LedgerRuns.FreshnessCountsHeads | src/memory_plane/adapters/in_memory.py:660-690 | the active count equals the number of recallable heads of the workspace and no active item lacks its event |
| LedgerLaws.CreationIsComplete | src/memory_plane/adapters/in_memory.py:183-251 | a retain or supersede that creates leaves its row, its scoped key, its event and its audit entry, and changes nothing else |
| LedgerLaws.AcceptanceIsComplete | src/memory_plane/adapters/in_memory.py:554-566 | an acceptance that creates leaves the memory, its scoped key, event and audit entry, and the proposal with status, review and memory name set |
| LedgerLaws.CreatedKeyAnswers | src/memory_plane/adapters/in_memory.py:187-192 | after a retain, supersede or acceptance created under a key, every later retain or supersede of the run under that key is answered with the created item and changes nothing |
| LedgerLaws.SupersedeRefusals | src/memory_plane/adapters/in_memory.py:225-240 | what a supersede that does not create raises: no declared parent, no such item of the tenant, or a conflict with the revision of the chain's end |
| LedgerLaws.AcceptRefusals | src/memory_plane/adapters/in_memory.py:537-540 | an unknown or refused proposal cannot be accepted |
| LedgerLaws.ResolutionRaisesFirst | src/memory_plane/adapters/in_memory.py:893-912 | a resolution raises the error of its first unacceptable write, and which error that is |
| LedgerLaws.ResolutionIsComplete | src/memory_plane/adapters/in_memory.py:913-919 | a resolution that goes through appends its events in order and stores the decision and the audit entry |
| LedgerLaws.AppliedAnswers | src/memory_plane/adapters/in_memory.py:881-892 | an applied decision is returned to the same verdict and winner and refuses any other |
| LedgerLaws.FilingIsComplete | src/memory_plane/adapters/in_memory.py:478-499 | filing under an unused key stores proposal, key and audit entry; under a used one it answers with the proposal filed first |
| LedgerLaws.FiledKeyAnswers | src/memory_plane/adapters/in_memory.py:487-490 | for the rest of the run a filing key names the proposal filed first under it |
| LedgerLaws.ReviewsAreComplete | src/memory_plane/adapters/in_memory.py:510-521 | a review replaces exactly the tenant's stored proposal, a conflict review exactly its case's, and publishing adds an event exactly when its id is new |
| LedgerLaws.OneEventPerItem | src/memory_plane/adapters/in_memory.py:199-213 | every stored item has exactly one delivery event, in its tenant and workspace |
| LedgerLaws.RecallableIff | src/memory_plane/adapters/in_memory.py:258-266 | readers recall exactly the tenant's items that are neither rejected nor archived and end their chain |
| LedgerLaws.FreshnessInFields | src/memory_plane/adapters/in_memory.py:660-690 | the freshness counts in the fields of items and events |
| MemoryStores.MemoryStore.LatestDescendant | src/memory_plane/adapters/in_memory.py:278-293 | the walk ends on every item map, at a leaf reached from its start, and on well-shaped chains at the one leaf, in any iteration order |
| MemoryStores.MemoryStore.Append | src/memory_plane/adapters/in_memory.py:183-197 | stores the item and its key, or returns the prior result and changes nothing |
| MemoryStores.MemoryStore.Retain | src/memory_plane/adapters/in_memory.py:199-213 | takes the retain step of the ledger |
| MemoryStores.MemoryStore.SupersedeIfCurrent | src/memory_plane/adapters/in_memory.py:215-251 | takes the supersede step of the ledger |
| MemoryStores.MemoryStore.AcceptProposal | src/memory_plane/adapters/in_memory.py:523-566 | takes the accept step of the ledger |
| MemoryStores.MemoryStore.ValidateWrites | src/memory_plane/adapters/in_memory.py:893-912 | finds the first error in write order, if there is one |
| MemoryStores.MemoryStore.ApplyConflictResolution | src/memory_plane/adapters/in_memory.py:874-919 | takes the resolution step of the ledger |
| MemoryStores.MemoryStore.FileProposal | src/memory_plane/adapters/in_memory.py:478-499 | stores the proposal and its key, or returns the prior proposal and changes nothing |
| MemoryStores.MemoryStore.SaveProposalReview | src/memory_plane/adapters/in_memory.py:510-521 | replaces a stored proposal of the tenant, or raises |
| MemoryStores.MemoryStore.Call | src/memory_plane/adapters/in_memory.py:199-919 | any permitted call on a valid store takes its ledger step and leaves the store valid |
| Sdk.Request | sdk/python/uam_client/client.py:143-181 | sends at most max_retries + 1 requests; every reply but the last was lost or had an error status listed for retry, and with retries left the last was unreadable, a success or another error; it returns or raises inside the loop with the verdict on the last reply; without Retry-After headers the sleeps add up to base * (2^(sent-1) - 1) |
| Sdk.RetriesReachSuccess | sdk/python/uam_client/client.py:150-171 | retried replies are followed by another request while retries are left, and the first success after them ends the call with its body |
| Sdk.VerdictInFields | sdk/python/uam_client/client.py:191-212 | which result or error each reply becomes |
| Sdk.SleepInFields | sdk/python/uam_client/client.py:174-181 | each sleep is the header's seconds, not below zero, or the base delay doubled once per attempt |
| Sdk.BackoffTotal | sdk/python/uam_client/client.py:174-181 | if none of the first n replies carries Retry-After, the n sleeps the loop takes after them add up to base * (2^n - 1) |
| Sdk.OneEffect | sdk/python/uam_client/client.py:106-114 | of all deliveries of one call in a run only the first changes the ledger; later ones are answered with its item |
| Sdk.RetainIsExactlyOnce | sdk/python/uam_client/client.py:106-172 | whatever the network and other clients do, a success carries the id every delivery resolves to, and at most one delivery created anything |
| Sdk.SuccessIsOwnItem | sdk/python/uam_client/client.py:106-114 | under a key nobody else uses, that item was created by a delivery of this very call |
| Checkpoints.CompactKeepsTail | src/memory_plane/adapters/in_memory.py:1146-1164 | compaction cuts the tenant's own list of the thread to its tail and leaves all other lists unchanged |
| Checkpoints.CompactCountExact | src/memory_plane/adapters/in_memory.py:1157-1164 | the returned count is the number of rows removed exactly for keep_last >= 1, or 0 with nothing stored |
| Checkpoints.CompactKeepsHead | src/memory_plane/adapters/in_memory.py:1157-1164 | the head survives exactly unless a negative keep_last drops every row |
| Checkpoints.CompactionIsInvisible | src/memory_plane/adapters/in_memory.py:1093-1164 | removing all compactions from a run changes no save's success or conflict, and the compacted lists are tails of the full ones |
| Checkpoints.HeadsUnaffected | src/memory_plane/adapters/in_memory.py:1111-1116 | every head read after a run is the one read without its compactions |
| Checkpoints.HeadIsMaximum | src/memory_plane/adapters/in_memory.py:1111-1116 | after any run of numbered saves the head is the only row of maximal revision |
| Checkpoints.NoLostUpdate | src/memory_plane/adapters/in_memory.py:1093-1109 | after a save against some revision succeeded, every later save against it is refused, across any saves and compactions |
| Checkpoints.SaveChecksHead | src/memory_plane/adapters/in_memory.py:1093-1109 | a save succeeds exactly when the tenant's latest row of the thread has the expected revision, appends its row alone, and is otherwise told that revision |
| Checkpoints.FirstSaveExpectsZero | src/memory_plane/adapters/in_memory.py:1093-1109 | without a row of the tenant the expected revision is 0 |
| Checkpoints.CheckpointStore.Save | src/memory_plane/adapters/in_memory.py:1086-1091 | appends the checkpoint to its thread's list |
| Checkpoints.CheckpointStore.SaveHead | src/memory_plane/adapters/in_memory.py:1093-1109 | takes the compare-and-swap step |
| Checkpoints.CheckpointStore.GetHead | src/memory_plane/adapters/in_memory.py:1111-1116 | returns the last row of the tenant, if any |
| Checkpoints.CheckpointStore.Shrink | src/memory_plane/adapters/in_memory.py:1146-1164 | takes the compaction step |
| AuditTrail.CursorCutsRest | src/memory_plane/adapters/in_memory.py:718-733 | moving a cursor onto a row it selected leaves exactly the rows after it |
| AuditTrail.CursorCutsWindow | src/memory_plane/adapters/in_memory.py:718-733 | a cursor placed on an exported row selects exactly the window's rows after it |
| AuditTrail.AbsorbKeepsOffer | src/memory_plane/adapters/in_memory.py:718-733 | arrivals that the cursor does not select, new ones at the head of a live log included, change nothing for the pages to come |
| AuditTrail.PageIsNextRows | src/memory_plane/adapters/in_memory.py:704-736 | every page request returns exactly the next rows of the newest-first listing |
| AuditTrail.RowsAreComplete | src/memory_plane/adapters/in_memory.py:735-736 | the listing has every event once |
| AuditTrail.AbsorbKeepsWindow | src/memory_plane/adapters/in_memory.py:692-696 | appends outside a window leave the window and all stored events unchanged |
| AuditTrail.PruneTakesOldest | src/memory_plane/adapters/in_memory.py:738-761 | one batch removes exactly the oldest rows of the window, up to the clamped limit |
| AuditTrail.WithoutKeepsOthers | src/memory_plane/adapters/in_memory.py:748-761 | a batch removes nothing outside the window and changes no row |
| AuditTrail.WindowInFields | src/memory_plane/adapters/in_memory.py:738-756 | a window holds exactly the stored events of the tenant, workspace, action and resource type asked for, between the bounds |
| AuditTrail.PageInFields | src/memory_plane/adapters/in_memory.py:698-736 | a page holds only events with the fields asked for, and leaves one out only behind a full page of newer ones |
| AuditTrail.PruneInFields | src/memory_plane/adapters/in_memory.py:738-761 | a batch deletes only events of the tenant and workspace dated before the cutoff, and older ones first |
| AuditTrail.BackdatedEventIsLost | src/memory_plane/adapters/in_memory.py:738-761 | an event backdated into the window after the export is deleted by the next batch exactly when fewer due events than the batch holds are older |
| AuditTrail.AuditStore.AppendEvent | src/memory_plane/adapters/in_memory.py:692-696 | the first event under an id stays |
| AuditTrail.AuditStore.PruneEvents | src/memory_plane/adapters/in_memory.py:738-761 | deletes one batch, oldest first, and counts it exactly; every deleted event is of the tenant, of the workspace if given, and dated before the cutoff |
| AuditRetention.EveryPageIsNext | scripts/export_audit.py:161-182 | each page request, after whatever arrived behind the cursor, returns the next stretch of the listing the export started with |
| AuditRetention.HarmlessIsNeverAhead | scripts/audit_retention.py:119-169 | arrivals outside the window are never ahead of an export of it |
| AuditRetention.NextPage | scripts/export_audit.py:161-171 | each turn of the export loop fetches the next rows although other writers append in between |
| AuditRetention.FeedInFields | scripts/export_audit.py:150-184 | the listing an export writes holds, once each, exactly the stored events with the six fields asked for |
| AuditRetention.JsonlConcat | scripts/export_audit.py:172-176 | the file is its rows' lines one after the other |
| AuditRetention.StatsInFields | scripts/export_audit.py:172-184 | the statistics are the number of rows, the bytes of the file, and the latest and earliest time among the rows |
| AuditRetention.PagesInFields | scripts/export_audit.py:161-182 | an export's pages are as many as hold its rows with all but the last full and the last not full |
| AuditRetention.WriteEvents | scripts/export_audit.py:150-184 | the streamed file, hash input, counts, pages, newest and oldest are those of the newest-first listing of exactly the tenant's events asked for, for every page size, in a closed window or a live export |
| AuditRetention.CollectEvents | scripts/export_audit.py:187-238 | collects the same rows in the same number of pages, so the streaming exporter refines the simple one |
| AuditRetention.RoundsTakeOldest | scripts/audit_retention.py:177-186 | after any number of prune batches exactly the oldest due rows are gone |
| AuditRetention.TookIsProduct | scripts/audit_retention.py:177-186 | any number of batches takes that many times the clamped limit, or all |
| AuditRetention.PruneLoop | scripts/audit_retention.py:171-186 | the loop stops by its break only when no due row is left, else after all its batches |
| AuditRetention.RoundsLeaveOthers | scripts/audit_retention.py:177-186 | outside the window the pruned log is, event for event, the log as the other writers made it |
| AuditRetention.RunRetention | scripts/audit_retention.py:119-201 | the bundle holds exactly the tenant's (and workspace's) events before the cutoff; every deleted event is one of them and the deleted ones are the oldest; everything else, events appended while the job runs included, is in the log unchanged; pruned plus remaining equals exported, and nothing is deleted without --apply, a successful export and a verified bundle |
| Turns.DueListIsSorted | src/memory_plane/adapters/in_memory.py:461-474 | sorting all turns and filtering gives the due turns by (expiry, id) |
| Turns.PurgeTakesEarliest | src/memory_plane/adapters/in_memory.py:452-476 | a call purges exactly the earliest min(limit, k) due turns and keeps every turn's identity |
| Turns.PurgeEachFacts | src/memory_plane/adapters/in_memory.py:421-450 | purging keeps every field of a turn and of its messages but contents and the retention entry of the two metadata maps, and leaves every turn not listed as it was |
| Turns.BlankInFields | src/memory_plane/adapters/in_memory.py:421-450 | a purged turn's messages read the notice, the reason stands on the turn and each message, and all else is as it was |
| Turns.PurgeInFields | src/memory_plane/adapters/in_memory.py:461-476 | a purge changes only the tenant's and workspace's turns that have expired by then, and records expiry as the reason |
| Turns.DueLeftBehind | src/memory_plane/adapters/in_memory.py:461-474 | a due turn is passed over only for a full batch of turns that all expire before it |
| Turns.CallsPurgePrefix | src/memory_plane/adapters/in_memory.py:452-476 | any number of calls purges that many batches off the front of the queue, in order |
| Turns.CeilCallsLeaveNone | src/memory_plane/adapters/in_memory.py:452-476 | ceil(k / limit) calls leave no due turn |
| Turns.SettledIffNotRefilled | src/memory_plane/adapters/in_memory.py:356-476 | a blanked turn is not selected, and stays blanked exactly unless the step appends content under its id; a selected turn is blanked |
| Turns.RunConserves | src/memory_plane/adapters/in_memory.py:356-476 | through a run with new turn ids every turn stays and keeps all but contents and retention metadata |
| Turns.SelectedAgainOnlyIfRefilled | src/memory_plane/adapters/in_memory.py:356-476 | in any run, a turn selected by two purges was appended anew, with content, between them |
| Turns.NeverSelectedTwice | src/memory_plane/adapters/in_memory.py:461-475 | in a run with new turn ids no turn is selected by two purges, whatever clocks, limits, appends and curation purges come between |
| Turns.PicksIffEarly | src/memory_plane/adapters/in_memory.py:461-474 | a purge selects a turn exactly when it is due and fewer due turns than the limit come before it |
| Turns.RefilledIsSelectedAgain | src/memory_plane/adapters/in_memory.py:371 | appending under a used id replaces the turn: a purge selects it exactly when the new turn is due and early enough in the queue for the limit |
| Turns.TurnStore.PurgeContent | src/memory_plane/adapters/in_memory.py:421-450 | blanks the turn of the right tenant and nothing else |
| Turns.TurnStore.PurgeExpiredTurns | src/memory_plane/adapters/in_memory.py:452-476 | returns and purges the selected turns; every changed turn is the tenant's and workspace's, had expired by then, and is blanked for expiry |
| Backup.OpenUndoesSeal | scripts/backup_encryption.py:47-112 | opening what was sealed under the same key gives back the plaintext, for every length |
| Backup.OnlySealedOpens | scripts/backup_encryption.py:76-109 | whatever opens is exactly what sealing its plaintext would have written |
| Backup.SealedBytes | scripts/backup_encryption.py:54-64 | the artifact byte by byte: format name, nonce, plaintext xored with the keystream, tag over the ciphertext |
| Backup.OpenedInBytes | scripts/backup_encryption.py:76-109 | which artifacts are truncated, of another format or badly tagged, and the bytes the others give |
| Backup.EncryptFile | scripts/backup_encryption.py:47-73 | the target becomes the sealed artifact under every chunking, or, if any write, the sync or the final replacement is refused, every file is as it was |
| Backup.DecryptChunks | scripts/backup_encryption.py:92-103 | the loop stops exactly at the tag and decrypts the whole ciphertext under every chunking |
| Backup.DecryptFile | scripts/backup_encryption.py:76-112 | short file, wrong magic, bad tag, or a refused write, sync or replacement leave every file as it was; otherwise only the target changes, to data whose tag was checked under the source's nonce, which for an unchanged source is the opened plaintext |
| SearchTokens.CompleteIffCursorHonest | scripts/backfill_protected_search_tokens.py:88-117 | an empty batch means a complete index exactly when the rows up to the cursor are covered |
| SearchTokens.BatchCovers | scripts/backfill_protected_search_tokens.py:117-143 | a batch extends coverage to its new cursor |
| SearchTokens.StepKeepsInv | scripts/backfill_protected_search_tokens.py:60-183 | batches, crashes, cursor saves, live writers and retirements keep all rows at or before a cursor covered |
| SearchTokens.CoveredIffIndexed | src/memory_plane/services/protected_search.py:35-37 | a row is covered exactly when every keyed digest of its readable text, and the marker, is stored for it under the active version |
| SearchTokens.CompleteMeansCovered | scripts/backfill_protected_search_tokens.py:78-157 | however the work was split or crashed, a completed backfill means that of every live row each term digest and the marker are stored under the active version, from then on |
| SearchTokens.GateIsExact | scripts/retire_protected_search_key.py:48-67 | the marker query is true exactly when every live row has all its active digests |
| SearchTokens.SearchIndex.RetireKey | scripts/retire_protected_search_key.py:25-94 | deletes exactly the tokens of the old version, and exactly when asked, allowed and every live row's term digests and marker are stored under the active version, which stay |
| SearchTokens.TraceExtendsRun | scripts/backfill_protected_search_tokens.py:78-143 | the trace of a backfill continues the run it starts in, so the theorems about runs hold for it |
| SearchTokens.BatchesOnlyAdd | scripts/backfill_protected_search_tokens.py:117-143 | batches change no row, remove no token and add only tokens of the active version whose digest is a term of the row's readable text or the marker |
| SearchTokens.SearchIndex.Backfill | scripts/backfill_protected_search_tokens.py:78-143 | with live writers between batches, the final database is where the trace of its own batches and the others' steps leads; every live row up to the returned cursor has all its term digests and the marker stored, and with `complete` every live row has |
| Reencryption.TextStepSound | scripts/reencrypt_legacy_pgcrypto.py:35-56 | encrypting a pending text settles it and readers see the same text |
| Reencryption.JsonStepSound | scripts/reencrypt_legacy_pgcrypto.py:59-86 | encrypting a pending json value settles it and readers see the same value |
| Reencryption.PendingIffNotWrapped | scripts/reencrypt_legacy_pgcrypto.py:60-63 | a stored json value is pending exactly when it is not wrapped, but for null under the reserved key |
| Reencryption.NullUnderReservedKeyIsSkipped | scripts/reencrypt_legacy_pgcrypto.py:60-63 | that value is unencrypted and never pending |
| Reencryption.RunsAreInvisible | scripts/reencrypt_legacy_pgcrypto.py:127-146 | any sequence of committed batches, interrupted or repeated, leaves every reader's view unchanged |
| Reencryption.SettledRowsStay | scripts/reencrypt_legacy_pgcrypto.py:127-146 | a row that is not pending is in no batch of any run and stays as it is stored |
| Reencryption.NeverEncryptedTwice | scripts/reencrypt_legacy_pgcrypto.py:127-146 | a row rewritten by one batch is in no later batch, across runs |
| Reencryption.TextRowsAreCiphertext | scripts/reencrypt_legacy_pgcrypto.py:35-56 | a chosen text row is stored as the prefix and the ciphertext of its text |
| Reencryption.JsonRowsAreCiphertext | scripts/reencrypt_legacy_pgcrypto.py:59-86 | a chosen json row is stored as one object with the prefixed ciphertext |
| Reencryption.NoTextIsClear | scripts/reencrypt_legacy_pgcrypto.py:35-56 | nothing is pending exactly when every stored text begins with the prefix |
| Reencryption.NoJsonIsClear | scripts/reencrypt_legacy_pgcrypto.py:59-63 | with nothing pending every stored json value is wrapped, but for null under the reserved key |
| Reencryption.ReencryptColumn | scripts/reencrypt_legacy_pgcrypto.py:130-154 | migrated plus still pending equals pending before; without locked rows nothing stays pending |
| SearchReencryption.EncryptionIsPermitted | scripts/reencrypt_legacy_pgcrypto.py:35-56 | encrypting one pending item text is a rewrite under which the coverage theorems hold |
| SearchReencryption.BatchKeepsCoverage | scripts/reencrypt_legacy_pgcrypto.py:127-146 | a batch over any pending rows leaves the backfill invariant and the completeness of the index exactly as they were |
| VaultText.VaultHeadingsNonEmpty | web/src/App.tsx:1461-1498 | the heading list does not contain the empty string, so a blank line is never a system heading |
| VaultText.VaultRulesSensible | web/src/App.tsx:1461-1498 | rules over the application's heading list meet the assumption of the splitting theorems exactly when lower-casing keeps the empty string |
| VaultText.SanitizeBody | web/src/App.tsx:1500-1542 | the loop with its two flags computes the scanner's result |
| VaultText.SanitizeSettles | web/src/App.tsx:1500-1542 | a sanitized text, whatever the input, has no system line, no long newline run and no outer whitespace; it holds a CRLF exactly when the scanner kept a line ending in CR before another non-blank one |
| VaultText.SanitizeIdempotent | web/src/App.tsx:1500-1542 | sanitizing twice is sanitizing once exactly when, of the kept lines, no non-blank one but the last ends in CR |
| VaultText.PlainTextNeedsOnePass | web/src/App.tsx:1501 | which holds for every text without CR CR LF, so for LF files and for CRLF files |
| VaultText.CarriageReturnsNeedTwoPasses | web/src/App.tsx:1501 | a text with CR CR LF that a second pass changes |
| VaultBlocks.ClosesIff | web/src/App.tsx:1514 | a line closes a block when a closing bracket is followed only by spaces and at most one final comma |
| VaultBlocks.HeadingUnderMarks | web/src/App.tsx:1461-1462 | a listed heading is recognised under two to six marks with space after them |
| VaultBlocks.OtherMarksStay | web/src/App.tsx:1462 | one mark, or more than six, belong to the heading's text |
| VaultBlocks.SystemIff | web/src/App.tsx:1523-1528 | a line is system data when it is a listed heading or one of the three tests says so |
| VaultBlocks.CleanIff | web/src/App.tsx:1518-1540 | which lines the scanner keeps as they are, in their characters and the four tests |
| VaultBlocks.CollapseRun | web/src/App.tsx:1542 | of a run of newlines at most two stay |
| VaultBlocks.SystemBlockIsDropped | web/src/App.tsx:1500-1542 | among lines that are kept, a system line goes with its bracketed block up to the closing line, its fence up to the next fence, either to the end of the text if unclosed, or alone, and nothing else goes |
| VaultBlocks.DroppingIsInvisible | web/src/App.tsx:1500-1542 | whatever follows, a text with such a block sanitizes like the text without it |
| VaultBlocks.BlankLineIsEmptied | web/src/App.tsx:1518-1521 | a line of whitespace is kept as an empty line |
| VaultBlocks.LinesOfBreaks | web/src/App.tsx:1501 | a text is split at LF and at CRLF |
| VaultFiles.HeadingIndexIsFirst | web/src/App.tsx:1450 | the index found is that of the first system heading, or there is none |
| VaultFiles.FrontEndsAt | web/src/App.tsx:1446-1448 | front matter runs from dashes at the start through the next dashes and the whitespace after them |
| VaultFiles.NoFront | web/src/App.tsx:1446-1448 | without dashes at the start, or a second time, there is none |
| VaultFiles.SplitAtHeading | web/src/App.tsx:1449-1458 | the remainder is cut before its first system heading: sanitized body above, trimmed sections from the heading on |
| VaultFiles.SplitWithoutHeading | web/src/App.tsx:1451-1453 | without one all of it is body |
| VaultFiles.ReplaceInParts | web/src/App.tsx:1439-1443 | a rebuilt file is front matter, sanitized body and, after a blank line, the sections |
| VaultFiles.SplitGivesSections | web/src/App.tsx:1445-1459 | for any file, the system sections a split delivers are trimmed and start with a system heading |
| VaultFiles.SplitCrs | web/src/App.tsx:1445-1459 | body and sections of a split hold no more carriage returns than the remainder, and fewer if it has a CRLF |
| VaultFiles.RoundTripIffFrontKept | web/src/App.tsx:1439-1459 | splitting a replaced file gives front matter, sanitized body and sections back exactly when the front matter ends where it did and neither part holds a CRLF |
| VaultFiles.ReplaceRoundTrips | web/src/App.tsx:1439-1459 | for a file with front matter that is exactly when the sanitized body is not empty and neither part holds a CRLF |
| VaultFiles.FrontlessRoundTrips | web/src/App.tsx:1439-1459 | for a file without front matter that is exactly when the new text does not read as front matter and neither part holds a CRLF |
| VaultFiles.PlainFilesRoundTrip | web/src/App.tsx:1439-1459 | for files and bodies without CR CR LF the CRLF condition always holds |
| VaultFiles.RuledBodyBecomesFront | web/src/App.tsx:1446 | a body with two rules, saved into an empty file, does not come back |

## Left out

- PostgreSQL, Qdrant and NATS adapters, services, API, HTTP, subprocess and argument plumbing: the model starts at the store calls and loops named above.
- Observations, edges, API keys, identities, worker heartbeats, search ranking, list_for_workspace and metrics of the in-memory store: plain lookups and counters.
- Unlocked reads concurrent with writers: each call is atomic in the model.
- Reviewer and reason clean-up on acceptance: the review record is taken as given.
- SHA-256, HMAC, AES-GCM and pgcrypto internals: a keystream and tag function, an inverse pair and digest functions stand for them; nothing is claimed about forging a tag.
- AES-GCM's limit on the plaintext length, file permissions, a failing unlink of the temporary file, and what a crash leaves on disk.
- Manifest, signature and bundle verification files: their result is the boolean `verified` of the retention job.
- Retry-After values that parse to NaN or infinity.
- Idempotency keys of append_turn: an append that a key answers stores nothing and is no step of the turn model.
- Negative limits of purge_expired_turns: the limit is a natural number.
- SearchTokens.SearchIndex.Backfill: models runs with dry_run off; a dry run writes neither tokens nor cursor.
- The counters rows_scanned and digests_written of the backfill report.
- jsonb scalars on which PostgreSQL's key operators raise errors.
- The regular expressions of the three looksLike functions and the Unicode case folding of headings: abstract functions on a trimmed line.
