# InvoiceMe: sync, delivery, payments and the arithmetic around them

This project models the parts of the InvoiceMe backend whose correctness is hardest to see from one
function, and proves what they promise. `dafny verify dfyconfig.toml` checks all of it.

**Offline sync (protocol 2 and the older protocol 1).** `SyncModel` holds the tables and the two
database triggers: every update moves the revision and writes which columns changed, every deletion
leaves a tombstone. `SyncPush` is the decision taken for one pushed change and what is then written,
`SyncConflicts` the resolution of a conflict. `SyncService` does the same step by step on a class
whose fields are the tables; its methods are proved to come to those functions. `SyncInvariant`,
`SyncResolution` and `SyncRuns` prove what every run keeps; `SyncMerge` that a merge is a
serialisation; `SyncProtection` what no push may do to a sent, overdue or paid invoice; `SyncOnce`
that a change id takes effect, and a conflict is resolved, at most once; `SyncDeletion` that deletions
stick; `SyncTotals` what a resolution leaves in the record and the invoice totals; `SyncRecovery` that
what a deletion removed comes back. `SyncApplied` says what an answer of applied or merged means for the
tables, `SyncAccepted` when a change sent for the first time is applied, kept or refused, `SyncBatch` what a
batch and a batch sent again come to, and `SyncFrames` what a push or a resolution leaves alone.
`SyncDeviceVersion` and `SyncRestored` follow an edit from the push that is kept to the decision of its owner,
and `SyncLastStates` shows that a deleted line is kept whole. Two members of the tables are read by no operation and exist for
the statements only: the versions of a record since it was last inserted, and the deleted ids whose
tombstone was pruned. A line restored after a deletion is a new row at revision 1, so the
merge statements speak of a base revision seen in the present row, not in one before a restore.

**Pull by snapshot cursor.** `Delivery` has the queries, the snapshots and the device's copy, which
stores rows, removes tombstoned ids and drops the lines of a tombstoned invoice. `DeliveryStamps`,
`DeliveryBelongs` and `DeliverySteps` prove of every step of the sync system what a device relies on.
`DeliveryRuns` is the protocol: transactions that begin, commit and abort in any order between the
statements of page requests, answers that are lost, pulls that are interrupted. `DeliveryExact` and
`DeliveryStranded` say when the device holds exactly what a full comparison would give it;
`DeliveryStrandedRun` is a run in which it does not. `Paging` is the request and proves the pages, `PullPage`
says what one page holds, and `PullProtocol` that a device which calls it with the cursor it was last given is
the device of the protocol.

**Online payment of one invoice.** `PaymentState` adds payments up. `Webhooks` is the service acting
on provider events; `WebhookEffects` is what each event does to the stored row, and `WebhookOrder` proves that
order and repetition of events do not matter.
`Checkout` is one checkout, `CheckoutRuns` the interleaving of its single steps with the provider,
the customer and the events, and `CheckoutLate` the runs that make a payment late and what that costs.

**Kernels.** `InvoiceTotals` (amounts and rounding), `Scrub` and `ScrubRun` (pruning secrets from
stored JSON by deleting paths), `Parens` (matching and reducing parentheses), `Calendar` and
`Recurrence` (dates and recurring invoices), `InvoiceNumbers` and `Decimal` (numbers printed and
read back), `Basics` (optional values and counting).

## Where the code differs from what is promised

Each of these follows from the code; the model keeps the code as it is.

- A line moved to another invoice that is then deleted, before the device has pulled either, stays on
  the device under its old invoice for good (docs/SYNC-CONTRACT.md, "Delivery guarantee", promises
  that every change is delivered): `DeliveryStrandedRun`. It does not happen as long as every invoice
  is deleted while the device holds its lines under it, and the lines stuck after a commit are exactly
  what keeps the device from holding what it should: `DeliveryStranded`.
- `payment_failed` marks an attempt failed, and a checkout looks at pending attempts only. Two orders of
  events make a failed attempt a paid one, and they are the only ones: the customer pays the intent
  after its row was marked failed, or an old `payment_failed` arrives after the payment and before the
  event that says so. The next checkout then asks for money that was already paid: `CheckoutLate`.
- Two events of one intent handled at the same time can lose a success; and a handler that stops
  between completing the payment and looking at the invoice is not made up for by redelivery, only by
  the next reading of the invoice: `WebhookOrder`.
- A conflict keeps a cut copy of a long text, and applying the device's version writes the cut copy:
  `SyncDeviceVersion.LongTextIsCut`.
- A negative discount rate is ignored in a line total and raises the tax in the invoice total:
  `InvoiceTotals.NegativeDiscountDisagrees`.
- Dates in the years 0 to 99 move by 1900 years when days are added: `Calendar.AddNothing`.
- A custom number pattern with the year right before or after the sequence is not read back, and going back
  to an earlier issue year repeats numbers: `InvoiceNumbers`.

## Model

| member | source | states |
|---|---|---|
| `SyncService.Database.UpdateRow` | backend/src/sync/sync-schema.ts:40-88 | An UPDATE with its triggers: a write that changes nothing keeps the revision; any other moves it by one, records the changed columns and stamps the transaction; a soft delete writes the tombstone, a restore removes it and touches the lines of the invoice. |
| `SyncService.Database.DeleteItem` | backend/src/sync/sync-schema.ts:94-113 | Deleting a line leaves a tombstone with its last state for the owner of its invoice; if that invoice is gone, no tombstone. |
| `SyncService.Database.WriteRecord` | backend/src/sync/sync.service.ts:971-995 | References are checked, then the record is created or updated; a refused write changes no table. |
| `SyncService.Database.DeleteRecord` | backend/src/sync/sync.service.ts:998-1006 | Clients and invoices are soft-deleted, lines are deleted. |
| `SyncService.Database.ReadChangedSince` | backend/src/sync/sync.service.ts:897-909 | The loop over the history rows yields the columns changed after the base, or nothing when the rows cannot prove it. |
| `SyncService.Database.ProcessRecordChange` | backend/src/sync/sync.service.ts:1009-1098 | What one change comes to in the tables, and its answer, branch by branch: apply, merge, conflict or fail. |
| `SyncService.Database.ProcessEdit` | backend/src/sync/sync.service.ts:1075-1098 | Applying an edit at the current base, merging a stale one, or keeping it as a conflict. |
| `SyncService.Database.ProcessDelete` | backend/src/sync/sync.service.ts:1047-1062 | Deleting at the current base, deleting a newer version while keeping it recoverable, or keeping the deletion as a conflict, as the decision says; that a deletion answered applied has deleted is SyncApplied.AppliedDeletion. |
| `SyncService.Database.ProcessLegacy` | backend/src/sync/sync.service.ts:1104-1129 | The same for protocol 1, which is refused where it would bypass a protection. |
| `SyncService.Database.RecordChange` | backend/src/sync/sync.service.ts:457-500 | The row of a change id: a new one, or the one it has, which must hold the same change. |
| `SyncService.Database.PushChange` | backend/src/sync/sync.service.ts:393-433 | One change in one transaction: recorded, applied or rolled back to the savepoint, answered; a second push of a processed change id answers from its row. What each answer means for the tables is stated by SyncApplied, and when it is given by SyncAccepted. |
| `SyncService.Database.PushChanges` | backend/src/sync/sync.service.ts:340-383 | A batch: in order, each change in its own transaction, counted as applied or not (SyncBatch.OneAfterAnother, SyncBatch.CountIs). |
| `SyncService.Database.ResolveConflict` | backend/src/sync/sync-conflicts.service.ts:185-225 | One resolution with all its writes, or a refusal that changes nothing. |
| `SyncService.Database.ApplyClientVersion` | backend/src/sync/sync-conflicts.service.ts:252-271 | The device version is written at the reviewed revision, and the totals of the invoices concerned are recomputed. |
| `SyncService.Database.RestoreDeleted` | backend/src/sync/sync-conflicts.service.ts:273-331 | A deleted record comes back at the reviewed revision, a line only into its own open invoice. |
| `SyncService.Database.RecomputeTotals` | backend/src/sync/sync-conflicts.service.ts:343-360 | Totals from the lines, for an active invoice that has lines or was just emptied. |
| `SyncRuns.RunConsistent` | backend/src/sync/sync-schema.ts:40-113 | In every state any run from the empty tables reaches: each kept history row lists exactly the columns that differ between its two versions, no id is both live and tombstoned, every line is in an existing invoice. |
| `SyncInvariant.PushKeeps` | backend/src/sync/sync.service.ts:393-433 | A push, whatever it contains, keeps all of that. |
| `SyncResolution.ResolveKeeps` | backend/src/sync/sync-conflicts.service.ts:185-225 | So does a resolution. |
| `SyncRuns.NextKeeps` | backend/src/sync/sync-maintenance.service.ts:23-35 | So do the other writers of the tables and retention. |
| `SyncMerge.CountProvesComplete` | backend/src/sync/sync.service.ts:897-904 | The row count equals the distance from the base exactly when no history row after the base is missing. |
| `SyncMerge.ChangedSinceExact` | backend/src/sync/sync.service.ts:897-909 | An answer is given exactly when no row is missing, and then it is exactly the columns that changed in some version after the base. |
| `SyncMerge.ReplayOnBase` | backend/src/sync/sync-schema.ts:40-63 | Replaying the server changes after a base on the version at that base gives the stored version. |
| `SyncMerge.SerialisedField` | backend/src/sync/sync.service.ts:1089-1096 | Column by column, what the edit at its base followed by all later server writes comes to. |
| `SyncMerge.MergedIff` | backend/src/sync/sync.service.ts:1083-1098 | A stale edit is merged exactly when the history after its base is complete and the stored columns overwritten by it equal that serialisation; what is written then is the serialisation, and otherwise a conflict is kept. |
| `SyncMerge.PushedEditSerialises` | backend/src/sync/sync.service.ts:1075-1098 | Whatever a protocol 2 update that is applied or merged leaves is the edit at its base followed by every later server write, so no server change is lost; and it is the stored record with every sent field set to what was sent. |
| `SyncMerge.StaleConflictNames` | backend/src/sync/sync.service.ts:1089-1093 | A conflict about a stale edit names exactly the fields both sides changed to different values, or every differing field when the history cannot tell. |
| `SyncProtection.ProtectedInvoiceKept` | backend/src/sync/sync.service.ts:1064-1098 | No push of either protocol changes a sent, overdue or paid invoice unless it is a change of that invoice carrying its current revision. |
| `SyncProtection.ProtectedItemKept` | backend/src/sync/sync.service.ts:1033-1045 | No push creates, edits, moves or deletes a line of one unless its parent revision is the current one of that invoice and no other invoice is touched. |
| `SyncProtection.PushKeepsDeleted` | backend/src/sync/sync.service.ts:1013-1068 | No push brings a deleted record back or changes it. |
| `SyncApplied.AppliedDeletion` | backend/src/sync/sync.service.ts:1047-1062 | A deletion answered applied, by either protocol: the record is not live; if it was, it was the user's, a tombstone of the user stands for it with the last state of a line, and a client or invoice is as it was but marked deleted; if it was not, no record or tombstone changed. |
| `SyncApplied.AppliedWriting` | backend/src/sync/sync.service.ts:971-995 | A creation or update answered applied or merged, by either protocol: the record is the user's and live, every column sent holds the value sent, every other one what it held or, in a new record, its initial value; protocol 2 is told the revision the row then has. |
| `SyncAccepted.IllFormedIsRefused` | backend/src/sync/sync.service.ts:435-455 | A change without a valid id, or in protocol 2 without change id or base, is refused with the first of these reasons, and nothing is recorded. |
| `SyncAccepted.ReusedIsRefused` | backend/src/sync/sync.service.ts:401-403 | A change id recorded for another change is refused, and nothing changes. |
| `SyncAccepted.FaultsLeaveNothing` | backend/src/sync/sync.service.ts:409-424 | A change the database rejects leaves no record changed; one that fails temporarily leaves nothing at all. |
| `SyncAccepted.DeletionOutcome` | backend/src/sync/sync.service.ts:1009-1062 | The answer to a deletion sent for the first time, from what the tables hold: refused for a foreign id or an impossible base, applied at the current revision, of what is gone, and of an unprotected newer version (kept recoverable), and otherwise kept as a conflict. |
| `SyncAccepted.WritingOutcome` | backend/src/sync/sync.service.ts:1009-1098 | The answer to a creation or update sent for the first time: a fresh id is created exactly if it comes with what a record must have and every value fits; an own record is written at its current revision, merged exactly if the history is complete and nothing it changes was changed since, and the change is otherwise kept as a conflict or refused for the reason named. |
| `SyncAccepted.LegacyOutcome` | backend/src/sync/sync.service.ts:1104-1129 | The answer to a change of protocol 1: applied as sent except where that would bypass a protection, touch a deleted or disputed record, or not fit. |
| `SyncAccepted.KeptAsSent` | backend/src/sync/sync.service.ts:941-968 | A change kept as a conflict changes no record; the conflict is new, open and the user's, with the record, both revisions, what was sent, its kind, and exactly the fields that clash. |
| `SyncFrames.PushLeavesOthers` | backend/src/sync/sync.service.ts:393-433 | A push changes nothing of any other record, tombstone, conflict or change id. |
| `SyncOnce.FailedLeavesOnlyItsRow` | backend/src/sync/sync.service.ts:412-424 | A failed attempt leaves at most its own new row of device_changes. |
| `SyncOnce.ResendChangesNothing` | backend/src/sync/sync.service.ts:401-408 | After a change id is processed, a push with it changes nothing, and the answer is duplicate, the same conflict, or that the id was reused. |
| `SyncOnce.EffectIsRecorded` | backend/src/sync/sync.service.ts:425-431 | A push with a change id that changed anything else is recorded as processed with its outcome. |
| `SyncOnce.AtMostOnce` | backend/src/sync/sync.service.ts:393-433 | In any run of pushes, resends and other steps, one change id of one user takes effect at most once. |
| `SyncBatch.OneAfterAnother` | backend/src/sync/sync.service.ts:346-371 | Each change of a batch meets what those before it have left, and is answered in its place. |
| `SyncBatch.AllRefused` | backend/src/sync/sync.service.ts:344-350 | When the client must be updated every change of the batch is refused and nothing changes. |
| `SyncBatch.CountIs` | backend/src/sync/sync.service.ts:373 | The changes counted as not applied are exactly those that failed or were kept as conflicts. |
| `SyncBatch.BatchTwice` | backend/src/sync/sync.service.ts:401-408 | A batch of which nothing failed, but whose answers were lost, is sent again: no table changes, and each change is answered as a duplicate or with the conflict it was kept as. |
| `SyncBatch.RecordedEachTime` | backend/src/sync/sync.service.ts:457-500 | A change without an id is recorded each time it is sent, unless it is ill-formed or the transaction is undone; one with an id never twice. |
| `SyncDeletion.NothingForgotten` | backend/src/sync/sync-maintenance.service.ts:26 | As long as retention does not drop its tombstone, an id is deleted exactly when it has a tombstone. |
| `SyncDeletion.DeletedStaysDeleted` | backend/src/sync/sync.service.ts:1064-1068 | In any run in which retention keeps its tombstone, a deleted record stays deleted and tombstoned, through restores of other records and refused ones too, until a restore of this record succeeds, which makes it live at once. |
| `SyncDeletion.RestoredHasNoTombstone` | backend/src/sync/sync-schema.ts:74-83 | In any run, a restore that succeeds leaves its record live and without a tombstone, and every other tombstone in place. |
| `SyncOnce.ResolvedAtMostOnce` | backend/src/sync/sync-conflicts.service.ts:190-225 | In any run, through pushes, other resolutions, server writes and retention: at most one step resolves a given conflict; an open one is exactly as it was until that step, and after it the id is never open again nor given out again. |
| `SyncResolution.ActsAtReviewedRevision` | backend/src/sync/sync-conflicts.service.ts:252-315 | Neither apply nor restore acts at any other revision than the one given. |
| `SyncTotals.ResolvedTotals` | backend/src/sync/sync-conflicts.service.ts:252-360 | After applying or restoring a line, every active invoice it is in or left has exactly the totals of its lines; so has a resolved invoice with lines. |
| `SyncTotals.ApplyLine` | backend/src/sync/sync-conflicts.service.ts:252-271 | An applied line holds its stored columns with the editable ones of the device, and a line total computed from the result. |
| `SyncTotals.ApplyColumns` | backend/src/sync/sync-conflicts.service.ts:252-271 | An applied client or invoice holds the editable columns of the device, everything else as stored. |
| `SyncTotals.RestoreLine` | backend/src/sync/sync-conflicts.service.ts:308-331 | A restored line is back in the invoice it was in, which is active and open, and its tombstone is gone. |
| `SyncTotals.RestoreColumns` | backend/src/sync/sync-conflicts.service.ts:288-306 | A restored client or invoice is live, with its stored columns and, if the device had edited it after the deletion, that edit. |
| `SyncTotals.EmptiedIsZero` | backend/src/sync/sync-conflicts.service.ts:267-270 | Matching totals of an invoice without lines are zero. |
| `SyncDeviceVersion.KeptColumns` | backend/src/sync/conflict-fields.ts:9-60 | A conflict keeps exactly the columns a device may send, but for an invoice's metadata, each with its value up to the two limits. |
| `SyncDeviceVersion.KeptValues` | backend/src/sync/conflict-fields.ts:9-60 | Of what a device sent, a resolution writes exactly the columns it may write (all but the amounts derived from the lines and an invoice's metadata), each with the value sent up to the two limits. |
| `SyncDeviceVersion.LongTextIsCut` | backend/src/sync/conflict-fields.ts:38-47 | Each of these columns is kept, with exactly what the device sent unless it was a text over 2000 characters or a JSON value over 4000: these reach the record cut or replaced. |
| `SyncDeviceVersion.ApplyAccepted` | backend/src/sync/sync-conflicts.service.ts:189-265 | Applying the device version succeeds exactly on an open stale edit of the user, while the record is the user's, live, at the revision reviewed and not protected, and what was kept fits. |
| `SyncDeviceVersion.DeviceVersionApplied` | backend/src/sync/sync-conflicts.service.ts:252-271 | From push to resolution: a stale edit that was kept, then applied in any later state: every column it sent, but for derived amounts and metadata, holds the value sent up to the two limits, every other one what was stored, and a line has its total computed anew as quantity times price less discount plus tax, to the cent. |
| `SyncRestored.DismissIs` | backend/src/sync/sync-conflicts.service.ts:189-222 | Dismissing succeeds exactly on an open conflict of the user, and changes nothing but its status and the transaction the record is delivered with. |
| `SyncRestored.DeliveredAgain` | backend/src/sync/sync-conflicts.service.ts:212-232 | Whatever its owner decides, the conflict is closed accordingly and its record carries the transaction of the decision, so that it is delivered again. |
| `SyncRestored.RestoreAccepted` | backend/src/sync/sync-conflicts.service.ts:273-331 | Restoring succeeds exactly on an open conflict of the user over a deletion, at the revision reviewed: a client always, an invoice while its client is active, a line while its invoice is active and open, and a later edit only if it fits and the invoice is not protected. |
| `SyncRestored.LaterEditRestored` | backend/src/sync/sync-conflicts.service.ts:273-331 | From push to resolution: an edit sent after the deletion is kept, and when the record is restored in any later state it is live, holds every column the edit sent up to the two limits, everything else as it was deleted, and a line is in the invoice it was in with its total computed anew. |
| `SyncLastStates.LastStatesAreWhole` | backend/src/sync/sync-schema.ts:94-113 | In every state any run reaches, the last state kept with a deleted line has every column of a line with a value that fits. |
| `SyncFrames.ResolutionLeavesOthers` | backend/src/sync/sync-conflicts.service.ts:185-225 | A resolution changes no column of another record but the amounts of the invoices its line is in, or was in. |
| `SyncFrames.AmountsWithoutLines` | backend/src/sync/sync-conflicts.service.ts:343-360 | A resolution of an invoice without lines keeps the amounts it has. |
| `SyncRecovery.StaleDeleteIsRecoverable` | backend/src/sync/sync.service.ts:1050-1058 | A deletion based on an older revision leaves an open conflict that allows restoring what it removed. |
| `SyncRecovery.DeletedLineComesBack` | backend/src/sync/sync-conflicts.service.ts:308-331 | A deleted line can be restored exactly while its invoice is active and not sent, overdue or paid, and is then the line that was deleted, its total recomputed. |
| `SyncRecovery.DeletedRecordComesBack` | backend/src/sync/sync-conflicts.service.ts:288-306 | A deleted client can always be restored, an invoice exactly while its client is active, and every column but an invoice's amounts is as it was. |
| `DeliveryRuns.SnapshotSees` | backend/src/sync/sync.service.ts:669 | A current snapshot sees a transaction exactly when it has ended. |
| `DeliverySteps.NextFollows` | backend/src/sync/sync-schema.ts:40-113 | Every step stamps its transaction on whatever a device would have to be told, leaves every id with its owner, and puts a line only into an invoice that is live or tombstoned for its owner. |
| `Delivery.CommitKeeps` | backend/src/sync/sync.service.ts:708-739 | A commit the pull does not see leaves the device as far along as it was. |
| `DeliveryRuns.QueryAdvances` | backend/src/sync/sync.service.ts:676-687 | One statement of a pull takes the device past its rows, and past the type when the page is not full. |
| `DeliveryRuns.HappenKeeps` | backend/src/sync/sync.service.ts:631-692 | Every event keeps this: transactions beginning, committing and aborting, page requests, statements, answers, losses, interruptions and starting over. |
| `DeliveryRuns.KnownNotAhead` | backend/src/sync/sync.service.ts:652-661 | A cursor handed out is never ahead of the database that handed it out. |
| `DeliveryRuns.SeenIsDelivered` | backend/src/sync/sync.service.ts:631-739 | For every interleaving: a device whose last complete pull ended with a cursor holds the current version of every live client, invoice and line of a live invoice whose last change that cursor sees, and no id tombstoned by a transaction it sees, nor a line of such an invoice. |
| `DeliveryRuns.NothingFallsBetween` | backend/src/sync/sync-pull-cursor.ts:5-17 | What had been committed when no pull was under way is on the device when the next one completes, whatever else happens meanwhile. |
| `DeliveryStranded.ExactWhenDeletedAsHeld` | backend/src/sync/sync.service.ts:708-739 | For every run: if, whenever a transaction deletes an invoice, every line of it that the device holds is held under that invoice, then a device that has pulled everything holds exactly what a full comparison gives. |
| `DeliveryStranded.ExactIffNoneStuck` | backend/src/sync/sync.service.ts:708-739 | However the device pulls after the last commit: once it has pulled everything it holds exactly what a full comparison gives, if and only if right after that commit (no page being answered then) it held no line of a deleted invoice under an invoice without a tombstone. |
| `DeliveryStrandedRun.MovedThenDeletedIsStranded` | backend/src/sync/sync-schema.ts:72-83 | A run from tables the service can have made: pull, a pushed change moves a line to another invoice, that invoice is deleted, pull. Everything is pulled, and the device still holds the line under its first invoice, which a full comparison would not give it. |
| `DeliveryExact.StrandedStays` | backend/src/sync/sync.service.ts:708-739 | No statement of any later pull removes or changes that line on the device. |
| `DeliveryExact.StrandedWasMoved` | backend/src/sync/sync.service.ts:708-739 | A stranded line is held under another invoice than the server has it in. |
| `Paging.PullByCursor` | backend/src/sync/sync.service.ts:631-692 | One page request: where it starts, when it must start over, its rows type after type until the page is full, and its next cursor, as PullReply says; PullPage.PageIs and PullProtocol say what that is in terms of the cursor, the snapshot and the tables. |
| `PullPage.PageIs` | backend/src/sync/sync.service.ts:638-692 | What one request is answered: to start over exactly for a cursor ahead of the database or too old; else entries of the user's own live records and deletions, each news between the snapshot of the cursor and the current one when a statement read it, in order, at most a page and a full page exactly when more may follow, with the cursor that goes on after the last entry or holds the snapshot read up to. |
| `PullProtocol.AsksWithCursor` | backend/src/sync/sync.service.ts:648-674 | A request of a device of the protocol is the request of its cursor: to start over exactly if it is ahead of the database, else from its place up to its snapshot. |
| `PullProtocol.PullIsProtocol` | backend/src/sync/sync.service.ts:631-692 | A device of the protocol whose requests are answered by this reply, from the cursor it was last given, goes through the same states, whatever commits between the statements. |
| `PullProtocol.HeldIsDelivered` | backend/src/sync/sync-pull-cursor.ts:5-17 | So a device holding the cursor of a complete pull has every record that snapshot sees as the server has it, and nothing it sees deleted. |
| `PullProtocol.PullBringsAll` | backend/src/sync/sync.service.ts:631-692 | A pull, request after request with the cursor of the last answer, while others write: it ends with the snapshot of its first request, and every record and deletion that snapshot sees and the old cursor did not has come as it then is. |
| `Paging.RowsAre` | backend/src/sync/sync.service.ts:733-735 | The rows of one statement: matching, ascending, as many as fit, none skipped. |
| `Paging.CommitShrinks` | backend/src/sync/sync.service.ts:731-732 | A commit the pull does not see only ever takes rows out of the match set. |
| `Paging.PullReturnsOnce` | backend/src/sync/sync.service.ts:671-692 | While others write: from any place on, the further pages of a pull are strictly ascending, so nothing comes twice, and hold everything that still matches at its end. |
| `Paging.PullWhileWriting` | backend/src/sync/sync.service.ts:671-692 | A whole pull whose statements each see the database between any two of the commits meanwhile: nothing comes twice, and everything that still matches after the last commit comes, as it then is. |
| `Paging.QuietPull` | backend/src/sync/sync.service.ts:671-692 | With nothing written, N matching rows come in exactly N / limit + 1 pages, in order, none missing. |
| `PaymentState.PaymentTotals` | backend/src/payments/payment-state.ts:45-71 | Gross, refunded, disputed and net of all counted payments: the net is what is left of each, its amount less what was refunded and what a dispute holds; and each state shown, exactly when. |
| `PaymentState.ClampNeverActs` | backend/src/payments/payment-state.ts:62-63 | Refunds and disputes never exceed what was paid: the clamp at zero never acts. |
| `PaymentState.OrderIrrelevant` | backend/src/payments/payment-state.ts:45-71 | The totals do not depend on the order of the payments. |
| `PaymentState.TotalsAdd` | backend/src/payments/payment-state.ts:45-71 | The totals of two lists together are the sums of theirs. |
| `PaymentState.RefundNeverRaisesNet` | backend/src/payments/payment-state.ts:54-61 | Refunding more of any payment never raises the net. |
| `PaymentState.RefundTakesItsAmount` | backend/src/payments/payment-state.ts:53-63 | Refunding more of an undisputed payment takes exactly that much off the net; one refunded in full leaves nothing. |
| `PaymentState.DisputeHoldsItsAmount` | backend/src/payments/payment-state.ts:57-63 | What an open or lost dispute holds back: its amount, or the rest of the payment if it names none, at most that rest. |
| `Webhooks.PaymentsService.UpdatePaymentStatus` | backend/src/payments/payments.service.ts:130-205 | What an intent event does to its payment and the invoice: applied, duplicate, stale, unknown or mismatch. |
| `Webhooks.PaymentsService.MarkInvoicePaidIfCovered` | backend/src/payments/payments.service.ts:211-231 | The invoice becomes paid exactly when it was not and its net covers the total. |
| `Webhooks.PaymentsService.ApplyRefundState` | backend/src/payments/payments.service.ts:376-403 | The refunded amount as the provider holds it, if it fits the payment. |
| `Webhooks.PaymentsService.ApplyDisputeState` | backend/src/payments/payments.service.ts:406-435 | The dispute as the provider holds it, if it fits the payment. |
| `Webhooks.PaymentsService.HandleProviderEvent` | backend/src/payments/payments.service.ts:315-368 | One delivery: an event id acted on before changes nothing. |
| `WebhookEffects.SuccessEffect` | backend/src/payments/payments.service.ts:130-231 | What a success does to the stored row of its intent, the invoice and the answer, in each of its cases. |
| `WebhookEffects.FailureEffect` | backend/src/payments/payments.service.ts:168-205 | What a failure or cancellation does to it: a pending payment fails, any other stays. |
| `WebhookEffects.RefundEffect` | backend/src/payments/payments.service.ts:376-403 | What a refund does: the amount the provider holds is taken over exactly if it fits the payment. |
| `WebhookEffects.DisputeEffect` | backend/src/payments/payments.service.ts:406-435 | What a dispute does: status and amount are taken over exactly if they fit. |
| `WebhookEffects.OtherEffect` | backend/src/payments/payments.service.ts:315-368 | An event about a payment the service does not have, or of another kind, changes nothing but the record of its id. |
| `WebhookEffects.SecondDelivery` | backend/src/payments/payments.service.ts:315-326 | The same event id again changes nothing, whatever the event says then. |
| `Webhooks.PaymentsService.ReopenInvoice` | backend/src/payments/payments.service.ts:537-561 | A paid invoice is reopened exactly when it is not covered any more and no dispute is open. |
| `Webhooks.PaymentsService.CalculateInvoiceStatus` | backend/src/invoices/invoices.service.ts:124-145 | Reading an invoice marks it paid when it is covered and not cancelled. |
| `WebhookOrder.OnlyEverToPaid` | backend/src/payments/payments.service.ts:211-231 | No provider event takes an invoice out of paid, or moves it anywhere but to paid, and there only when covered. |
| `WebhookOrder.PaymentEndsAs` | backend/src/payments/payments.service.ts:130-205 | However the events of an intent arrive, and however often, its payment ends as the set of events that arrived says; a success absorbs. |
| `WebhookOrder.PaidExactlyWhenCovered` | backend/src/payments/payments.service.ts:211-231 | With intent events only, the invoice ends paid exactly when its payments cover it. |
| `WebhookOrder.Confluence` | backend/src/payments/payments.service.ts:315-368 | Two ways of delivering the same events leave the same payments and the same invoice status. |
| `WebhookOrder.OvertakenSuccess` | backend/src/payments/payments.service.ts:194-198 | Two handlers at once: a success that nobody overtakes completes the payment; one overtaken between its read and its update still does unless the payment was pending and the other event failed it; then it stays failed although both events count as handled. |
| `WebhookOrder.StoppedHandlerIsNotRedone` | backend/src/payments/payments.service.ts:154-160 | A handler that stopped after completing the payment leaves the invoice unmarked for good: no list of later events of the intent, redeliveries, refunds and disputes included, marks it, and its intent events change nothing. |
| `Checkout.CheckoutService.StartCheckout` | backend/src/payments/payments.service.ts:445-527 | One checkout: an invoice that is paid, cancelled, without a total, with an open dispute or with nothing due is refused and nothing changes; else reuse of an open attempt, closing of the others, a new attempt for exactly what is not left of its payments; a refusal undoes what was written. |
| `Checkout.StartsUnless` | backend/src/payments/payments.service.ts:450-470 | A checkout is refused at once exactly in these cases, with the first of their reasons, and else asks for the rest of the total. |
| `CheckoutRuns.BeginStarts` | backend/src/payments/payments.service.ts:445-470 | In any state with no checkout at work, one begins exactly when none of these cases holds, with every open attempt to look at. |
| `Checkout.CheckoutService.CheckAttempts` | backend/src/payments/payments.service.ts:472-507 | The loop over the open attempts, newest first. |
| `CheckoutRuns.ClosedIsNeverPaid` | backend/src/payments/payments.service.ts:472-504 | What a checkout closes cannot be paid any more: over any continuation of any run, the intent of a closed attempt stays cancelled and its payment is never completed. |
| `CheckoutRuns.NextKeeps` | backend/src/payments/payments.service.ts:445-527 | Every step of checkout, customer, provider and webhook keeps the rows in step with their intents, at most one attempt open, and closed attempts cancelled; and, if the step is not late and none was, what is at stake within the total. |
| `CheckoutRuns.NeverMoreThanDue` | backend/src/payments/payments.service.ts:445-527 | In every reachable state at most one attempt is open; and in every run without a late step, net plus that attempt never exceeds the total, nor does what the provider has collected and not given back for the intents that have a payment row (an intent whose checkout was rolled back has none). |
| `CheckoutRuns.OrderlyIsNeverLate` | backend/src/payments/payments.service.ts:168-198 | No state of a run has a failed payment whose intent was paid if and only if no step is late: no payment of an intent whose row is failed, and no payment_failed acted on after the payment while the row is pending. |
| `CheckoutRuns.ClosesNothingCompleted` | backend/src/payments/payments.service.ts:500-504 | In every reachable state, the unconditional close of an attempt overwrites no completed payment, and its intent is cancelled at the provider. |
| `CheckoutLate.LatePaymentPaysTwice` | backend/src/payments/payments.service.ts:327-331 | A run in which a failed attempt is paid after the next checkout: twice the total is paid. |
| `CheckoutLate.OldFailureAsksTwice` | backend/src/payments/payments.service.ts:168-194 | A run in which an old payment_failed arrives after the payment and before its event: the paid total is asked for a second time. |
| `CheckoutLate.LateIsAskedTwice` | backend/src/payments/payments.service.ts:445-527 | From any state with a late payment, nothing open and something due: after the next checkout and the event of the success, net and open amount exceed the total by exactly what the late payment is worth. |
| `CheckoutRuns.DeliveryCatchesUp` | backend/src/payments/payments.service.ts:376-435 | However earlier events arrived, one delivered refund or dispute event leaves the payment with what the provider holds. |
| `CheckoutRuns.NewAttemptIsForTheRest` | backend/src/payments/payments.service.ts:467-527 | A new attempt asks for exactly what is due: with it, net and open amount are the total, and no other attempt is open. |
| `InvoiceTotals.CalculateTotals` | backend/src/invoices/invoice-totals.ts:35-58 | The loop computes the totals: subtotal, discount, tax and total are the sums of the products of each line, each rounded to the cent. |
| `InvoiceTotals.CalculateLineTotal` | backend/src/invoices/invoice-totals.ts:22-33 | The total of one line: quantity times price, less the discount rate, plus the tax rate, rounded to the cent. |
| `InvoiceTotals.LineTotalIsProduct` | backend/src/invoices/invoice-totals.ts:22-33 | Before rounding, a line total is that product, negative rates counting for nothing. |
| `InvoiceTotals.SumsAreExact` | backend/src/invoices/invoice-totals.ts:35-58 | The four sums are those of the products, line by line. |
| `InvoiceTotals.TotalWithinOneCent` | backend/src/invoices/invoice-totals.ts:52-57 | The stored total is within one cent of subtotal less discount plus tax, for any number of lines and any rates. |
| `InvoiceTotals.TotalNearLineTotals` | backend/src/invoices/invoice-totals.ts:35-58 | With rates that are not negative, the total of n lines is within n / 2 cents of the sum of their line totals, so equal for one line. |
| `InvoiceTotals.LineTotalIsShareIff` | backend/src/invoices/invoice-totals.ts:22-50 | Before rounding a line total is what the line adds to the invoice, except exactly when the discount is negative, the tax positive and the amount not zero. |
| `InvoiceTotals.NegativeDiscountDisagrees` | backend/src/invoices/invoice-totals.ts:43-50 | An invoice of one line whose total differs from its line total. |
| `InvoiceTotals.TotalsOrderIrrelevant` | backend/src/invoices/invoice-totals.ts:35-58 | The totals do not depend on the order of the lines. |
| `Scrub.DeletingIsPruning` | backend/src/ops/scrub-payment-secrets.ts:186-194 | Deleting the secret paths one after another never fails and leaves exactly the value without its secret keys. |
| `Scrub.PrunedPlaces` | backend/src/ops/scrub-payment-secrets.ts:9-13 | Every other place of the value leads to the same value as before, every secret place to nothing. |
| `Scrub.PrunedHasNone` | backend/src/ops/scrub-payment-secrets.ts:95-107 | A second run finds no path and no secret. |
| `Scrub.SecretKeysAre` | backend/src/ops/scrub-payment-secrets.ts:9-13 | A key is secret exactly if it is one of the two names of a client secret. |
| `Scrub.SelectedIffPaths` | backend/src/ops/scrub-payment-secrets.ts:83-86 | A value is selected exactly when it has a path to delete. |
| `Scrub.DeleteInItem` | backend/src/ops/scrub-payment-secrets.ts:90-94 | Paths below one position of an array act on that position only: no deletion shifts another. |
| `ScrubRun.PaymentsTable.ApplyBatch` | backend/src/ops/scrub-payment-secrets.ts:173-201 | One batch: the first free rows with a secret after the last one are pruned, the removed fields counted. |
| `ScrubRun.PaymentsTable.ScrubPaymentSecrets` | backend/src/ops/scrub-payment-secrets.ts:217-228 | The whole run: the changed rows are pruned, no other row changes, and every row with a secret is changed unless another session held it. |
| `Parens.MatchParens` | backend/src/ops/verify-restore.ts:124-136 | An opening and a closing parenthesis are paired exactly when the text between them is balanced, literals skipped. |
| `Parens.CountsOutsideLiterals` | backend/src/ops/verify-restore.ts:124-136 | A parenthesis counts exactly when the number of quotes before it is even. |
| `Parens.DropDoubledParens` | backend/src/ops/verify-restore.ts:139-147 | The inner of the doubled pair that closes first is removed; without one the text is unchanged. |
| `Parens.ReduceDoubledParens` | backend/src/ops/verify-restore.ts:161-166 | Repeated, it ends, two characters shorter each time, with no doubled pair left. |
| `Parens.NestingKept` | backend/src/ops/verify-restore.ts:139-147 | The pairs of the shorter text are exactly the other pairs of the text, so what is nested in what stays. |
| `Parens.DroppedWeights` | backend/src/ops/verify-restore.ts:143 | Removing the pair joins and cuts no literal. |
| `Calendar.DayNumbersOrder` | backend/src/common/calendar-date.ts:85-103 | Day numbers and dates of the calendar correspond one to one, in order. |
| `Calendar.FromDayOf` | backend/src/common/calendar-date.ts:85-88 | The date of the day number of a date is that date. |
| `Calendar.TextOrder` | backend/src/common/calendar-date.ts:39-42 | Up to the year 9999, texts compare as the dates do. |
| `Calendar.AddDaysComposes` | backend/src/common/calendar-date.ts:91-94 | From the year 100 on, adding days composes additively and is strictly monotone. |
| `Calendar.AddNothing` | backend/src/common/calendar-date.ts:91-94 | Adding no days changes a date exactly in the years 0 to 99. |
| `Calendar.AddMonthsNumber` | backend/src/common/calendar-date.ts:100-103 | Each month more is at least 28 days later, rollover included. |
| `Calendar.DaysAreCounted` | backend/src/common/calendar-date.ts:85-88 | The day number counts the days of the calendar: leap years by centuries, months by their lengths. |
| `Calendar.TomorrowIsNextDay` | backend/src/common/calendar-date.ts:91-94 | Adding one day is the next day of the calendar. |
| `Calendar.AddMonthsIsMonthsOn` | backend/src/common/calendar-date.ts:100-103 | Adding months keeps the day of the month, or counts on into the next month where that is too short. |
| `Calendar.CountedFrom1900` | backend/src/common/calendar-date.ts:91-103 | Days and months are added to a date of the years 0 to 99 as to the date 1900 years later. |
| `Calendar.TextIs` | backend/src/common/calendar-date.ts:39-42 | Four digits of the year, two of the month and two of the day, parted by hyphens. |
| `Recurrence.NextRunIsLater` | backend/src/recurring-invoices/recurring-invoices.service.ts:84-98 | The next run is after today exactly when the interval is at least one, for every frequency. |
| `Recurrence.NextRunIs` | backend/src/recurring-invoices/recurring-invoices.service.ts:84-98 | The next run on the calendar, frequency by frequency, month ends and leap days included. |
| `Recurrence.MakesWhenDue` | backend/src/recurring-invoices/recurring-invoices.service.ts:28-72 | A schedule makes an invoice exactly when it is active, due, not over and the creation does not fail, and then moves on; it ends exactly when it is due and over. |
| `Recurrence.OneInvoiceEach` | backend/src/recurring-invoices/recurring-invoices.service.ts:28-79 | The invoices of a run are those of the schedules that make one, in their order, each once and none else. |
| `Recurrence.RecurringInvoicesService.ProcessRecurringInvoices` | backend/src/recurring-invoices/recurring-invoices.service.ts:22-79 | One run over all schedules: which are ended, advanced or left, which invoices are made, which creations failed. |
| `Recurrence.OncePerDate` | backend/src/recurring-invoices/recurring-invoices.service.ts:28-72 | Over any runs, on any dates, a schedule makes at most one invoice on a date. |
| `Recurrence.ZeroIntervalRepeats` | backend/src/recurring-invoices/recurring-invoices.service.ts:84-98 | An interval of zero makes another invoice at every run. |
| `InvoiceNumbers.InvoicesService.GenerateInvoiceNumber` | backend/src/invoices/invoices.service.ts:534-576 | The number after that of the last invoice of the type in the same year, or the first, in the own pattern or as INV or EST, year and four digits. |
| `InvoiceNumbers.InvoicesService.Create` | backend/src/invoices/invoices.service.ts:534-576 | The new invoice is the last one from then on, with that number. |
| `InvoiceNumbers.LatestIs` | backend/src/invoices/invoices.service.ts:539-548 | Only invoices of the same type are looked at, the latest of them. |
| `InvoiceNumbers.NextAfter` | backend/src/invoices/invoices.service.ts:549-572 | Numbering goes on after an invoice of the same year, and starts at 1 in another year or where no number is found. |
| `InvoiceNumbers.FormatJoins` | backend/src/core/services/invoice-number-formatter.service.ts:22-66 | A pattern put together writes what its parts write; only the first sequence placeholder is replaced. |
| `InvoiceNumbers.ExtractInvertsFormat` | backend/src/core/services/invoice-number-formatter.service.ts:22-90 | Under the default patterns every sequence number is read back. |
| `InvoiceNumbers.ReadBackIff` | backend/src/core/services/invoice-number-formatter.service.ts:68-90 | A number that ends with its sequence is read back exactly when the digits before it are zeros or none. |
| `InvoiceNumbers.YearAfterIsMisread` | backend/src/core/services/invoice-number-formatter.service.ts:75-79 | A pattern with the year right after the sequence never reads it back. |
| `InvoiceNumbers.DistinctIffGrouped` | backend/src/invoices/invoices.service.ts:539-572 | All numbers of a run are distinct exactly when no issue year comes again after another one. |
| `InvoiceNumbers.DistinctWhenYearsNeverDecrease` | backend/src/invoices/invoices.service.ts:539-572 | In particular when the issue years never decrease. |

## Left out

- Attachments, in pushes and pulls: their writes do not lock the invoice, and they have no revision.
- The timestamp pull of protocol 1: it is given no delivery guarantee.
- Controllers, authentication, e-mail, PDF, storage, logging, imports, exports and the mobile apps.
- SQL, locks and deadlocks: a row lock or an advisory lock is the atomicity of a step; a write takes effect when its transaction commits.
- Base64, JSON parsing, regular expressions and the damaged or forged cursors they refuse: values come parsed.
- Type coercions when a sent value is compared with a stored one: values are canonical and compared by equality.
- Errors of the database: a parameter says whether a change is rejected or fails temporarily.
- The device id of a change, the server's own fields and the omitted fields shown with a conflict, creation and update times.
- Records of other users that old pushes re-pointed, which reads filter out.
- SyncRuns.NextKeeps: writes of the REST service and of jobs appear as inserts under fresh ids, updates of data columns, soft deletes and deletions of lines; only sync moves a line to another invoice.
- SyncMerge.PushedEditSerialises: speaks of a base revision of the present row; a restored line starts again at revision 1, and a base from before the restore is compared with the new row's revisions.
- SyncTotals.ResolvedTotals: nothing is claimed after a push, which does not recompute totals, nor for an invoice without lines that was not just left by one.
- DeliveryRuns.SeenIsDelivered: for one device and its own requests; writes of a line and the deletion or restoring of its invoice are taken to be serialised, as the row locks of sync do.
- DeliveryStranded.ExactWhenDeletedAsHeld: retention is an assumption on the run: only tombstones the device has received are dropped, or while it holds nothing; the age of a cursor is not compared with clocks.
- Paging.PullByCursor: whether a cursor is older than the retention period is a parameter; the number of open conflicts and the time of issue sent along; the order of keys is that of type and number, not of a collation.
- PaymentState.PaymentTotals: amounts are whole cents, as the columns store them; currencies are compared without regard to the case of the letters A to Z, as currency codes have no others.
- Webhooks.PaymentsService.ApplyRefundState: the charge id stored with a payment, and an event that changes only that.
- Webhooks.PaymentsService.HandleProviderEvent: the payment id and details recorded with an event; notifications.
- Checkout.CheckoutService.StartCheckout: estimates, deleted invoices and the list of accepted currencies are refused before; the client secret of the intent is not modelled.
- CheckoutRuns.NeverMoreThanDue: the total and the currency stay as they are, all intents are made by this code, no more than its amount is received for an intent, refunds never shrink, a payment has one dispute and a lost one stays lost; a refund or dispute handler is one step. The amounts are bounded in runs in which no intent is paid while its row is failed and no payment_failed is acted on between a payment and the event that says so; what an intent without a payment row collects is not counted.
- InvoiceTotals.CalculateTotals: exact rationals, where the code computes with binary floating point before it rounds.
- Scrub.DeletingIsPruning: array positions are unbounded, and any number of paths fits one statement.
- ScrubRun.PaymentsTable.ScrubPaymentSecrets: nobody else writes the table between two batches; the counts of the dry run and the printed report.
- Parens.ReduceDoubledParens: the replacement of casts, of parentheses around single words and of literals by placeholders, which regular expressions do before and between.
- Recurrence.RecurringInvoicesService.ProcessRecurringInvoices: an invoice that is made although saving its schedule then fails.
- InvoiceNumbers.DistinctIffGrouped: creations of one user and type, one after another, under the default pattern, whose dates are not edited afterwards; the unique constraint on numbers.
- Calendar.AddDaysComposes: the largest date a JavaScript Date can hold.
- The overdue job, API-key permissions, URL checks and the integrity report: short branches with nothing across functions to state.
