# Ratspeak: verified model

Ratspeak is a mesh messenger. This project models the parts of it where state,
failure and interleaving meet, and proves what they promise.

| modules | what they model |
|---|---|
| `Tables`, `Admission`, `Deletion`, `Suppression`, `Store`, `Runs` | durable inbound admission: one transaction per message over effects, receipts, tombstones, suppression rows and application tables; deletion with its journal; every run of all writers |
| `MessagePack`, `SuppressionCodec`, `Hex` | the suppression record's wire form |
| `Disk`, `Modular`, `Reconcile`, `Leftovers`, `Sweep`, `Maintenance` | background removal of content-addressed files that intents and rows may share, and what repeated passes come to |
| `Delivery`, `Retention` | staging and committing one message; files and tables together over every run |
| `ReadyRing`, `Hosted`, `Deposit`, `DepositRuns`, `Relay` | the hosted relay: per-link queues behind a round-robin ring, four workers, a pending set, resource permits, storing one batch, many batches at once, and what senders are told about them |
| `Announce` | the coordinator that coalesces presence bursts |
| `Utf8`, `Utf8Scalars`, `MarkdownTables`, `Markdown`, `MarkdownScanner`, `MarkdownProvenance`, `MarkdownSecrecy`, `MarkdownUtf8`, `MarkdownLines` | the plain-text Markdown projection for notifications |
| `MarkdownRegions`, `MarkdownReference`, `MarkdownRendering`, `MarkdownLayout`, `MarkdownText` | what the projection is, as a definition over the bytes of the text, and that the scanner and the line loop compute it |
| `NetworkWorker`, `NetworkOrder` | the lock-free hand-off of native network transitions: who attends to them, in which order, and which can be lost |
| `Decimal`, `Lifecycle`, `Inbox`, `Presentation` | the Android lifecycle and the share inbox, separately and together |
| `Ownership` | the switch between a managed and an existing network stack |
| `Scanner`, `Gif`, `Png`, `WebP`, `Protobuf` | byte scanners against the grammars they read |

How the forms relate: code that updates state step by step is a method or a
class, proved against a function of its inputs or of the old state; the promises
are then lemmas and invariants about those functions, over whole runs where a
protocol is concerned. What the environment decides (how a commit ends, whether
the disk obeys, how many permits are free, what protected storage answers, where
a task is cancelled, a bound on the clock) is an input, and the contracts say
what follows from it.

The functions that methods are proved against have their own meaning proved:
what an operation does to each row, file, job, burst or byte is stated with the
fields and the numbers themselves (`Admission.Recorded`, `Deletion.RowsGo`,
`Suppression.Batched`, `Reconcile.Reconciled`, `Sweep.Tidied`,
`Announce.Answers`, `MarkdownRegions.Laid`, `MarkdownText.Becomes` and others),
and does not mention those functions.

Where the code does not keep a property in every case, the exact condition is
proved, and a concrete run shows the failure:

- a waiting network transition is stranded exactly when a callback that saw no
  state, or a worker that put its value back, leaves and nobody else will look
  (`NetworkWorker.StaysAttendedIff`, `NetworkWorker.LateCallbackStrands`);
- accepted transitions are applied out of order exactly when one that took the
  slot late is applied (`NetworkOrder.AppliedInOrderIff`, `NetworkWorker.AppliesOutOfOrder`);
- a newer transition is lost exactly when a worker puts an older one back onto it
  (`NetworkOrder.DropsNewerIff`, `NetworkOrder.StaysNewestIff`, `NetworkWorker.PutBackLosesNewer`);
- a failed finish of a presence burst hands a one-shot intent on exactly when it
  names the burst in flight (`Announce.FailedFinishPromotesIff`,
  `Announce.StaleFinishLosesIntent`); the run needs a second finisher, which the
  repository does not have today;
- a network switch leaves a key without a reference exactly when it fails and
  does not remove its new key, or commits and cannot delete the old one
  (`Ownership.ApplyKeepsTidyIff`);
- forgetting a deleted profile leaves a settings row naming a key that is gone
  exactly when the row cannot be removed after its key
  (`Ownership.ForgettingKeepsTidyIff`, `Ownership.RowOutlivesKey`);
- a media file that no row shows outlives all intents that named it exactly when
  the last of them was dropped as retained or listed the file more than once
  (`Leftovers.LeftBehindIff`, `Leftovers.ListedTwiceStays`); a peer can make an
  intent list a file twice, since an attachment and a recording of the same
  content, if it is neither Opus nor Codec2, are both stored as `<hash>.bin`;
- an escaped byte of a message survives the Markdown projection exactly unless it
  is the `!` right before the opening bracket of a link
  (`MarkdownLayout.EscapedSurvivesIff`, `MarkdownLayout.EscapedBangGoes`).

One more condition is exact without being a failure of the program: an archive is
left on disk with nothing to answer for it exactly when a second wire image is
delivered under the transient id of an unfinished first one
(`Retention.StaysAnsweredIff`, `Retention.SecondImageStrays`). The tables do not
exclude that; whether two wire images can share a transient id is decided by
code outside the repository.

## Model

| member | source | states |
|---|---|---|
| `Runs.EffectsApplyOnce` | crates/ratspeak-db/src/admission.rs:401-506 | over every run of commits, deletions, game deletions, purges, uncertain commits and other writers, two commits of one message's effect are separated by the deletion of its identity |
| `Runs.KnownForever` | crates/ratspeak-db/src/admission.rs:425-471 | a message in effects or tombstones stays in one of them, a tombstone stays a tombstone, until its identity is deleted, whatever its receipts do |
| `Runs.DeletedNeverReturns` | crates/ratspeak-db/src/admission.rs:425-432 | after a user deletion every later admission of the message is refused or answered `UserDeleted` and changes no application row and no effect |
| `Runs.RunKeepsConsistent` | crates/ratspeak-db/src/admission.rs:472-487 | in every reachable state effects and tombstones are disjoint, every committed or duplicate receipt has a live effect with the same stored hash, and the receipt ledger is within 65,536 rows globally and 16,384 per identity |
| `Runs.StepKeepsKnown` | crates/ratspeak-db/src/admission.rs:430-471 | one transaction keeps a known message known, never rewrites a live effect and never lifts a tombstone |
| `Admission.TransactKeepsConsistent` | crates/ratspeak-db/src/admission.rs:472-506 | one admission keeps every table invariant, both ledger caps included |
| `Admission.RewrittenRowWasCounted` | crates/ratspeak-db/src/admission.rs:477-480 | the receipt that the cap check lets through uncounted because its row exists was already one of the counted ones |
| `Admission.OneMoreKeepsBounded` | crates/ratspeak-db/src/admission.rs:476-480 | a new counted receipt below both limits keeps both limits |
| `Admission.CommittedWasFresh` | crates/ratspeak-db/src/admission.rs:431-471 | `Committed` is answered exactly when the message had no effect and gets one; it then had no tombstone, no other effect changes, and other answers leave the effects alone |
| `Admission.ReusedTransientIdIsRefused` | crates/ratspeak-db/src/admission.rs:420-424 | a live transient id with another message id or wire hash is refused with no change, however the commit would end |
| `Admission.CrashConvergence` | crates/ratspeak-db/src/admission.rs:431-493 | after an uncertain commit, landed or lost, repeating the plan later ends in the effects, application rows and receipt of one certain commit, up to timestamps, Committed versus Duplicate, and expired receipts |
| `Admission.LandedRetryAccepted` | crates/ratspeak-db/src/admission.rs:433-451 | the repeat of a landed commit is accepted exactly when the retained files verify and the retained rows are visible, and is never answered Committed again: at any later time, except that a discarded or deleted message's repeat must come before its receipt expires |
| `Admission.LostRetryAccepted` | crates/ratspeak-db/src/admission.rs:420-481 | the repeat of a lost commit is accepted exactly when no conflicting row is live, an existing effect is intact, and a counted answer meets no full ledger |
| `Admission.AcceptedIsRecoverable` | crates/ratspeak-db/src/admission.rs:520-568 | an accepted receipt is handed back after a restart exactly until it expires |
| `Admission.RecoveredIff` | crates/ratspeak-db/src/admission.rs:520-568 | a restart hands back exactly the unexpired receipts whose message row or game action is still there; one of a discarded or deleted message needs no row |
| `Admission.Decide` | crates/ratspeak-db/src/admission.rs:425-471 | the branch on tombstone, retained effect and fresh application, with its error conditions |
| `Admission.Upsert` | crates/ratspeak-db/src/admission.rs:482-487 | inserting or refreshing the receipt under a transient id; a refresh keeps the message id and received hash |
| `Admission.Execute` | crates/ratspeak-db/src/admission.rs:415-491 | the transaction's statements compute the specified tables and ticket, or the specified error; what those tables hold, suppression rows included, is `Admission.AdmissionRecords` |
| `Admission.AdmissionRecords` | crates/ratspeak-db/src/admission.rs:401-506 | every table after an admission, in rows and fields: a suppression row goes exactly if it names the identity and the transient id, at any node; the other tables hold exactly the new effect, the application's rows and the receipt with its 90 days, or are as they were; the journal and the tombstones do not change |
| `Admission.RefusedIff` | crates/ratspeak-db/src/admission.rs:420-481 | refused exactly when the live row of the transient id is for another message or wire image, when retained files or rows are not intact or the application fails, or when a new counted receipt meets 65,536 counted rows or 16,384 of the identity; and with which error |
| `Store.DurableInboundStore.Commit` | crates/ratspeak-db/src/admission.rs:401-506 | given how the database's commit ends, exactly the specified tables and exactly the specified answer; a commit that lands removes the message's suppression rows and no others, purges the expired receipts or 256 of them, and records the rows of `Admission.AdmissionRecords`; every invariant is kept |
| `Deletion.DeletionErases` | crates/ratspeak-db/src/admission.rs:904-963 | every row of the identity that has the peer as source or destination, the thread, and a listed id, as far as these are asked for, goes; its receipts and effect go, its id gets a tombstone if it is 32 bytes in hexadecimal, and its archive and real media names are journalled |
| `Deletion.DeletionSpares` | crates/ratspeak-db/src/admission.rs:956-963 | exactly the other message rows are left, unchanged; so are effects and receipts whose id no such row spells; older tombstones keep their time, and the new ones are of spelled ids, at this time |
| `Deletion.DeleteScoped` | crates/ratspeak-db/src/admission.rs:863-998 | the whole deletion: exactly the specified refusals, exactly the specified tables, and exactly the selected media, archives and in-scope ids in the answer; which rows these are is stated by the five lemmas that follow |
| `Deletion.IdentityDeletion` | crates/ratspeak-db/src/admission.rs:820-998 | deleting an identity's messages removes exactly its rows with their reactions, its threads, and no hidden mark |
| `Deletion.ConversationDeletion` | crates/ratspeak-db/src/admission.rs:820-998 | deleting a conversation removes exactly the identity's rows from or to the peer, the peer's threads and its hidden mark |
| `Deletion.ThreadDeletion` | crates/ratspeak-db/src/admission.rs:831-998 | deleting a thread removes exactly the rows from or to the peer in that thread, and that thread; a hidden mark stays |
| `Deletion.SelectionDeletion` | crates/ratspeak-db/src/admission.rs:844-998 | deleting selected ids removes exactly the listed rows from or to the peer; threads and hidden marks stay |
| `Deletion.RefusedExactly` | crates/ratspeak-db/src/admission.rs:844-950 | refused, in this order: more than 500 ids; no identity; a listed row that is still being sent, by its direction, state and method; a row or archive whose names are too long |
| `Deletion.ForgetRow` | crates/ratspeak-db/src/admission.rs:915-948 | one selected row: tombstone, receipts, effect, and the file names collected for the journal |
| `Deletion.RowMedia` | crates/ratspeak-db/src/admission.rs:937-944 | exactly the non-empty names other than the placeholder |
| `Deletion.JournalAll` | crates/ratspeak-db/src/admission.rs:950-955 | journalling a list adds a fresh row for exactly the files that had none |
| `Deletion.ErasureKeepsConsistent` | crates/ratspeak-db/src/admission.rs:924-936 | revoking receipts and effects while leaving tombstones keeps every table invariant |
| `Deletion.DeleteGameSession` | crates/ratspeak-db/src/admission.rs:702-741 | only a finished game is deleted; its effects become tombstones, its archives are journalled and its rows go |
| `Deletion.GameDeletionFrame` | crates/ratspeak-db/src/admission.rs:723-737 | exactly the game's effects, actions, session and receipts go, its effects become tombstones and their archives are journalled; the effects of other games and every message row are unchanged |
| `Store.DurableInboundStore.Delete` | crates/ratspeak-db/src/admission.rs:863-998 | given how the commit ends: a refusal leaves the old tables and is the specified one, a certain commit answers what was deleted, an uncertain one leaves the old or the new tables as it landed or not; when it lands, exactly the rows with the asked identity, peer, thread and ids are gone and tombstoned, and every other row is unchanged; the answer names exactly their real files, their effects' archives and, for a selection, their ids, and the journal gains those files and no others |
| `Store.DurableInboundStore.DeleteGame` | crates/ratspeak-db/src/admission.rs:702-741 | `Ok(false)` exactly when the game's status is not one of the finished ones, each spelled out, and then nothing changes; otherwise the answer follows the fate of the commit |
| `Suppression.WriteBatch` | crates/ratspeak-db/src/admission.rs:664-699 | a batch of more than 256 entries, with a record beyond 512 bytes or with a key whose identity is not 32 characters is refused; otherwise expired rows may go, the named keys go and the last row of each key is stored; a full ledger is reported exactly when some row meets a cap; no other row changes, and all three caps hold afterwards |
| `Suppression.WrittenIs` | crates/ratspeak-db/src/admission.rs:686-695 | after a batch every key holds the last of its rows, and keys without a row hold what they held |
| `Suppression.OverflowIff` | crates/ratspeak-db/src/admission.rs:687-693 | a row meets a cap exactly when its key is new among the rows left and written so far, and these are 65,536, or 16,384 of the identity, or 4,096 of the node |
| `Suppression.InsertRows` | crates/ratspeak-db/src/admission.rs:686-695 | rows are written in order until one meets a cap, which is reported |
| `Suppression.RoomKeepsCapped` | crates/ratspeak-db/src/admission.rs:687-693 | a new row where the three counts have room keeps the 65,536, 16,384 and 4,096 caps |
| `Store.DurableInboundStore.WriteSuppression` | crates/ratspeak-db/src/admission.rs:664-699 | refused exactly when oversized, a full ledger only when some row really meets a cap, and otherwise the committed rows are the batch's unless the commit is lost, after all expired rows or 256 of them were purged; the caps hold either way |
| `Store.DurableInboundStore.ClearSuppression` | crates/ratspeak-db/src/admission.rs:618-637 | the loop of 256-row deletions ends; on success the table is the old one without the rows of the identity and node, other scopes are untouched throughout, and it fails only when a commit does |
| `Suppression.PassOutcome` | crates/ratspeak-runtime/src/inbound_admission.rs:175-221 | what a persisted pass leaves: other scopes lose only expired rows, and a complete pass stores exactly the ledger's unexpired records |
| `Suppression.EvolvedIsSynced` | crates/ratspeak-runtime/src/inbound_admission.rs:185-219 | a store from which the forgotten rows went and into which the ledger's rows came holds, at any later time, exactly the ledger's unexpired records |
| `Store.DurableInboundStore.PersistSuppression` | crates/ratspeak-runtime/src/inbound_admission.rs:175-221 | for every bound on the clock: other scopes and the ledger's own rows lose only rows expired by then; after Ok each record of the ledger unexpired by then is stored under its own key and decodes to itself, and every other row of the identity and node has expired; the pass fails only on a full ledger or an uncertain commit, and a ledger with room for old and new rows together is never full |
| `Store.DurableInboundStore.WriteInBatches` | crates/ratspeak-runtime/src/inbound_admission.rs:201-219 | gathering rows into batches of 256 and a last short one writes exactly the rows, or a prefix of them before an error; other rows go only when they have expired by the bound on the clock; no batch is oversized |
| `Store.DurableInboundStore.RemoveInBatches` | crates/ratspeak-runtime/src/inbound_admission.rs:198-200 | chunks of 256 deletions remove exactly the given rows of the scope, and of the others only expired ones; it fails only when a commit does |
| `Store.Missing` | crates/ratspeak-runtime/src/inbound_admission.rs:185-197 | the rows to remove are the loaded ones of the node that the ledger no longer holds |
| `Store.DurableInboundStore.LoadLedger` | crates/ratspeak-db/src/admission.rs:649-662 | loading is refused exactly when an identity has too many unexpired rows or one does not decode, and otherwise yields exactly those rows |
| `SuppressionCodec.DecodeInvertsEncode` | crates/ratspeak-runtime/src/inbound_admission.rs:56-135 | decoding the encoding of any valid record gives the record back |
| `SuppressionCodec.WireLayout` | crates/ratspeak-runtime/src/inbound_admission.rs:56-82 | the encoding is an array of thirteen values: version 1, the scope's three binary strings, the number of the reason as the source numbers it, four epochs, attempts and three times, in this order |
| `SuppressionCodec.DecodesIff` | crates/ratspeak-runtime/src/inbound_admission.rs:86-135 | bytes decode to a record exactly if they are at most 512, are one MessagePack array of the record's thirteen values and nothing more, and the record has 1 to 65,535 attempts, a retry not before its failure, and an expiry after the failure and within 2,592,000 seconds of it |
| `SuppressionCodec.EncodingFits` | crates/ratspeak-runtime/src/inbound_admission.rs:77-82 | every encoding takes at most 239 bytes, so the 512-byte check never fails |
| `SuppressionCodec.DecodedIsValid` | crates/ratspeak-runtime/src/inbound_admission.rs:127-134 | every decoded record has at least one attempt, a retry not before its failure, and an expiry after the failure and within 30 days of it |
| `MessagePack.UintRoundTrip` | crates/ratspeak-runtime/src/inbound_admission.rs:63-76 | the shortest MessagePack form of every unsigned 64-bit value reads back to the value |
| `MessagePack.ShortestForm` | crates/ratspeak-runtime/src/inbound_admission.rs:63-76 | each number is written in the shortest of the five unsigned forms, most significant byte first |
| `MessagePack.BinRoundTrip` | crates/ratspeak-runtime/src/inbound_admission.rs:64-71 | a MessagePack binary string reads back to its bytes |
| `Hex.DecodeInvertsEncode` | crates/ratspeak-db/src/admission.rs:917-918 | decoding the hexadecimal spelling of a message id gives the id |
| `Hex.DecodesIff` | crates/ratspeak-db/src/admission.rs:917-918 | exactly texts of an even number of digits, of either case, decode, to one byte for each two digits |
| `Hex.EncodesLower` | crates/ratspeak-runtime/src/inbound_admission.rs:538-542 | each byte is spelled by two lower-case digits, the high one first |
| `Reconcile.ReconcileIntents` | crates/ratspeak-runtime/src/inbound_admission.rs:766-860 | on every exit: only files of dropped orphans go, none that a database row or a spared intent names; a dropped orphan leaves its archive only to an intent that remains; a retained intent goes only after its files verified. With an obedient disk the pass ends well exactly when the intents are at most 4,096 and genuine and the retained ones of the window verify. It has then visited the cursor's window, kept only young orphans in it, and removed exactly the media whose last owner it dropped as an orphan that listed it once and that no row shows; in terms of rows and ages: of the 256 places from the cursor on exactly the intents go that an effect of the identity retains or that are 86,400 seconds old, and a removed archive belonged to such an old one |
| `Leftovers.LeftBehindIff` | crates/ratspeak-runtime/src/inbound_admission.rs:839-857 | a media file whose owners all went in one pass, and which no row shows, is left on disk exactly when the last of them was dropped as retained or listed it more than once |
| `Leftovers.ListedTwiceStays` | crates/ratspeak-runtime/src/inbound_admission.rs:879-950 | a concrete home: an old orphan whose attachment and recording have the same content and so the same name lists one file twice, and a pass removes its intent and its archive but not the file |
| `Reconcile.VisitIntent` | crates/ratspeak-runtime/src/inbound_admission.rs:806-857 | one intent: it succeeds only if a referenced archive verifies, and then, given the disk, always; a young orphan stays untouched, an old one goes after the archive and the media only it owned; no other file goes, and the owner counts match the intents that are left |
| `Reconcile.ClearMedia` | crates/ratspeak-runtime/src/inbound_admission.rs:839-846 | of an orphan's media exactly those go that the orphan lists once, that no other intent lists and that no row shows; when a removal fails, only some of them |
| `Reconcile.CountOwners` | crates/ratspeak-runtime/src/inbound_admission.rs:779-789 | the two count maps equal the occurrences among the listed intents |
| `Reconcile.Forget` | crates/ratspeak-runtime/src/inbound_admission.rs:849-857 | decrementing an intent's counts makes them those of the remaining intents |
| `Reconcile.SoleArchive` | crates/ratspeak-runtime/src/inbound_admission.rs:830-834 | a count of one means exactly that no other intent names the archive |
| `Reconcile.SoleMedia` | crates/ratspeak-runtime/src/inbound_admission.rs:839-842 | a listed name's count is one exactly when this intent lists it once and no other intent lists it |
| `Reconcile.WindowDistinct` | crates/ratspeak-runtime/src/inbound_admission.rs:800-805 | one window never visits an intent twice |
| `Reconcile.CursorReachesAll` | crates/ratspeak-runtime/src/inbound_admission.rs:315-316 | with an unchanged list, a cursor that advances by 256 a pass brings every place into a window within ceil(n/256) passes |
| `Reconcile.ListingUnique` | crates/ratspeak-runtime/src/inbound_admission.rs:505-521 | the same intents are always listed in the same order |
| `Reconcile.ListIntents` | crates/ratspeak-runtime/src/inbound_admission.rs:505-521 | the listing holds every intent once, sorted, and is refused exactly beyond 4,096 |
| `Disk.ArchivePathInjective` | crates/ratspeak-runtime/src/inbound_admission.rs:538-542 | different message and wire hashes name different archives |
| `Sweep.CleanupDeletedArtifacts` | crates/ratspeak-runtime/src/inbound_admission.rs:567-591 | with an obedient disk and certain commits, cleanup succeeds exactly when every journalled path of these identities, due or not, is acceptable and each identity with journal rows has at most 4,096 intents, all genuine; the completed rows are then exactly those whose file nothing names; on every exit each completed row's file is gone and each removed file was named by no intent, effect or message row of its identity; a file is named by an effect's archive, by a row's attachment, image or audio, or by an intent, and only a plain file directly in the identity's own directory is touched |
| `Sweep.TouchableIff` | crates/ratspeak-runtime/src/inbound_admission.rs:616-658 | cleanup accepts exactly paths of 32-digit identities that are the staging directory, one name without a slash and `.lxm`, or stored names of at most 1,024 letters, digits, dots, underscores, hyphens and spaces, not of dots and spaces only |
| `Sweep.OwnArchivesAreTouchable` | crates/ratspeak-runtime/src/inbound_admission.rs:538-542 | every archive path that staging makes for such an identity is accepted |
| `Sweep.CleanupIdentity` | crates/ratspeak-runtime/src/inbound_admission.rs:579-589 | the paging loop ends, covers each due row of the identity once, and succeeds exactly under those conditions for its identity |
| `Sweep.CleanupDeletedBatch` | crates/ratspeak-runtime/src/inbound_admission.rs:592-679 | one page: files first, journal rows after; it fails when a row of the page has an unacceptable path or its identity a bad or overfull intent directory, and otherwise only when disk or commit do; the returned cursor and count describe the page, and a short page is the last one |
| `Sweep.SweepPage` | crates/ratspeak-runtime/src/inbound_admission.rs:616-676 | success means that every row of the page was acceptable, and then, given the disk, follows; exactly the rows whose file nothing names are completed, with their files absent |
| `Sweep.SweepRow` | crates/ratspeak-runtime/src/inbound_admission.rs:639-674 | an unacceptable path stops the pass whether or not its file is named; a named file is skipped, anything else is removed |
| `Sweep.ProtectedNames` | crates/ratspeak-runtime/src/inbound_admission.rs:630-638 | the protected names are exactly those of the identity's intents, all of them genuine |
| `Sweep.PendingDeletedArtifacts` | crates/ratspeak-db/src/admission.rs:745-779 | a page lists, in id order, the first rows after the cursor that the filter selects |
| `Sweep.PageFacts` | crates/ratspeak-db/src/admission.rs:743-779 | a page's due rows are the due rows up to its last id, and after a short page none is left |
| `Maintenance.EveryDueRowIsCompleted` | crates/ratspeak-runtime/src/inbound_admission.rs:243-265 | the periodic cleanup, one unfiltered page behind a saved cursor that an empty page resets: wherever the cursor stood, after 2 * ceil(n / 256) + 1 passes over a journal of n rows every row that was due is completed, its file is gone and nothing is due |
| `Maintenance.StaysPossible` | crates/ratspeak-runtime/src/inbound_admission.rs:592-679 | what every row of the journal needs for its page to work still holds before each later pass |
| `Store.DurableInboundStore.CompleteDeletedArtifacts` | crates/ratspeak-db/src/admission.rs:782-803 | at most 256 positive ids; the journal loses exactly those or nothing |
| `Delivery.CommitMessage` | crates/ratspeak-runtime/src/inbound_admission.rs:1082-1226 | the tables change only once intent, archive and files are durable, the intent goes only once the archive is referenced, and another identity's files never change; a directory with 4,096 intents takes no new one; with a disk that obeys the tables are those of the transaction and so is the answer, except that a committed game whose session cannot be restored is answered with an error |
| `Delivery.Stage` | crates/ratspeak-runtime/src/inbound_admission.rs:1161-1183 | intent before archive before files: wherever a write fails, whatever landed is named by the intent, and no attachment lands before the archive |
| `Delivery.GenuineIff` | crates/ratspeak-runtime/src/inbound_admission.rs:532-565 | an intent read back is believed exactly if staging a plan of that identity and transient id, with its archive named by the hashes and at most two plainly named files, would have written it |
| `Retention.ArchivesAreRetained` | crates/ratspeak-runtime/src/inbound_admission.rs:592-860 | over every run of deliveries that stop anywhere, deletions, cleanups and orphan passes, the archive of every live effect is on disk |
| `Retention.StepRetains` | crates/ratspeak-runtime/src/inbound_admission.rs:639-674 | one step of any kind keeps the archive of every effect that lives after it |
| `Retention.AcknowledgedIsOnDisk` | crates/ratspeak-db/src/admission.rs:520-568 | a receipt that answers Committed or Duplicate has its effect, and the effect's archive is on disk |
| `Retention.ManifestIsRetained` | crates/ratspeak-runtime/src/inbound_admission.rs:592-860 | over every run, a file in the manifest of a message's effect is on disk from its commit for as long as the message row shows it |
| `Retention.ShownStays` | crates/ratspeak-runtime/src/inbound_admission.rs:639-674 | a file on disk that some message row shows at every moment of a stretch of a run is on disk at its end, short of the identity's deletion |
| `Retention.StaysAnsweredIff` | crates/ratspeak-runtime/src/inbound_admission.rs:1172-1183 | an effect, an intent or a journal row answers for every archive on disk, and a step breaks that exactly when a delivery overwrites the last intent of another archive under the same transient id |
| `Retention.NothingGoesAstray` | crates/ratspeak-runtime/src/inbound_admission.rs:592-860 | over every run without such an overwrite no archive of an identity that is not deleted is left on disk unaccounted for |
| `Retention.SecondImageStrays` | crates/ratspeak-runtime/src/inbound_admission.rs:1171-1176 | a concrete state in which a second wire image under one transient id orphans the archive of the first |
| `ReadyRing.FifoPerLink` | crates/ratspeak-runtime/src/hosted_propagation.rs:350-356 | over every run, what was dispatched for a link followed by what waits is what waited at the start followed by what was enqueued: dispatch is in enqueue order |
| `ReadyRing.RingOrder` | crates/ratspeak-runtime/src/hosted_propagation.rs:261-279 | as long as no more jobs start than links were ready, they serve those links in ring order, ahead of links that become ready meanwhile |
| `ReadyRing.OneTurnBetweenDispatches` | crates/ratspeak-runtime/src/hosted_propagation.rs:265-279 | between two dispatches of a link that stays non-empty every other link is served at most once |
| `ReadyRing.RunKeeps` | crates/ratspeak-runtime/src/hosted_propagation.rs:261-279 | in every run `ready` lists each link with a waiting job exactly once, and no other link |
| `Hosted.EveryRun` | crates/ratspeak-runtime/src/hosted_propagation.rs:242-358 | in every run at most four workers, every job in exactly one of queue, worker, pending and resolved, every resource permit accounted for, and every link's jobs started in queue order |
| `Hosted.NextKeeps` | crates/ratspeak-runtime/src/hosted_propagation.rs:260-357 | one event of any kind keeps all of that |
| `Hosted.DepartInOrder` | crates/ratspeak-runtime/src/hosted_propagation.rs:350-356 | the log of departures of a link is a prefix of its log of arrivals, and the rest is its queue |
| `Hosted.AllResolved` | crates/ratspeak-runtime/src/hosted_propagation.rs:293-295 | a stopped loop without workers or pending jobs has resolved every job and returned every lease |
| `Hosted.ResolvedIff` | crates/ratspeak-runtime/src/hosted_propagation.rs:283-358 | an event resolves a job exactly if its worker ends with an outcome other than waiting, or ends after the stop; if its wait fails; or if the stop finds it in a queue or, on shutdown, pending |
| `Hosted.PendingIff` | crates/ratspeak-runtime/src/hosted_propagation.rs:296-325 | a job is pending after an event exactly if its worker ended waiting, or it was pending and the event was neither the end of its wait nor the shutdown |
| `Hosted.WorkersIff` | crates/ratspeak-runtime/src/hosted_propagation.rs:261-282 | a job runs after an event exactly if it was foremost while fewer than four ran, or it ran and did not end |
| `Hosted.QueueAfter` | crates/ratspeak-runtime/src/hosted_propagation.rs:242-358 | what each event makes of each link's queue: arrivals, completed transfers and resumed jobs join at the back, a start takes the head of the first ready link, the stop empties it, and nothing else changes it |
| `Hosted.StaysPending` | crates/ratspeak-runtime/src/hosted_propagation.rs:296-325 | over every run a pending job stays so until its own wait ends or the host shuts down |
| `Hosted.WhyResolved` | crates/ratspeak-runtime/src/hosted_propagation.rs:283-358 | over every run a resolved job was resolved by an outcome other than waiting, a failed wait or the stop |
| `Hosted.ResumesAtBack` | crates/ratspeak-runtime/src/hosted_propagation.rs:311-325 | a resumed job is the last of its link's queue, the link is ready, and no permit moves |
| `Hosted.Host.Dispatch` | crates/ratspeak-runtime/src/hosted_propagation.rs:261-292 | given how many worker permits are to be had, the loop starts ring heads until that many have started, four workers are busy or nothing is ready, and never more |
| `Hosted.Host.StartNext` | crates/ratspeak-runtime/src/hosted_propagation.rs:265-281 | the head of the ring starts; its link goes to the back when more of its jobs wait, and a link without a queue is passed over |
| `Hosted.Host.Enqueue` | crates/ratspeak-runtime/src/hosted_propagation.rs:350-356 | a job joins its link's queue, and the link joins the ring if it was idle |
| `Hosted.Host.Accept` | crates/ratspeak-runtime/src/hosted_propagation.rs:39-72 | a link keeps the advertisement it started with; a new one needs hosting, a bounded size and a permit |
| `Hosted.Host.ResourceCompleted` | crates/ratspeak-runtime/src/hosted_propagation.rs:338-341 | a completed transfer takes its owner's permit into the job, and is ignored without one |
| `Hosted.Host.LinkClosed` | crates/ratspeak-runtime/src/hosted_propagation.rs:342-345 | a closed link or failed transfer returns exactly its own permit |
| `Hosted.Host.FinishWorker` | crates/ratspeak-runtime/src/hosted_propagation.rs:299-321 | the worker's place is free; a job that waits for another writer while the host runs becomes pending, unresolved, with its permit; every other one is resolved and gives its permit back; an answer goes out exactly to a job that wants a proof, while the host serves and runs, for a known outcome, and is a proof exactly when the batch was stored |
| `Relay.ProofsFollowStorage` | crates/ratspeak-runtime/src/hosted_propagation.rs:242-331 | over every run of the loop together with any number of interleaved deposits, the jobs proved so far are resolved, asked for a proof and had every message of their batch durably written and published, and none is proved twice |
| `Relay.ProvedIsDurable` | crates/ratspeak-runtime/src/hosted_propagation.rs:182-331 | each message of each job that was ever proved has been written and published by then |
| `Hosted.Host.FinishPending` | crates/ratspeak-runtime/src/hosted_propagation.rs:322-331 | a job whose other writer committed goes to the back of its link's queue, any other one is resolved and gives its permit back |
| `Hosted.Host.Stop` | crates/ratspeak-runtime/src/hosted_propagation.rs:298-335 | shutdown drops what waits, what is pending and every owner; a closed channel only what waits |
| `Hosted.Host.Leave` | crates/ratspeak-runtime/src/hosted_propagation.rs:293-295 | the loop's end resolves every job and returns every job's permit |
| `Deposit.Execute` | crates/ratspeak-runtime/src/hosted_propagation.rs:182-238 | given what the node, the disk and verification answer for each message: `Stored` exactly when every message's stored copy verifies or the message is admitted, written and published by this deposit; otherwise what is stored is the batch up to the first message that somebody else is writing (then the deposit waits) or that fails (then it is unavailable); one bad stamp leaves the node untouched; only a failed publication leaves a reservation behind |
| `Deposit.StoreOne` | crates/ratspeak-runtime/src/hosted_propagation.rs:201-236 | for one message, exactly when it is stored, waits or fails, and what the node then holds: a stored copy counts only once it verifies, and a failed write takes the reservation back |
| `DepositRuns.EveryRun` | crates/ratspeak-runtime/src/hosted_propagation.rs:199-238 | over every interleaving of any number of deposits and purges no message is written by two workers, a batch reported stored was published whole, and a reservation without a writer is one that a failed publication left |
| `DepositRuns.NothingStaysReserved` | crates/ratspeak-runtime/src/hosted_propagation.rs:216-235 | once all deposits have ended only failed publications hold reservations |
| `DepositRuns.StoredMeansPublished` | crates/ratspeak-runtime/src/hosted_propagation.rs:182-238 | a deposit reported stored had every one of its messages written and then published, whatever others did meanwhile |
| `DepositRuns.EveryMessageIsPassed` | crates/ratspeak-runtime/src/hosted_propagation.rs:199-238 | over every run a worker gets past a message only by a verified stored copy or by its own publication |
| `DepositRuns.StoredMeansPassed` | crates/ratspeak-runtime/src/hosted_propagation.rs:182-238 | behind a deposit reported stored the worker verified or published every single message |
| `DepositRuns.HistoryIs` | crates/ratspeak-runtime/src/hosted_propagation.rs:199-238 | over every run a message is written exactly if some write of it was durable, published exactly if some publication of it landed, and its reservation abandoned exactly if one failed |
| `DepositRuns.UndisturbedOutcome` | crates/ratspeak-runtime/src/hosted_propagation.rs:182-238 | a worker that nobody disturbs ends as the deposit under one lock does: the whole batch stored, unless somebody else holds a message of it that is not stored |
| `Announce.MergeIsJoin` | crates/ratspeak-runtime/src/announce.rs:61-82 | merging revisions is the least upper bound of the order `newer identity or covering`, so it is commutative, associative and idempotent |
| `Announce.AbsorbedIntentSurvives` | crates/ratspeak-runtime/src/announce.rs:167-192 | an intent absorbed by the burst in flight is covered by `recent` when that burst succeeds; when it fails and the trigger is one-shot, the promoted burst carries it |
| `Announce.DeferredIntentLeads` | crates/ratspeak-runtime/src/announce.rs:194-208 | a deferred id is the id of the next promoted burst, which carries the intent |
| `Announce.FollowUpKept` | crates/ratspeak-runtime/src/announce.rs:194-208 | until it is promoted the follow-up keeps its id and everything it carries |
| `Announce.AdmitsKeep` | crates/ratspeak-runtime/src/announce.rs:125-133 | admits never change the revisions in flight, and what waits only grows |
| `Announce.TwoFinishesEmpty` | crates/ratspeak-runtime/src/announce.rs:243-274 | with nothing further admitted two finishes empty the coordinator |
| `Announce.FailedFinishPromotesIff` | crates/ratspeak-runtime/src/announce.rs:249-272 | a failed finish hands a waiting one-shot intent on exactly when it names the burst in flight |
| `Announce.EveryIntentIsCarried` | crates/ratspeak-runtime/src/announce.rs:125-274 | over every run whose finishes name the burst in flight, an admitted intent stays aboard some burst until a burst that carries it succeeds or fails, unless a recent success covered it when it came |
| `Announce.EmptyMeansCarried` | crates/ratspeak-runtime/src/announce.rs:243-274 | once the coordinator is empty, every intent of such a run was aboard a burst that succeeded or failed, or already covered when it came |
| `Announce.StaleFinishLosesIntent` | crates/ratspeak-runtime/src/announce.rs:249-252 | a concrete run in which a finish for another id drops the burst in flight and a one-shot intent is then lost uncovered; it takes a second finisher, while the one caller of `finish` names only the id it leads (crates/ratspeak-runtime/src/lib.rs:3806-3880) |
| `Announce.IdsAreFresh` | crates/ratspeak-runtime/src/announce.rs:153-165 | until the counter wraps, the id of any burst that an event creates, leading, deferred or kept for a retry, is nobody else's in the coordinator |
| `Announce.AnswersExactly` | crates/ratspeak-runtime/src/announce.rs:167-231 | the answer to every intent and every slot after it: covered by the burst in flight it is already queued, and a one-shot trigger is kept for a retry as well; otherwise deferred while a burst is in flight; with nothing in flight it leads, unless a recent success covers it and lies less than 5 seconds back or the trigger is an interface coming up |
| `Announce.ConcludesExactly` | crates/ratspeak-runtime/src/announce.rs:243-274 | what each finish promotes and remembers: the follow-up on success, follow-up and retry together on failure, nothing for another id |
| `Announce.RecentIsLastSuccess` | crates/ratspeak-runtime/src/announce.rs:243-274 | over every run the recent success is that of the last finish that succeeded for the burst in flight, with its revisions and time |
| `Announce.LeadsAfterWindow` | crates/ratspeak-runtime/src/announce.rs:210-231 | over every run, with nothing in flight, an intent that is not an interface coming up leads once every success lies 5 seconds back |
| `Announce.RepeatsWithinWindow` | crates/ratspeak-runtime/src/announce.rs:210-231 | over every run, with nothing in flight, an intent covered by the last success is answered with its id and changes nothing, within 5 seconds or for an interface coming up |
| `Announce.IdsAreNotZero` | crates/ratspeak-runtime/src/announce.rs:153-165 | no burst of any run has the id zero |
| `Announce.Coordinator.Admit` | crates/ratspeak-runtime/src/announce.rs:167-231 | the admit branches on the burst in flight, the follow-up and the recent success; the answer and the new slots are those of `Announce.AnswersExactly` |
| `Announce.Coordinator.Finish` | crates/ratspeak-runtime/src/announce.rs:243-274 | the finish branches, with `take` before the id filter; the promoted burst and the new slots are those of `Announce.ConcludesExactly` |
| `MarkdownProvenance.Provenance` | crates/ratspeak-runtime/src/markdown_plain.rs:105-271 | the projection is made of whole `[Spoiler]` markers, one per span the scanner hid, and input bytes at strictly increasing positions, none inside such a span; every hidden span runs from an opening to a closing mark |
| `MarkdownProvenance.EveryHideIsListed` | crates/ratspeak-runtime/src/markdown_plain.rs:178-204 | wherever the scanner decides to skip a spoiler, the span it jumps over is one of the hidden spans |
| `MarkdownProvenance.EveryListedIsDecided` | crates/ratspeak-runtime/src/markdown_plain.rs:178-204 | every hidden span was decided at its first byte by a step of the scan |
| `MarkdownSecrecy.SpoilersStaySecret` | crates/ratspeak-runtime/src/markdown_plain.rs:105-271 | changing the text inside the hidden spoilers, in any number of them at once, without adding or removing a backslash, backtick, closing parenthesis, pipe, `!` or `<`, leaves the projection unchanged |
| `MarkdownSecrecy.StepsSame` | crates/ratspeak-runtime/src/markdown_plain.rs:154-254 | a step depends only on the tables, on its neighbouring bytes, and on what it passes unless it hides that |
| `MarkdownSecrecy.SpanIsApart` | crates/ratspeak-runtime/src/markdown_plain.rs:154-254 | every hidden span is behind the scanner, hidden by the step at hand, or wholly ahead of it |
| `MarkdownSecrecy.DelimitersMatter` | crates/ratspeak-runtime/src/markdown_plain.rs:178-189 | a pipe put inside a spoiler changes the projection, so delimiters have to be excepted |
| `MarkdownUtf8.ProjectsValidUtf8` | crates/ratspeak-runtime/src/markdown_plain.rs:105-270 | the projection of valid UTF-8 is valid UTF-8, so the lossy conversion at the end replaces nothing |
| `MarkdownUtf8.DecidesClean` | crates/ratspeak-runtime/src/markdown_plain.rs:154-254 | every slice and every jump of the scanner is cut at character boundaries |
| `MarkdownScanner.PushInline` | crates/ratspeak-runtime/src/markdown_plain.rs:105-271 | tables, monotone cursors, deletion stack and final filter compute exactly the projection, which `MarkdownLayout.TheProjection` defines by the bytes of the text; the steps and cursor moves on the way are those that `Work` counts |
| `MarkdownLayout.TheProjection` | crates/ratspeak-runtime/src/markdown_plain.rs:105-271 | which bytes survive, over the text alone: for its layout into code spans, hidden spoilers and link targets the projection is the surviving bytes in order, with one marker for each hidden spoiler. An escaping backslash goes and what it escapes stays; code shows its trimmed inside; of emphasis runs only those between word characters (`_`) or blanks (`*`) stay; doubled tildes and unpaired doubled pipes go; brackets and bangs of links go; every other byte outside spoilers and link targets stays |
| `MarkdownLayout.OneLayout` | crates/ratspeak-runtime/src/markdown_plain.rs:105-271 | a text has only one layout |
| `MarkdownRendering.ProjectionIsRendering` | crates/ratspeak-runtime/src/markdown_plain.rs:105-271 | every text has a layout, and the scanner's projection is the rendering of it |
| `MarkdownLayout.EscapedSurvivesIff` | crates/ratspeak-runtime/src/markdown_plain.rs:155-161 | an escaped byte survives exactly unless it is the bang right before the opening bracket of a link |
| `MarkdownLayout.EscapedBangGoes` | crates/ratspeak-runtime/src/markdown_plain.rs:222-248 | a concrete text: `\![a](b)` is projected to `a` |
| `MarkdownRegions.RunsListed` | crates/ratspeak-runtime/src/markdown_plain.rs:109-124 | the listed backtick runs are exactly the maximal unescaped ones |
| `MarkdownRegions.PairsFound` | crates/ratspeak-runtime/src/markdown_plain.rs:91-103 | the listed positions of a doubled byte are exactly those an even number of places into their run |
| `MarkdownReference.CodeIsPaired` | crates/ratspeak-runtime/src/markdown_plain.rs:162-177 | a backtick run opens code exactly when a later run has its length, and then closes at the nearest one |
| `MarkdownReference.PipeIs` | crates/ratspeak-runtime/src/markdown_plain.rs:178-189 | a doubled pipe hides exactly when it is counted and another one comes later, up to the nearest one |
| `MarkdownScanner.WorkIsLinear` | crates/ratspeak-runtime/src/markdown_plain.rs:150-254 | one pass takes at most four steps and cursor moves for every byte of the text |
| `MarkdownScanner.MovesForward` | crates/ratspeak-runtime/src/markdown_plain.rs:163-193 | no cursor ever moves back |
| `MarkdownScanner.ChooseCode` | crates/ratspeak-runtime/src/markdown_plain.rs:162-177 | the run cursor and the close table find what a search from the front finds |
| `MarkdownScanner.DropDeleted` | crates/ratspeak-runtime/src/markdown_plain.rs:255-270 | walking the buffer beside the sorted indices drops exactly the stacked ones |
| `Markdown.DecidesInBounds` | crates/ratspeak-runtime/src/markdown_plain.rs:154-254 | every step reads inside the input and moves forward |
| `Markdown.NearestClose` | crates/ratspeak-runtime/src/markdown_plain.rs:190-204 | an inline `>!` spoiler ends at the nearest `!<`, and stays literal exactly when there is none |
| `MarkdownProvenance.StepStacks` | crates/ratspeak-runtime/src/markdown_plain.rs:222-248 | bracket and bang indices on the stack and in the deletion list are distinct, ascending on the stack, and always name an opening bracket of the input or a bang right before one |
| `MarkdownTables.ScanRuns` | crates/ratspeak-runtime/src/markdown_plain.rs:109-124 | the backtick runs, with a backslash hiding the byte after it |
| `MarkdownTables.RunsAreApart` | crates/ratspeak-runtime/src/markdown_plain.rs:109-124 | runs are maximal: in order, in bounds, all backticks and never adjacent |
| `MarkdownTables.CloseTable` | crates/ratspeak-runtime/src/markdown_plain.rs:125-129 | one pass from the back gives each run the nearest later run of its length |
| `MarkdownTables.NearestOfLength` | crates/ratspeak-runtime/src/markdown_plain.rs:125-129 | that run has the length, and no run before it does |
| `MarkdownTables.ParenTable` | crates/ratspeak-runtime/src/markdown_plain.rs:130-137 | the table of next closing parentheses equals the nearest one at or after each position |
| `MarkdownTables.FindPositions` | crates/ratspeak-runtime/src/markdown_plain.rs:91-103 | the greedy, non-overlapping occurrences of a marker |
| `MarkdownTables.EveryOccurrenceFound` | crates/ratspeak-runtime/src/markdown_plain.rs:91-103 | for a marker of two different bytes no occurrence is missed |
| `MarkdownTables.Advance` | crates/ratspeak-runtime/src/markdown_plain.rs:163-193 | a cursor that only moves forward finds what a search from the front finds |
| `Utf8.SplitAt` | crates/ratspeak-runtime/src/markdown_plain.rs:168-171 | valid UTF-8 cut between characters is valid on both sides |
| `Utf8.TrimStartOnBoundary` | crates/ratspeak-runtime/src/markdown_plain.rs:168-171 | trimming Unicode white space from the front removes whole characters |
| `Utf8.TrimEndOnBoundary` | crates/ratspeak-runtime/src/markdown_plain.rs:168-171 | trimming from the back cuts between characters |
| `Utf8Scalars.CharacterIff` | crates/ratspeak-runtime/src/markdown_plain.rs:168-171 | the byte strings taken as one character are exactly the shortest spellings of the scalar values, in the bit layout of section 3 of RFC 3629 |
| `Utf8Scalars.ValidIff` | crates/ratspeak-runtime/src/markdown_plain.rs:168-171 | text is valid exactly when it is empty or a spelled scalar value in front of valid text |
| `Utf8Scalars.WhiteSpaceIff` | crates/ratspeak-runtime/src/markdown_plain.rs:168-171 | the characters trimmed are exactly the 25 code points with the Unicode property White_Space |
| `Utf8Scalars.TrimStartIs` | crates/ratspeak-runtime/src/markdown_plain.rs:11-11 | trimming from the front takes white space only, and leaves none in front |
| `Utf8Scalars.TrimEndIs` | crates/ratspeak-runtime/src/markdown_plain.rs:168-171 | trimming from the back takes white space only, and leaves none at the back |
| `MarkdownLines.TextIsValidUtf8` | crates/ratspeak-runtime/src/markdown_plain.rs:6-66 | the whole notification text of valid UTF-8 input is valid UTF-8: lines, trimming, markers and bullets included |
| `MarkdownLines.SpoilerLinesRevealNothing` | crates/ratspeak-runtime/src/markdown_plain.rs:30-36 | outside a fence, replacing one block-spoiler line by any other leaves the whole text unchanged |
| `MarkdownLines.OneMarkerPerBlock` | crates/ratspeak-runtime/src/markdown_plain.rs:30-36 | a block of spoiler lines becomes one marker, however long it is |
| `MarkdownLines.MarkdownToPlainText` | crates/ratspeak-runtime/src/markdown_plain.rs:6-66 | the loop over lines with its fence and spoiler flags computes the specified text |
| `MarkdownText.EveryLineBecomes` | crates/ratspeak-runtime/src/markdown_plain.rs:10-64 | what every line of a message does, in its bytes: inside a fence it is copied whole unless it begins with the fence's three marks; outside, three backticks or tildes open a fence, `>!` without `!<` leaves one marker for a block, a rule leaves nothing, and any other line is added flattened |
| `MarkdownText.PlainIs` | crates/ratspeak-runtime/src/markdown_plain.rs:41-63 | flattening a line: each quote mark that opens no inline spoiler goes with the white space behind it, then one to six hashes before white space or the end go with the white space around the words, then `- `, `* ` or `+ ` becomes a bullet, then the rest is projected |
| `MarkdownText.LinesAreWoven` | crates/ratspeak-runtime/src/markdown_plain.rs:10-10 | the lines with their line feeds and carriage returns are the text; no line holds a line feed, and none loses more than one carriage return |
| `MarkdownText.BreakIff` | crates/ratspeak-runtime/src/markdown_plain.rs:75-89 | a rule is a line with at least three of one of `-`, `*` and `_` and otherwise only spaces and tabs |
| `MarkdownLines.IsThematicBreak` | crates/ratspeak-runtime/src/markdown_plain.rs:75-89 | true exactly for at least three of one rule character among spaces and tabs |
| `MarkdownLines.PlainLine` | crates/ratspeak-runtime/src/markdown_plain.rs:41-63 | quote marks, heading hashes and list bullets are taken off in that order, then the inline projection is appended |
| `NetworkWorker.EveryRun` | src-tauri/src/mobile_native.rs:822-938 | in every interleaving at most one worker owns the flag, sequences are accepted once and rising, and each accepted transition is in at most one place and applied at most once |
| `NetworkWorker.StaysAttendedIff` | src-tauri/src/mobile_native.rs:883-934 | given one owner and an attended slot, a step leaves a value waiting for the installed state unattended exactly when a callback that saw no state, or a worker that put its value back, leaves one behind and no other thread will look |
| `NetworkWorker.AttendedThroughoutIff` | src-tauri/src/mobile_native.rs:834-934 | a value waiting for an installed state is attended at every moment of a run exactly when no step of the run strands one; an ordinary start, whose callback came before the installation, is such a run |
| `NetworkWorker.QuietMeansDelivered` | src-tauri/src/mobile_native.rs:883-910 | when every thread has returned and no step stranded a value, nothing waits for an installed state |
| `NetworkWorker.NextKeepsOneOwner` | src-tauri/src/mobile_native.rs:883-917 | the running flag is set exactly while one worker owns it |
| `NetworkWorker.NextKeepsCounted` | src-tauri/src/mobile_native.rs:869-881 | the exchange loop, spurious failures included, accepts strictly rising sequences |
| `NetworkWorker.EverySubmissionCounts` | src-tauri/src/mobile_native.rs:869-881 | over every run the counter has reached each submitted sequence once its callback has got past it, so the newest one submitted is accepted |
| `NetworkWorker.OnlySubmissionsCount` | src-tauri/src/mobile_native.rs:869-881 | over every run only submitted sequences are accepted |
| `NetworkWorker.NextKeepsUnique` | src-tauri/src/mobile_native.rs:832-934 | no transition is held twice, waits while held, or is applied twice |
| `NetworkWorker.LateCallbackStrands` | src-tauri/src/mobile_native.rs:834-850 | a concrete run: a callback that looks for the state just before it is installed strands its transition |
| `NetworkWorker.AppliesOutOfOrder` | src-tauri/src/mobile_native.rs:834-850 | a concrete run: transitions accepted in order are applied out of order |
| `NetworkWorker.PutBackLosesNewer` | src-tauri/src/mobile_native.rs:912-918 | a concrete run: a value put back replaces a newer one, which is then nowhere |
| `NetworkOrder.StaysInOrderIff` | src-tauri/src/mobile_native.rs:834-846 | applied values rise, and what a worker took and what waits come after them, as long as no delayed offer takes the slot when something newer has already left it; that step, and no other, breaks the order |
| `NetworkOrder.AppliedInOrderIff` | src-tauri/src/mobile_native.rs:834-934 | a run applies transitions in order exactly when it applies none that took the slot late |
| `NetworkOrder.LateAreDoomed` | src-tauri/src/mobile_native.rs:834-934 | a value that took the slot late is applied out of order or never |
| `NetworkOrder.StaysPresentIff` | src-tauri/src/mobile_native.rs:834-934 | a step loses an accepted value exactly when the slot drops it, and a lost value never comes back |
| `NetworkOrder.EveryValueIsAccountedFor` | src-tauri/src/mobile_native.rs:834-934 | over every run an accepted value is held, waiting or applied exactly unless the slot dropped it |
| `NetworkOrder.WhyDiscarded` | src-tauri/src/mobile_native.rs:836-846 | every dropped value made way for a newer one, or was overwritten by a put-back |
| `NetworkOrder.DropsNewerIff` | src-tauri/src/mobile_native.rs:912-918 | of two values that meet at the slot the older is dropped, except exactly by a put-back onto a newer one |
| `NetworkOrder.StaysNewestIff` | src-tauri/src/mobile_native.rs:912-918 | the newest accepted transition is lost exactly when a put-back lands on it |
| `NetworkOrder.NewestIsApplied` | src-tauri/src/mobile_native.rs:822-938 | a hand-off that has come to rest with the state installed has applied the newest accepted transition, if nothing was stranded and no put-back landed on a newer value; and has applied it last, if no late one was applied |
| `Presentation.AckIsCurrent` | src-tauri/src/channel_deep_link.rs:194-233 | an acknowledgment made of a peek's tokens is accepted only if that delivery has been pending ever since under the same Activity, WebView-ready, runtime up and not exiting throughout, and resumed at both moments |
| `Presentation.AckedOnce` | src-tauri/src/channel_deep_link.rs:130-142 | an acknowledged token is never accepted again |
| `Presentation.PeekedIff` | src-tauri/src/channel_deep_link.rs:113-128 | a peek delivers the pending share, with the decimal tokens of its revision and of the Activity's generation, exactly while a resumed, WebView-ready Activity presents |
| `Presentation.AckTakesIff` | src-tauri/src/channel_deep_link.rs:194-233 | an acknowledgment clears the share exactly if it repeats both tokens that a peek would deliver now, and otherwise changes nothing |
| `Presentation.RevisionsNeverRepeat` | src-tauri/src/channel_deep_link.rs:100-104 | two different shares never carry the same revision |
| `Presentation.GenerationsNeverRepeat` | src-tauri/src/android_lifecycle.rs:68-81 | an Activity that has gone never comes back under its generation |
| `Presentation.RestoreOncePerRequest` | src-tauri/src/android_lifecycle.rs:123-145 | over every run at most one restore begins per granted request |
| `Presentation.RestoreIsForCurrent` | src-tauri/src/android_lifecycle.rs:135-145 | a restore begins only for the current Activity, with no window, runtime up and not exiting |
| `Presentation.ExitIsFinal` | src-tauri/src/android_lifecycle.rs:68-156 | after exit nothing attaches, presents, restores or is acknowledged, and no new Activity appears |
| `Presentation.EveryState` | src-tauri/src/android_lifecycle.rs:34-157 | of two states of a run the later one brings nothing old back, neither Activity nor share |
| `Presentation.PresentsIff` | src-tauri/src/android_lifecycle.rs:34-122 | over every run: something presents exactly when the runtime came up, no exit happened, and some Activity attached, was neither replaced nor detached, was resumed by its last word, and had its WebView ready |
| `Presentation.RequestIsKept` | src-tauri/src/android_lifecycle.rs:123-145 | a granted restore request is honoured until it is taken, its Activity goes or is replaced, or the program exits |
| `Lifecycle.NativeLifecycle.PresentationOwner` | src-tauri/src/android_lifecycle.rs:34-49 | the presenting generation is returned exactly when resumed, WebView-ready, runtime up, not exiting and as expected |
| `Lifecycle.NativeLifecycle.Attach` | src-tauri/src/android_lifecycle.rs:68-81 | attaching needs a larger generation than every earlier one and no exit |
| `Lifecycle.NativeLifecycle.BeginRestore` | src-tauri/src/android_lifecycle.rs:135-145 | a restore consumes its request whether or not it may begin |
| `Inbox.ChannelShareInbox.AcceptPayloads` | src-tauri/src/channel_deep_link.rs:68-111 | the newest accepted payload becomes pending under a new revision; a repeated target is coalesced and at exhaustion the current share is kept |
| `Inbox.NewestIsLast` | src-tauri/src/channel_deep_link.rs:68-90 | the payload taken is the last that the parser accepts |
| `Inbox.ChannelShareInbox.Acknowledge` | src-tauri/src/channel_deep_link.rs:130-141 | the pending share is cleared exactly when its decimal token is repeated |
| `Decimal.ToStringInjective` | src-tauri/src/channel_deep_link.rs:130-141 | two numbers with the same decimal token are equal |
| `Decimal.TokenIff` | src-tauri/src/channel_deep_link.rs:123-141 | the token of a number is the one decimal numeral without a leading zero that has its value |
| `Ownership.OutcomeIsSafe` | crates/ratspeak-runtime/src/network_ownership.rs:499-648 | whatever fails, no committed selection loses its key, an error keeps every committed selection, and only this profile's selection can change |
| `Ownership.OutcomeMeans` | crates/ratspeak-runtime/src/network_ownership.rs:394-648 | when a call succeeds, in terms of its request and the answers of the world; the committed selection then has the asked mode, sharing, endpoint and key; a failed call changes no selection; and which keys are left in the store either way |
| `Ownership.FaultIs` | crates/ratspeak-runtime/src/network_ownership.rs:394-648 | which fault each failing call reports: refused, unreachable, a key not stored, a failed shutdown, a failed start, a failed commit or a cancellation, each exactly when |
| `Ownership.StaysBehindIff` | crates/ratspeak-runtime/src/network_ownership.rs:518-648 | a failed call leaves its new key exactly when it got as far as writing it and the store does not delete, or the call is cancelled before the removal |
| `Ownership.LocksIff` | crates/ratspeak-runtime/src/network_ownership.rs:539-633 | hardware is locked exactly when the stack went down and neither the new nor the old one came up |
| `Ownership.ApplyKeepsTidyIff` | crates/ratspeak-runtime/src/network_ownership.rs:499-648 | the stored keys stay exactly those the committed selections name, unless the call fails and leaves its new key, or commits and cannot delete the replaced one; in those cases they do not |
| `Ownership.DeletionsKeepTidy` | crates/ratspeak-runtime/src/network_ownership.rs:518-642 | when the store deletes what it is asked to, only a cancelled call that had staged a key leaves one behind |
| `Ownership.CommitKeepsTidyIff` | crates/ratspeak-runtime/src/network_ownership.rs:518-642 | a commit keeps references and keys in step exactly when the replaced key, if there is one, is deleted |
| `Ownership.NetworkOwner.Apply` | crates/ratspeak-runtime/src/network_ownership.rs:499-648 | given how the world answers, exactly the specified verdict, selections, keys and hardware lock; every exit, cancelled ones included, leaves no proposed selection and no retained identity |
| `Ownership.NetworkOwner.TearDownAndStart` | crates/ratspeak-runtime/src/network_ownership.rs:539-633 | from arming the guard to disarming it: committed settings change last and only on success, the staged key is removed on every failing path that is not cancelled before the removal, and a hardware identity is locked exactly when no stack was brought back |
| `Ownership.NetworkOwner.RollBack` | crates/ratspeak-runtime/src/network_ownership.rs:578-621 | a failed trial restores the selection, drops the retained identity, locks hardware exactly when nothing could be restored and removes the staged key exactly when the store allows and the call is not cancelled first |
| `Ownership.NetworkOwner.DropGuard` | crates/ratspeak-runtime/src/network_ownership.rs:96-123 | an unwound transition drops the proposal and the identity, locking hardware |
| `Ownership.NetworkOwner.Stage` | crates/ratspeak-runtime/src/network_ownership.rs:518-537 | succeeds exactly when the key can be written and read back; a key that cannot be read back is removed again when the store allows |
| `Ownership.NetworkOwner.Prepare` | crates/ratspeak-runtime/src/network_ownership.rs:394-439 | refused exactly for a malformed key, a managed stack with a key, a client that shares, lacks an endpoint or lacks a readable key, and then for an unreachable endpoint; otherwise the selection keeps no endpoint and no credential when managed and its own stored key when none is supplied |
| `Ownership.ForgettingKeepsTidyIff` | crates/ratspeak-runtime/src/network_ownership.rs:709-728 | after a profile's key has been deleted, references and keys stay in step exactly when its settings row goes too or it had no key |
| `Ownership.NetworkOwner.ForgetDeletedProfile` | crates/ratspeak-runtime/src/network_ownership.rs:709-728 | exactly the specified answer and state; references and keys stay in step exactly unless the key was deleted and its settings row then could not be |
| `Ownership.RowOutlivesKey` | crates/ratspeak-runtime/src/network_ownership.rs:714-724 | a concrete vault in which the settings row outlives the key it names |
| `Gif.ScanAgreesWithGrammar` | crates/ratspeak-runtime/src/image_attachment.rs:522-577 | on every serialised stream the scan is true exactly when at least two image blocks precede the trailer |
| `Gif.TableIs` | crates/ratspeak-runtime/src/image_attachment.rs:522-566 | a packed byte with the table flag announces a colour table of 3 * 2^(size + 1) bytes for its size field, and one without it none |
| `Gif.HasMultipleFrames` | crates/ratspeak-runtime/src/image_attachment.rs:522-566 | the seeking loop computes the specified verdict for every byte string, and ends; data too short for a signature is truncated, and data with another one is still |
| `Gif.SkipSubBlocks` | crates/ratspeak-runtime/src/image_attachment.rs:568-577 | sub-blocks are skipped up to and including the terminator |
| `Png.ScanAgreesWithGrammar` | crates/ratspeak-runtime/src/image_attachment.rs:579-599 | on every serialised chunk list the scan is true exactly when `acTL` comes before the first `IDAT` and `IEND` |
| `Png.UndecidedIsTruncated` | crates/ratspeak-runtime/src/image_attachment.rs:585-598 | a chunk list without any of the three is reported as truncated |
| `Png.HasAnimation` | crates/ratspeak-runtime/src/image_attachment.rs:579-599 | the loop computes the specified verdict for every byte string, and ends; data too short for a signature is truncated, and data with another one is still |
| `WebP.ScanAgreesWithGrammar` | crates/ratspeak-runtime/src/image_attachment.rs:601-630 | on every list of padded RIFF chunks the scan is true exactly when an `ANIM` or `ANMF` chunk or a flagged `VP8X` header occurs anywhere |
| `WebP.AnnouncesIff` | crates/ratspeak-runtime/src/image_attachment.rs:601-630 | the animation flag of a `VP8X` header is the second lowest bit of its flags byte |
| `WebP.HasAnimation` | crates/ratspeak-runtime/src/image_attachment.rs:601-630 | the loop computes the specified verdict for every byte string, and ends; data too short for a signature is truncated, and data with another one is still |
| `WebP.FromLeInvertsToLe` | crates/ratspeak-runtime/src/image_attachment.rs:613-613 | little-endian lengths read back |
| `Protobuf.VarintInvertsEncode` | scripts/release/assert-android-page-alignment.py:104-114 | the scan reads back the base-128 encoding of every value below 2^64 |
| `Protobuf.VarintFitsU64` | scripts/release/assert-android-page-alignment.py:104-114 | no varint yields a value of 2^64 or more |
| `Protobuf.ReadVarint` | scripts/release/assert-android-page-alignment.py:104-114 | the ten-step loop computes the specified value and offset |
| `Protobuf.FieldRoundTrip` | scripts/release/assert-android-page-alignment.py:117-138 | every well-formed field reads back, with what follows it |
| `Protobuf.BadKeysAreRefused` | scripts/release/assert-android-page-alignment.py:117-138 | a field key with number zero, a number of 2^29 or more, or wire type 3, 4, 6 or 7 is refused |
| `Protobuf.LongIsRefused` | scripts/release/assert-android-page-alignment.py:117-120 | a message longer than 1 MiB is refused |
| `Protobuf.ReturnsUniqueField` | scripts/release/assert-android-page-alignment.py:117-141 | on every serialised field list within bounds the wanted value is returned exactly when its field occurs once with the expected wire type |
| `Protobuf.ScanField` | scripts/release/assert-android-page-alignment.py:117-141 | the scanning loop computes the specified answer for every byte string |
| `Protobuf.NestedPolicy` | scripts/release/assert-android-page-alignment.py:144-150 | through both nested messages an alignment is reported exactly when the innermost one enables uncompressed libraries once and names that alignment once |
| `Protobuf.AmbiguousIsRefused` | scripts/release/assert-android-page-alignment.py:144-146 | a missing, repeated or mistyped optimization message is refused |
| `Protobuf.CheckBundleConfig` | scripts/release/assert-android-page-alignment.py:144-150 | the nested scans compute the specified policy for every byte string |

## Left out

- Runs.EffectsApplyOnce: is stated between two deletions of the identity, because deleting an identity cascades over effects and tombstones alike (crates/ratspeak-db/src/db.rs:2382-2398).
- Admission.CrashConvergence: says nothing about a repeat that is refused; when that happens is stated exactly by `Admission.LandedRetryAccepted` and `Admission.LostRetryAccepted`, the former up to the expiry of a first receipt that expires.
- Store.DurableInboundStore.PersistSuppression: takes the ledger's records as valid ones filed under their own scope, which the ledger (not part of this model) keeps.
- Deletion.DeleteScoped: the answer's sorted, de-duplicated lists are sets.
- Hosted.Host.FinishWorker: whether the host still serves (generation, hosting switch, shutdown signal) is one parameter read at that moment.
- Deposit.Execute: models one worker between other changes to the node; interleavings with other workers are the subject of `DepositRuns.EveryRun`, where purges of the node are single removals.
- NetworkWorker.EveryRun: interleaves atomic steps in one order that all threads see; memory orderings and poisoned locks are not modelled.
- Ownership.NetworkOwner.Apply: a failed write to protected storage or to the settings is taken to store nothing; the trial start, the endpoint probe and the shutdown are answers only, and a task cancelled outside the transition guard is not modelled.
- Retention.ManifestIsRetained: a message row's files are whatever the application's own code writes into it, so that the row shows the manifest is a premise.
- Maintenance.EveryDueRowIsCompleted: is about passes that end well while no delivery or deletion comes between them.
- Retention.NothingGoesAstray: says nothing about an identity after its deletion, which drops its journal with its effects.
- Lifecycle.NativeLifecycle.Attach: publication of the resumed state to the session (`transition`) only forwards a boolean and is not modelled.
- Presentation.AckIsCurrent: models the Android commands; elsewhere the lifecycle gate is absent and an acknowledgment carries no generation.
- Gif.HasMultipleFrames: errors other than meeting the end of the file are not modelled, here and in the other image scanners.
- SQL text, pragmas, WAL and fsync, connection handling, JSON and cryptography: tables are maps, hashes are opaque byte strings, durable writes and removals are single updates that may fail.
- Column length limits inside SQL expressions, the projection budget of `PreparedAdmission`, conversion of timestamps to signed integers, and admission guards: sizes are checked elsewhere and the guards serialise the calls the model treats as atomic.
- The structural pre-check of an encoded suppression record is taken as "one value fills the record"; its source is not part of this model.
- Normalisation of paths, non-ASCII letters in stored file names, and writers that add a message row between the reference check and the removal of a file.
- Wrap-around of the reconciliation cursor at the machine word.
- Tokio timing and select priorities, GET serving, and the propagation node's internals: their answers are undetermined.
- The rejected BLE replacement functions, JNI, WebView, Objective-C, keyring and hardware tokens.
- `profile_dimensions`, image encoding and size estimates; ELF, DEX and ZIP checks of the release scripts; catalogues, configuration and generators.
- `text |=` of shifted groups in the varint loop is modelled as addition, which is the same because the groups below are already known to fit.
