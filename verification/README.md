# AlertHub: proofs about its state machines and signed texts

AlertHub is a self-hosted emergency alert hub: a Go server signs alerts and pushes them to browser
clients, keeps a hash-chained audit log, retries deliveries from a durable outbox and takes in alerts
from earthquake relays and CAP feeds. This project models those parts whose correctness depends on
every step of a long run, and proves what they keep.

| modules | what they model |
|---|---|
| `AuditCodec`, `AuditLog`, `AuditChain`, `AuditRetention`, `AuditRuns`, `AuditStore`, `AuditReports` | the audit chain: encoding, appending, verifying, pruning, whole runs, and what verification reports |
| `AuditExport`, `ExportRuns`, `ExportPass`, `ExportLoss` | shipping the log to a collector from a durable cursor, and what retention takes away first |
| `Outbox`, `OutboxRuns`, `OutboxBudget`, `OutboxLedger`, `OutboxWorker` | the delivery table, interleaved workers with leases, retries, the drain loop |
| `AcceptGate`, `GateRefinement`, `GateHistory`, `Eew`, `EewRelays`, `Severity` | the client's accept gate, the earthquake deduper in front of it, and two relays racing for it |
| `RateLimit`, `Escalation`, `GzipWriter`, `GzipPolicy` | the fixed-window limiter, the acknowledgement ladder, the deferred-decision gzip writer |
| `AlertCanonical`, `Syslog`, `CapReferences`, `Text` | signed texts, RFC 5424 records, CAP references |

Code that changes state is modelled as a class with the source's fields and loops (`Store`, `Manager`,
`Gate`, `Deduper`, `Limiter`, `Escalator`, `Writer`, `Builder`). Each method is proved against a
specification on values, and the theorems are about runs of those specifications. The clock, the network, the
collector and each SQL statement's success are inputs of a step.

## Premises

The code does not give these for free, so they appear as preconditions.

* SHA-256 is any function to 64 characters. Results read "... or two different strings hashed in this
  very log have the same hash" (`HashClash`); nothing assumes that there are no collisions.
* A prune deletes by time and anchors by id. It is sound when the deleted rows are an id-prefix
  (`OldIsPrefix`) and the cutoff is not later than the prune's own entry. `ClockedRunIsSound` shows that
  entries stamped by a clock that never goes back meet this; `PruneExact`, `PruneEntryStored` and
  `AppendAfterPrune` say for every cutoff what holds otherwise.
* Gate and limiter results need a clock that does not go back (`ClockSetBackAdmitsReplay` shows why), and
  the gate needs a nonce to determine its envelope.
* With several outbox workers, claimed jobs must be marked within their leases (`LeaseIsExclusiveIff`:
  exactly then no claim puts a job in two hands). One worker needs no such assumption
  (`OneWorkerIsLeased`).
* An earthquake upgrade is never quiet if and only if the reports of an event are stamped in the order in
  which the deduper let them through (`NeverQuietIff`). They are when each is stamped before the next one comes
  in (`SerialNeverQuiet`), so always with one relay (`OneRelayIsSerial`).
* Retention takes nothing from the collector, which then has every entry the cursor passed, if and only if each
  prune that deletes something has a cutoff not later than its own time and deletes only what the collector has taken
  (`RunLosesNothingIff`). That the cursor has passed the last old row is enough (`CaughtUpPruneLosesNothing`).
* The outbox results ask for delays of at most 2^62 nanoseconds and, where the documented cap is
  claimed, `BaseBackoff <= MaxBackoff` (`BackoffCap`: exactly then).

## Where code and comments disagree

The model follows the code.

* `audit.go:168-170` says any single edited, inserted or removed row makes verification fail. Removing the
  last row, appending a well-made row, and rewriting the last row together with its hash all pass
  (`DeletedRow`, `InsertedRow`, `ReplacedRow`). In the middle of the log a rewritten row with a recomputed
  hash is reported at the row after it.
* `audit_prune.go:11-15` lists anchoring before deleting and promises how many rows went. The code deletes
  first, as a separate statement, and its entry holds no count. If the anchor write of a sound prune is lost,
  verification fails at the first surviving row although nothing was tampered with (`LostAnchorFails`); the
  next completed prune repairs it. `audit_prune.go:52-53` says the prune's own entry cannot be lost by the same
  prune; it is stored afterwards if and only if the cutoff is not later than the entry (`PruneEntryStored`).
  With a later cutoff verification may still pass over what is left (`PruneExact`), unless nothing is:
  then the next append fails verification (`AppendAfterPrune`, `FutureCutoffBreaksTheChain`).
* A configured export batch above 1000 is clamped to 200 by the store, and the drain loop then takes a full
  clamped batch for the last one. An error-free pass can leave rows behind (`PassOverTable`: exactly when
  more than 200 were pending).
* `audit_export.go:3-7` and `siem.go:77-79` promise at-least-once export. Prunes do not look at the export
  cursor, so a prune that overtakes the exporter deletes entries no later pass can ship, and the log verifies
  all the same (`OvertakenRun`, `MissingAfterRun`). A cutoff in the future loses the prune's own entry even
  when the exporter has caught up (`FutureCutoffRun`). `PruneLoses` says exactly what any prune loses.
* The deduper lets a warning re-issued after a cancel through (`dedup.go:49-50`), but the client still
  remembers the recalled alert and presents the new one loudly only if it outranks that one
  (`ReissueAfterCancel`). Of two revisions stamped in one second only one is presented, so the upgrade can be
  dropped; it is never shown as a quiet renewal (`SameSecondUpgradeIsDropped`, `UpgradeIsPresented`).
* `dedup.go:9-17` and `p2pquake.go:135-138` promise that an upward revision gets through with either relay in
  front. The deduper's lock is released before the alert is stamped, so an upgrade through one relay can be
  stamped before the report it revises, which the other relay has emitted but not published. The clock never
  goes back, and still the client either drops the upgrade, or takes the older report for a quiet renewal of
  it (`RacingRelays`, `RaceFromTheStart`).
* With the default settings a batch may take 50 send timeouts while a lease lasts one minute. A job that
  outlives its lease can be delivered and still end as a dead letter (`OutlivedLease`).
* `escalation.go:144` says one phase per tick; the loop below it jumps to the highest threshold passed. A
  critical alert with the default time to live expires before the third phase (`CriticalNeverUnreachable`).
* The syslog header repeats the action as message id without quoting, so an action with a space breaks the
  header, not the structured data (`RecordRoundTrip`).
* The reference in an exported CAP cancel carries the time of the cancel, not of the original. The receiver
  ignores it. A cancel that references only an update recalls another id than the one the update was
  published under (`CancelOfUpdateMisses`).

## Model

| member | source | states |
|---|---|---|
| AuditCodec.Builder.Put | server/internal/store/audit.go:56-61 | what has been written stays the encoding of all values put so far |
| AuditCodec.CanonicalAudit | server/internal/store/audit.go:54-74 | the builder's output is the eleven length-prefixed values in the fixed order |
| AuditCodec.DecodeOfEncode | server/internal/store/audit.go:51-61 | length-prefixed values read back one by one, whatever delimiters they contain, for any number of values |
| AuditCodec.CanonicalRoundTrip | server/internal/store/audit.go:51-74 | a row's canonical bytes decode to all eleven hashed values, for arbitrary strings and signed integers |
| AuditCodec.CanonicalInjective | server/internal/store/audit.go:51-74 | no two different rows share canonical bytes |
| AuditStore.Store.AuditHash | server/internal/store/audit.go:76-79 | the stored hash is the hash of the canonical bytes |
| AuditStore.Store.AppendAudit | server/internal/store/audit.go:82-97 | an append adds one newest row that holds the entry as passed, with a missing time and actor type filled in, chained to the row before it under the next id; an empty action is refused and a failed insert changes nothing |
| AuditStore.Store.AppendAuditLocked | server/internal/store/audit.go:102-127 | the same for callers that hold the lock, field by field |
| AuditStore.Store.VerifyAuditChain | server/internal/store/audit.go:171-205 | OK with the count of all rows exactly for a chained log; else all rows before the reported one check out, and position, id and reason are that row's: a broken link exactly if its prev_hash differs, an edited row exactly if only its hash does |
| AuditStore.Store.PruneAudit | server/internal/store/audit_prune.go:26-63 | for any table and any point of failure: which rows are left, the anchor, the result, and every field of the entry a prune writes about itself; the export cursor is untouched |
| AuditStore.Store.AuditSince | server/internal/store/audit_export.go:14-33 | a page of rows above the cursor, ascending and without a gap, no longer than the limit (200 if that is out of range), and complete if it is shorter |
| AuditStore.Store.ExportOnce | server/internal/siem/siem.go:104-129 | the loop ends on a fixed log for every outcome of reads, shipments and cursor writes, having shipped and passed exactly the rows of one specified pass |
| AuditChain.SameHashSameRow | server/internal/store/audit.go:76-79 | equal hashes mean equal rows on all eleven values, or a clash of two strings hashed in these logs |
| AuditChain.AllHashesDistinct | server/internal/store/audit.go:102-127 | in a log grown from nothing no hash occurs twice, even for identical entries |
| AuditChain.TamperEvidence | server/internal/store/audit.go:171-205 | two verifying logs with the same anchor, length and last hash agree row by row on every hashed column and hash, or two hashed strings clash |
| AuditChain.GenesisTamperEvidence | server/internal/store/audit.go:171-205 | without pruning the last hash alone fixes length and contents of the log |
| AuditChain.FirstBadEnd | server/internal/store/audit.go:168-205 | the walk passes every row exactly when every link holds |
| AuditChain.ReplacedRow | server/internal/store/audit.go:168-205 | exactly where verification stops after any replacement of one row, including replacements it cannot see |
| AuditChain.EditIsLocated | server/internal/store/audit.go:168-205 | editing hashed columns but not the hash, or the hash alone, is blamed on that row |
| AuditRetention.IntactVerifies | server/internal/store/audit.go:178-205 | a suffix of an unbroken history whose anchor is the hash before it verifies |
| AuditRetention.InsertKeepsSuffix | server/internal/store/audit.go:102-127 | appending keeps the stored rows a suffix of the history, and an intact log intact |
| AuditRetention.CountIsDeleted | server/internal/store/audit_prune.go:45-56 | the count taken before the delete is the number of rows the delete removes |
| AuditRetention.PruneSteps | server/internal/store/audit_prune.go:50-62 | what the log is after each statement of a prune, for every cutoff, and that the entry it writes names the prune, its actor and its time |
| AuditRetention.PruneOutcome | server/internal/store/audit_prune.go:26-63 | the outcome of a prune stated without its steps: survivors are the rows not older than the cutoff, the count is exact, the entry it writes is described field by field, and each failure leaves what came before it |
| AuditRetention.PrunePrefix | server/internal/store/audit_prune.go:5-20 | a completed prune of an id-prefix removes just that prefix, records itself and leaves an intact log, even where the anchor was stale before |
| AuditRetention.PruneExact | server/internal/store/audit_prune.go:26-63 | for every cutoff the pruned log verifies if and only if the deleted rows were an id-prefix; the count is exact, the prune's own entry aside; nothing old means nothing changes |
| AuditRetention.PruneEntryStored | server/internal/store/audit_prune.go:50-58 | the entry a prune writes about itself is stored afterwards if and only if the cutoff is not later than it |
| AuditRetention.AppendAfterPrune | server/internal/store/audit_prune.go:50-61 | the append after a prune verifies if and only if the deleted rows were an id-prefix and the prune left a row |
| AuditRetention.UnsoundPruneFails | server/internal/store/audit_prune.go:31-61 | when a younger-looking row sits among the deleted ones, verification from the new anchor fails |
| AuditRetention.OrderedTimesPruneSoundly | server/internal/store/audit_prune.go:34-35 | times that never decrease along the log make every cutoff delete an id-prefix |
| AuditRetention.StaleAnchorFails | server/internal/store/audit.go:178-183 | an anchor from any other point of the history makes the first row fail |
| AuditRetention.LostAnchorFails | server/internal/store/audit_prune.go:56-61 | a prune interrupted between delete and anchor write leaves a verifying log if and only if the cutoff was later than its entry and the deleted rows were the newest, so never for a cutoff up to now; after an id-prefix no record is lost and the first survivor is reported |
| AuditRetention.DeleteWithoutAnchor | server/internal/store/audit.go:171-205 | deleting old rows without moving the anchor goes unnoticed if and only if only the newest went |
| AuditRuns.DeletedRow | server/internal/store/audit.go:168-205 | deleting a row is blamed on its successor and goes unseen exactly when there is none |
| AuditRuns.InsertedRow | server/internal/store/audit.go:168-205 | where an inserted row makes verification stop, and that only a well-made row at the very end passes |
| AuditRuns.RunIsIntact | server/internal/store/audit_prune.go:5-20 | every run of appends and sound prunes keeps the rows a suffix of the history with the anchor just before it |
| AuditRuns.EveryRunVerifies | server/internal/store/audit_prune.go:5-20 | after every such run verification passes over all stored rows and no two hashes ever produced are equal, or strings of this run clash |
| AuditRuns.AppendIsStored | server/internal/store/audit.go:82-127 | after any run an append adds one newest row that holds what was passed, and one without an action adds none |
| AuditRuns.PruneIsDone | server/internal/store/audit_prune.go:26-63 | after any run a prune has the outcome of a completed prune |
| AuditRuns.ClockedRunIsSound | server/internal/store/audit.go:106-108 | entries stamped by a clock that never goes back and cutoffs not in the future make every prune of every run sound |
| AuditRuns.FutureCutoffBreaksTheChain | server/internal/store/audit_prune.go:50-61 | a cutoff later than the prune's own entry, over rows that are all old, leaves nothing, and the next append fails verification at once |
| AuditReports.EditIsReported | server/internal/store/audit.go:185-199 | editing a row but not its hash, or its hash alone, is reported under its id and position, as a broken link exactly if its prev_hash was edited |
| AuditReports.RehashedEditIsReported | server/internal/store/audit.go:185-199 | an edit with a recomputed hash is reported as a broken link at the next row, and not at all in the last |
| AuditReports.DeletionIsReported | server/internal/store/audit.go:185-199 | a removed row is reported as a broken link at its successor, and not at all if it was the last |
| AuditReports.InsertionIsReported | server/internal/store/audit.go:185-199 | a row slipped in is reported at itself, as a broken link or an edited row, or else as a broken link at the row it pushed back |
| AuditReports.RunIsReportedIntact | server/internal/store/audit.go:200-204 | after any run of appends and sound prunes the report is OK and counts every stored row |
| AuditExport.AboveIsSuffix | server/internal/store/audit_export.go:14-33 | what the exporter still has to ship is a suffix of the table |
| AuditExport.PassDrains | server/internal/siem/siem.go:104-129 | an error-free pass passes everything it shipped, and shipped everything unless the batch was clamped |
| AuditExport.PassOverTable | server/internal/siem/siem.go:77-129 | a pass ships rows above the cursor in id order without a gap, never moves the cursor past an unshipped row or backwards, and drains the table exactly when the batch was not clamped or one clamped batch was enough |
| AuditExport.ProgressStep | server/internal/siem/siem.go:105-127 | one iteration of the drain loop is one step of the specified pass |
| AuditExport.ProgressStops | server/internal/siem/siem.go:105-127 | where the loop stops on an unreadable log, an empty page, a refused shipment or a lost cursor write, it has shipped and passed what the pass says |
| ExportPass.BatchOutcome | server/internal/siem/siem.go:117-123 | a batch taken and recorded moves the cursor to its last row; one refused or not recorded leaves the cursor, so that it is shipped again |
| ExportPass.PassIsRun | server/internal/siem/siem.go:104-129 | the drain loop on a fixed log is a run of the interleaved system with the same cursor and the same rows taken |
| ExportRuns.StepKeepsInv | server/internal/siem/siem.go:77-129 | append, prune (complete or cut short), fetch, shipment, cursor write and crash each keep the export invariant, never take the cursor back and forget nothing taken or lost |
| ExportRuns.ExportConservation | server/internal/siem/siem.go:77-129 | over every interleaving of those steps, each entry ever appended with an id up to the cursor was taken by the collector or pruned before it was |
| ExportRuns.CursorMonotone | server/internal/store/audit_export.go:46-51 | over every run the cursor never decreases and nothing taken is forgotten |
| ExportLoss.PruneLoses | server/internal/store/audit_prune.go:50-58 | a prune that gets as far as its delete loses exactly the old rows the collector has not taken, and its own entry if the cutoff is later than that; any other loses nothing |
| ExportLoss.LosesNothingIff | server/internal/store/audit_prune.go:50-58 | a step loses nothing if and only if it is not a prune that deletes with a cutoff in the future or deletes a row the collector has not taken |
| ExportLoss.CaughtUpPruneLosesNothing | server/internal/store/audit_export.go:3-10 | a prune with a cutoff up to now whose last old row the cursor has passed loses nothing |
| ExportLoss.RunLosesNothingIff | server/internal/siem/siem.go:77-129 | a run has lost nothing if and only if each of its prunes was careful, and then every entry up to the cursor was taken by the collector |
| ExportLoss.MissingAfterRun | server/internal/siem/siem.go:104-129 | an entry deleted, never taken and not in a fetched batch is never shipped afterwards, whatever follows |
| ExportLoss.OvertakenRun | server/internal/store/audit_prune.go:26-63 | a run in which an entry is pruned before the exporter comes round, is missing for good, and the log verifies |
| ExportLoss.FutureCutoffRun | server/internal/store/audit_prune.go:50-58 | a run in which the exporter has caught up and a prune with a future cutoff loses its own entry |
| Outbox.BackoffClosedForm | server/internal/delivery/delivery.go:176-187 | the doubling loop in int64 computes min(base * 2^(n-1), max) without overflow, and base itself for the first retry |
| Outbox.BackoffCap | server/internal/delivery/delivery.go:176-187 | no delay exceeds the maximum for any attempt if and only if the base does not |
| Outbox.SettleOutcome | server/internal/delivery/delivery.go:134-174 | what each outcome leaves of a row, field by field: delivered, no sender, failed on the last attempt, or due again after the closed-form delay |
| Outbox.DefaultsFill | server/internal/delivery/delivery.go:42-64 | configured values are kept and the others get the documented defaults |
| OutboxRuns.HeldNotClaimed | server/internal/store/delivery.go:44-70 | while leases hold, a claim takes no job that is in someone's hands |
| OutboxRuns.ClaimKeeps | server/internal/store/delivery.go:44-70 | a claim keeps every safety clause, exclusiveness included |
| OutboxRuns.MarkKeeps | server/internal/store/delivery.go:72-90 | a mark, written or lost, keeps every safety clause although it asks neither status nor holder |
| OutboxRuns.OutboxSafety | server/internal/delivery/delivery.go:103-174 | over every run of interleaved workers with crashes and lost writes, within leases: one row per alert, channel and target, attempts equal claims, no job in two hands, status changes once, no Send after it, 'sent' and 'dead' are deserved, and a pending job is due again within max(lease, longest backoff) of its last update |
| OutboxRuns.StepPreserves | server/internal/store/delivery.go:25-39 | no step loses or rekeys a row or touches a settled one, and an enqueue leaves a row for its key |
| OutboxRuns.SettledForGood | server/internal/store/delivery.go:72-90 | between any two points of a run rows are never lost and settled rows never change |
| OutboxRuns.OneWorkerIsLeased | server/main.go:274 | a run with a single worker meets the lease premise whatever its timing |
| OutboxBudget.SendBudget | server/internal/delivery/delivery.go:134-174 | without crashes and lost writes no job is sent more than MaxAttempts times |
| OutboxBudget.LeaseIsExclusiveIff | server/internal/store/delivery.go:44-70 | no claim of a worker with empty hands can put a job in two hands if and only if every job in someone's hands is within its lease |
| OutboxBudget.OutlivedLease | server/internal/store/delivery.go:86-90 | a job kept past its lease until its last attempts is in two hands, changes status twice and ends dead though delivered |
| OutboxLedger.LedgersCount | server/internal/delivery/delivery.go:121-174 | the claims, sends, deliveries, late sends and changes of status on record are those counted off the steps of the run |
| OutboxLedger.CountedSafety | server/internal/delivery/delivery.go:103-174 | the safety of the outbox in counted steps: attempts, one change of status, no send after it, a delivery behind every 'sent', the wait of a pending job, and the bound on sends |
| OutboxWorker.Manager.EnqueueAlert | server/internal/delivery/delivery.go:83-100 | afterwards there is a row for every channel and target whose insert went through, failed inserts being passed over; keys stay unique, old rows are untouched and every new row is a fresh pending one written by such an insert |
| OutboxWorker.Manager.EnqueueOne | server/internal/store/delivery.go:27-39 | a failed insert or a conflicting key changes nothing, any other adds one row, and the result tells the three apart |
| OutboxWorker.Manager.ClaimDueDeliveries | server/internal/store/delivery.go:44-70 | the rows leased are distinct, due, the longest due, as many as the limit allows, and no other row changes; a failed update leases nothing, a failed read leaves rows leased to nobody |
| OutboxWorker.Manager.RetryDelay | server/internal/delivery/delivery.go:178-187 | the loop computes min(base * 2^(n-1), max), and base for the first retry, for delays up to 2^62 |
| OutboxWorker.Manager.Deliver | server/internal/delivery/delivery.go:134-174 | only the claimed row changes, by outcome and field by field, with the closed-form delay after a failure that is not the last; a failed write leaves it alone |
| OutboxWorker.Manager.ProcessBatch | server/internal/delivery/delivery.go:121-132 | leases a legitimate claim and settles each job of it once, in order; after a failed claim it settles nothing and reports 0 |
| OutboxWorker.Manager.Drain | server/internal/delivery/delivery.go:103-118 | with written marks the drain loop ends however clock, claims and sends behave, after a round that is given exactly; if that round's claim did not fail it was short and every job still due was in it; no row is lost and settled rows are unchanged |
| OutboxWorker.SettledRows | server/internal/delivery/delivery.go:121-132 | after a batch each claimed row is settled from the copy claimed, and all others are as before |
| OutboxWorker.RoundMeans | server/internal/delivery/delivery.go:121-174 | a round from its outcomes alone: each row taken spends an attempt and is held back for the configured lease, and is settled as its sending went if the mark is written |
| OutboxWorker.RoundSpendsEffort | server/internal/delivery/delivery.go:103-132 | a round that takes a job lowers the remaining attempts summed over pending jobs, even if the job is due again at once |
| OutboxWorker.BatchIsRun | server/internal/delivery/delivery.go:121-174 | a worker's batch leaves the same table as its send and mark steps in the interleaved outbox |
| AcceptGate.Gate.AcceptAlert | web/verify.js:192-215 | accepted exactly if signed, within skew and time to live, with a fresh nonce and a later stamp than its id has on record; each refusal has its reason, the labels compare severities, and a refused envelope leaves no trace |
| AcceptGate.Gate.SweepSeen | web/verify.js:210 | the sweep keeps exactly the nonces whose envelopes are not older than the skew |
| AcceptGate.Gate.SweepAlerts | web/verify.js:211 | the same for the alert records |
| GateRefinement.VerdictsAgree | web/verify.js:192-215 | from any memory that forgot only old records the verdict is the same, or a forgotten id is presented as new |
| GateRefinement.StepForgets | web/verify.js:207-211 | after a call the swept gate still lacks only records too old to matter |
| GateRefinement.GateRefines | web/verify.js:192-215 | over every run the gate accepts exactly what a gate that never forgets accepts; the only difference is a renewal or escalation presented as new |
| GateRefinement.UnboundedNoReplay | web/verify.js:195-203 | the never-forgetting gate accepts no nonce twice and only rising stamps per id |
| GateRefinement.GateNoReplay | web/verify.js:177-215 | so does the real gate, although it remembers for the skew only |
| GateHistory.OnlyInTime | web/verify.js:193-198 | from any memory and over any calls, nothing unsigned, out of the skew or expired is ever presented |
| GateHistory.AcceptsExactly | web/verify.js:192-203 | without the maps: over every run a call is presented if and only if it is signed and in time and nothing presented before it had its nonce, or its id with a stamp as late |
| GateRefinement.LabelsMeanHistory | web/verify.js:184-206 | new, renewal and escalation mean what they say about the last presented envelope of the id in the whole history |
| GateRefinement.RenewalIsQuiet | server/internal/api/api.go:322-333 | a re-issue under the same id is accepted quietly exactly if its nonce is fresh and its second later, and is otherwise dropped as a replay |
| GateRefinement.NonceSurvives | web/verify.js:208-211 | the nonce of an accepted envelope stays on record over any calls with other nonces if and only if none of those presented came too late for it |
| GateRefinement.RecordSurvives | web/verify.js:208-211 | both records of an envelope survive any calls with others on the same condition, and vanish together otherwise |
| GateRefinement.ClockSetBackAdmitsReplay | web/verify.js:210-211 | from any memory and after any calls with other envelopes, an envelope brought again with the clock set back is accepted a second time exactly if a presented call came late enough to sweep its records, and is dropped as a replay otherwise |
| Eew.Deduper.Emit | server/internal/eew/dedup.go:26-40 | a first report or one that outranks the entry is let through and recorded, as an upgrade in the second case; others change nothing |
| Eew.Deduper.FirstSeen | server/internal/eew/dedup.go:44-47 | answers whether the event was unknown, and makes it known at the lowest rank |
| Eew.Deduper.Forget | server/internal/eew/dedup.go:51-55 | drops just that event |
| Severity.RanksAscend | server/internal/alert/alert.go:24-34 | notice, warning, critical and emergency rank in this rising order, and nothing else outranks a notice |
| Eew.SeenIsMaximum | server/internal/eew/dedup.go:16-19 | the deduper's entry is the highest rank reported since the last cancel, and belongs to an emitted report |
| Eew.EmitsRunningMaxima | server/internal/eew/p2pquake.go:135-151 | for every interleaving of the relays the reports let through are exactly the strict running maxima since the last cancel |
| Eew.LastEmittedIsMaximum | server/internal/eew/p2pquake.go:135-151 | some emitted report carries the maximum of both streams |
| Eew.LaterStampHigherRank | server/main.go:326-360 | among emitted reports of one event stamped in emit order, a later stamp means a higher severity |
| Eew.UpgradesAreNeverQuiet | server/internal/eew/dedup.go:9-17 | end to end, between cancels and with stamps in emit order, under any loss, duplication, reordering and forgetting, no accepted envelope of the event is a mere renewal |
| Eew.NeverQuietIff | server/internal/eew/dedup.go:9-17 | that holds over every delivery if and only if the reports of the event are stamped in the order emitted |
| Eew.UpgradeIsPresented | server/internal/eew/dedup.go:9-17 | with stamps in emit order, an envelope of the event that arrives in time and is the first genuine one with its nonce is presented, as new or as an escalation, if and only if none stamped in the same second or later was presented before it, and is dropped otherwise |
| Eew.StrictStampsLoseNoUpgrade | web/verify.js:200-206 | with reports stamped in different seconds, an upgrade that arrives in time is presented unless a later revision was presented before it |
| Eew.SameSecondUpgradeIsDropped | web/verify.js:192-206 | an upgrade stamped no later than what it revises is always dropped; in time and with a nonce not on record it is an escalation exactly if nonce and second are new |
| Eew.ReissueAfterCancel | server/internal/eew/dedup.go:49-55 | in any stream the first report after a cancel is emitted, but the gate escalates only if it outranks the recalled alert |
| EewRelays.SerialNeverQuiet | server/internal/eew/p2pquake.go:113-156 | with emitting and stamping as two steps of each relay and a clock that does not go back: if no report of the event comes in while another is emitted and not yet stamped, stamps are in emit order and no upgrade is quiet |
| EewRelays.OneRelayIsSerial | server/internal/eew/wolfx.go:117-134 | a single relay always meets that condition |
| EewRelays.RacingRelays | server/main.go:326-360 | from every state in which one relay has emitted a report and not stamped it, an upgrade through another relay can be stamped before it, and then some delivery shows the older report as a quiet renewal |
| EewRelays.RaceFromTheStart | server/main.go:326-360 | two relays and two reports of one earthquake are enough for that, whenever the second outranks the first |
| RateLimit.Limiter.Allow | server/internal/api/ratelimit.go:35-54 | verdict and map after a call: expired windows gone, the key's window opened or counted, every other open window untouched |
| RateLimit.SweepChangesNoVerdict | server/internal/api/ratelimit.go:39-43 | over any history no verdict differs from a limiter that never sweeps |
| RateLimit.WindowOpens | server/internal/api/ratelimit.go:44-48 | without an open window a call is let through and opens one of the configured length |
| RateLimit.LimiterBound | server/internal/api/ratelimit.go:35-54 | over any history no closed interval of window length sees more than twice max (or twice one, if max is lower) of one key's calls allowed |
| RateLimit.QuotaIsUsedUp | server/internal/api/ratelimit.go:45-53 | within an open window a call is allowed exactly while fewer than max were allowed since it opened |
| Escalation.Escalator.TrackForAck | server/internal/api/escalation.go:61-78 | only critical and emergency alerts are tracked, afresh from phase 0 with nothing pending, and others stay as they are |
| Escalation.Escalator.StopEscalation | server/internal/api/escalation.go:82-91 | marks just that item done, if it is tracked |
| Escalation.Escalator.PendingDevices | server/internal/api/escalation.go:181-197 | the devices that are online and have not acknowledged; an unreadable list counts as empty |
| Escalation.Escalator.EvalEscalations | server/internal/api/escalation.go:110-176 | every item is evaluated once, independently, exactly the notifications due are sent, and an item is done afterwards exactly if it was, or its alert expired, or no online device is silent |
| Escalation.Escalator.Evaluate | server/internal/api/escalation.go:119-175 | the loop body takes an item to the evaluation the closed form is proved of, and ends it on expiry or complete acknowledgement without a notification |
| Escalation.AdvanceReaches | server/internal/api/escalation.go:143-149 | the phase loop yields the number of thresholds elapsed, never less than the phase before |
| Escalation.TickClosedForm | server/internal/api/escalation.go:110-176 | one evaluation of a live alert: phase, pending and unreachable devices, and a notification exactly when the phase rose |
| Escalation.LadderClosedForm | server/internal/api/escalation.go:110-176 | over any evaluations a live alert stands at the number of thresholds elapsed, and at most three notifications were sent, each for a higher phase |
| Escalation.LadderEnds | server/internal/api/escalation.go:120-141 | from the first evaluation that finds the alert expired or no online device silent, nothing is sent and the phase stays |
| Escalation.DoneIff | server/internal/api/escalation.go:120-141 | an item is done if and only if it was stopped or some evaluation ended it |
| Escalation.StoppedIsSilent | server/internal/api/escalation.go:80-91 | a stopped item sends nothing, ever |
| Escalation.PhaseNeverFalls | server/internal/api/escalation.go:143-159 | over any evaluations the phase never falls |
| Escalation.PhaseReachable | server/internal/api/escalation.go:32-35 | a phase can be reached if and only if its threshold, counted from tracking, falls before the end of the time to live plus one second |
| Escalation.CriticalNeverUnreachable | server/internal/alert/alert.go:129-137 | with the default time to live a critical alert never reaches the third phase, an emergency can |
| Escalation.ReachedThreshold | server/internal/api/escalation.go:32-35 | the schedule is 15, 45 and 120 seconds for an emergency and 30, 90 and 180 for a critical alert |
| GzipWriter.Writer.EditHeader | server/internal/api/httpcache.go:82-139 | editing headers keeps the writer's invariant with the edit on record |
| GzipWriter.Writer.ChooseStatus | server/internal/api/httpcache.go:82-89 | the first status counts, later ones are ignored |
| GzipWriter.Writer.WriteBytes | server/internal/api/httpcache.go:91-109 | the bytes are held back below the threshold and sent on after it, none lost or reordered |
| GzipWriter.Writer.Decide | server/internal/api/httpcache.go:113-139 | the head goes out first, rewritten if the body is compressed, then what was held back; a compressor is taken exactly then |
| GzipWriter.Writer.FlushAll | server/internal/api/httpcache.go:155-165 | a flush forces the decision and loses nothing |
| GzipWriter.Writer.Close | server/internal/api/httpcache.go:142-151 | everything written is on the wire, the gzip stream is ended and its compressor given back |
| GzipWriter.Respond | server/internal/api/httpcache.go:170-183 | for every sequence of calls: one head, before any body byte, a body that decodes to everything written, and as many compressors returned as taken |
| GzipWriter.CompressedIff | server/internal/api/httpcache.go:64-70 | without flushes and with the headers set before the first write, the body is compressed if and only if it has 1024 bytes or more, a 2xx status and a compressible type |
| GzipWriter.ChunkingIsIrrelevant | server/internal/api/httpcache.go:91-109 | the decision does not depend on how the body is cut into writes |
| GzipWriter.EarlyFlushIsIdentity | server/internal/api/httpcache.go:153-165 | a flush before the threshold settles for an uncompressed body, whatever follows |
| GzipPolicy.DecidedAt | server/internal/api/httpcache.go:82-139 | the decision falls with one call and for good, by length, status and type so far, and the head is the one chosen by then |
| GzipPolicy.OpenIff | server/internal/api/httpcache.go:91-109 | a response is undecided if and only if nothing was flushed and fewer than 1024 bytes written |
| GzipPolicy.FirstStatusWins | server/internal/api/httpcache.go:82-97 | the first status chosen counts, and writing without one chooses 200 |
| GzipPolicy.LastHeaderWins | server/internal/api/httpcache.go:82-139 | the last edit of the headers counts |
| GzipWriter.ParametersIgnored | server/internal/api/httpcache.go:48-58 | parameters of a content type play no part |
| GzipPolicy.CompressibleIff | server/internal/api/httpcache.go:46-58 | exactly which content types are compressible, in any case of letters, white space and parameters aside |
| AlertCanonical.CanonicalRoundTrip | server/internal/alert/alert.go:57-76 | the signed bytes give back all 13 fields up to normalisation when the text fields before the last are of one line, even if the last is not |
| AlertCanonical.CanonicalInjective | server/internal/alert/alert.go:57-76 | two such alerts with the same signed bytes are the same alert up to normalisation |
| AlertCanonical.HeartbeatRoundTrip | server/internal/alert/heartbeat.go:29-52 | the signed bytes of a heartbeat give back all its fields |
| AlertCanonical.DomainsSeparate | server/internal/alert/heartbeat.go:29-52 | no alert and no heartbeat share signed bytes, whatever they contain |
| AlertCanonical.ValidateInput | server/internal/alert/alert.go:114-127 | which of the three errors is reported, and that none is exactly when all rules hold |
| AlertCanonical.ValidatedIsOneLine | server/internal/alert/alert.go:108-127 | an alert that passed validation meets the premise of the round trip |
| AlertCanonical.ShiftedNewline | server/internal/alert/alert.go:57-76 | moving a newline from one field to the next changes no signed byte, at any position |
| AlertCanonical.NewlineInTitleIsAmbiguous | server/internal/alert/alert.go:108-127 | without the newline rule two different alerts share one signature, for any normalisation that works on both sides of a newline separately |
| Syslog.ReadValueOfQuote | server/internal/siem/syslog.go:134-138 | an escaped value reads back by the rules of RFC 5424 section 6.3.3, whatever it contains |
| Syslog.ElementRoundTrip | server/internal/siem/syslog.go:118-123 | any structured-data element reads back with every parameter, in order, line breaks having become spaces |
| Syslog.StructuredDataRoundTrip | server/internal/siem/syslog.go:118-123 | the structured data of every record gives back all seven values of the entry, and what follows it |
| Syslog.NumbersNeedNoEscape | server/internal/siem/syslog.go:119-123 | printing the organisation number bare is the same as printing it escaped |
| Syslog.PriorityIff | server/internal/siem/syslog.go:114-118 | the priority is 13 * 8 + 4 exactly for actions that contain "failed" or start with "audit.", and 13 * 8 + 5 for all others |
| Syslog.FlatIs | server/internal/siem/syslog.go:134-138 | line breaks become spaces and nothing else changes |
| Syslog.RecordRoundTrip | server/internal/siem/syslog.go:113-132 | the whole record (priority, version, time, host, application, process, message id, data, JSON text) reads back if and only if the action holds no space and no line break |
| Syslog.OneLineEach | server/internal/siem/syslog.go:106-138 | the record's only line feed is its last character if and only if host, time and JSON text bring none, whatever the entry holds |
| CapReferences.FieldsOfSpread | server/internal/cap/cap.go:86 | splitting on white space returns the words in order, whatever white space stands around them |
| CapReferences.FieldsLayout | server/internal/cap/cap.go:86 | and every text is such a layout of its fields |
| CapReferences.IsSpaceIff | server/internal/cap/cap.go:86 | white space is what Unicode calls so, code point by code point |
| CapReferences.ParseReferences | server/internal/cap/cap.go:84-101 | the loop returns the references of all tokens that name an alert, in order |
| CapReferences.TokenPrintsBack | server/internal/cap/cap.go:86-94 | printing what was read of a token gives the token back exactly when it has all three parts |
| CapReferences.ParsedAreWellFormed | server/internal/cap/cap.go:80-101 | only well-formed references come out of any text |
| CapReferences.ReferencesRoundTrip | server/internal/cap/cap.go:80-101 | a list of references, printed with any white space, reads back as that list if and only if every one is well formed |
| CapReferences.IdNamesOneAlert | server/internal/cap/cap.go:67-75 | an id stands for one sender and identifier, or the kept digits of two different texts clash |
| CapReferences.IdIsTopicSafe | server/internal/cap/cap.go:67-75 | an id is "cap-" and 24 hexadecimal digits of the hash, and holds no character that is special in a topic |
| CapReferences.CapCancel | server/internal/api/cap_handlers.go:101-121 | recalls the ids of all references in order, stops at the first that cannot be published, and refuses a cancel without references |
| CapReferences.ExportKind | server/internal/cap/cap.go:287-310 | an exported document names its alert, sender and time, and only a cancel references anything |
| CapReferences.ExportedReference | server/internal/cap/cap.go:293-297 | the reference of an exported cancel reads back as itself exactly when it is well formed |
| CapReferences.CancelReachesOriginal | server/internal/cap/cap.go:287-297 | an exported cancel recalls at the receiver just the id the exported original was published under |
| CapReferences.UnfitReferenceMisses | server/internal/cap/cap.go:287-297 | with a sender or id unfit for a reference it recalls something else or nothing, short of a digest clash |
| CapReferences.CancelOfUpdateMisses | server/internal/api/cap_handlers.go:46-68 | a cancel that references only an update recalls the id the update was published under if and only if the update names itself first, short of a digest clash |

## Left out

* Ed25519, SHA-256, NFC and compress/gzip themselves: a signature check is a boolean input, a hash any
  function to 64 characters, NFC any function that creates no newline, and a compressor is what it is fed.
* SQL, MQTT, HTTP, SMTP, webhook and ntfy: each statement or call is the success or failure of a step.
  Transactions and row-level security are not modelled, nor two server processes on one database.
* RFC 3339 formatting: a parameter; the JSON text in a syslog record is another. The syslog sink's
  connections (dial, drop) are the outcome of a shipment.
* XML: an exported document is taken to be parsed back to the fields it was made of.
* The `id` column of an audit row is not hashed, so agreement between logs covers the hashed columns and the
  hashes only.
* The audit lock: appends and prunes are single calls; a prune is split where a statement can fail.
* Listing and counting queries, RBAC, accounts, single sign-on, drills and scenarios: lookups.
* Parsing of the relays' messages (`MapWolfx`, `MapP2PQuake`, `scaleToIntensity`): finite tables and field
  copies. Severity collapse and expansion between CAP and AlertHub: likewise.
* The retained active slot (`maybeSetActive`), presence and acknowledgement storage, and an acknowledgement
  arriving in the middle of an evaluation of the ladder.
* What the browser does after the gate: the user interface, timers and sound, several tabs, and the
  persistence of the gate's maps in localStorage.
* JavaScript numbers are exact integers, and a severity is looked up by its own name only (inherited property
  names of the table are not modelled).
* The tables behind `alert.DefaultAction` and the CAP category and status mappings.
* A text is a sequence of characters, one per byte of a Go string (code points in `CapReferences`).
- AuditStore.Store.AppendAudit: rows are read and written as one table in id order; a failing read is not told apart from a failing insert, because neither changes anything.
- GzipWriter.ParametersIgnored: content types are lower-cased and trimmed in ASCII only, and a Content-Encoding the handler sets itself is not modelled.
- OutboxRuns.OutboxSafety: needs jobs to be marked within their leases when there are several workers, because the marks ask for no holder; OutboxBudget.OutlivedLease shows what happens otherwise. The lease and the retry delay are whole seconds by integer division, where the source converts through a float.
- OutboxWorker.Manager.Drain: the end of the loop is proved for marks that are written; with failing marks a row stays leased and the source's loop depends on the clock. Cancellation of the worker's context is the crash step of OutboxRuns, and a claim whose rows cannot be read is a claim step followed by crashes.
- Eew.UpgradesAreNeverQuiet: is about the reports between two cancels of an event, stamped in emit order; Eew.ReissueAfterCancel shows what a cancel changes, EewRelays.RacingRelays what racing relays do.
