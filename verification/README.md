# Verification model of the row protocols of Xirang

The backend keeps its state in database rows that short transactions change under
compare-and-swap predicates. This project models those protocols in Dafny and proves
what they keep across crashes, replays, expired leases and racing workers.

| file | models |
|---|---|
| `audit_chain.dfy`, `audit_writer.dfy` | the hash-chained audit log: what the verifier accepts, why the chain is binding, and a writer and a purger whose rows always render a history |
| `lease.dfy` | recovery-point leases with fences, deadlines and heartbeats |
| `alert_rows.dfy`, `delivery.dfy`, `repair.dfy`, `routing.dfy`, `lane.dfy`, `delivery_store.dfy` | alert delivery: intent keys, claim and report under leases, repair of unkeyed rows, the durable routing decision, and all of them interleaved on one channel of an alert |
| `task_alerts.dfy` | causally ordered raises and resolves for task runs |
| `keyring.dfy` | versioned domain keys |
| `identity.dfy`, `identity_store.dfy` | token versions, login challenges, recovery codes and recovery enrolments |
| `cron_health.dfy` | the cron-backup health cursor |
| `rate_limiter.dfy`, `canonical.dfy`, `execution_metadata.dfy` | the pruning rate limiter, the canonical hash writer, the execution metadata |

Each state machine has the same shape. Functions say what one transaction leaves
behind; a step relation lets transactions, crashes and foreign changes interleave in
any order under a non-decreasing clock; lemmas prove properties of all runs; and a
class changes its fields step by step, each method's contract tying the new state to
the function of the old one. A transaction that fails leaves the state unchanged.

Assumptions: every transaction is atomic and serialisable; instants are integers that
storage returns as written; random ids, attempts and fences are values not drawn
before; user ids are not reused. SHA-256 is an uninterpreted function: writer results
need only that it never returns the empty string, binding results only that the two
stores at hand exhibit no collision. Stored code hashes match exactly the text they
were made from, key envelopes open exactly under the wrapping key, domain and version
they were sealed with, and signed claims were issued by the service.

Where the code falls short of what one might expect of it:

- Repair and claim are two transactions, so a worker whose repair answered a row before
  another worker's send of the same notification is confirmed can still claim its row and
  send it again (`DeliveryLane.ClaimAfterConfirmationIff`, `DeliveryLane.InFlightClaimWins`).
- A lease acquired with the zero deadline ignores the deadlines of its scope, and
  outlasts them exactly when its own one lies beyond (`LeaseFencing.DeadlineOutgrownIff`).
- The notification window asked by a run-scoped raise can never hold it back, because
  the permanent receipt was looked up before.
- `Ensure` reports an active key that does not open as lost, rather than unavailable,
  exactly when an older version of the domain is lost (`KeyHistory.EnsureReportsLossIff`,
  `KeyHistory.UnreadableReportedLost`).
- The first entry of the retry backoff table is never used: the first retry waits two
  minutes (`DeliveryProtocol.RetryWaits`).

What the schema adds to the code: the cron cursor's reference to its alert restricts
the alert's deletion (migration 000092), and the migrations that mark delivery rows
unknown decide their alerts unknown with them (000090, 000091). Repair treats a legacy
row marked unknown differently with and without a direct row, but on reachable tables
such a row belongs to an alert that is never repaired again
(`DeliveryRepair.RepairedSentIff`, `DeliveryLane.MarksStayFinal`).

## Model

| member | source | states |
|---|---|---|
| `AuditChain.ChainBinding` | backend/internal/backupasset/audit.go:319-415 | two accepted stores that end in a closed checkpoint with the same hash have equally many segments, equal hashed checkpoint fields, and equal events wherever both still hold the details |
| `AuditChain.PrefixBinding` | backend/internal/backupasset/audit.go:319-384 | a hash shared by any two closed checkpoints of two accepted stores fixes their position and the whole history up to it |
| `AuditChain.SegmentBound` | backend/internal/backupasset/audit.go:545-570 | equal checkpoint hashes mean the same segment number and the same segment contents |
| `AuditChain.EventsBoundByLastHash` | backend/internal/backupasset/audit.go:480-543 | an entry hash fixes its event and, through the previous hashes, every earlier event of the segment |
| `AuditChain.WriteRespectsLimit` | backend/internal/backupasset/audit.go:196-264 | the event lands last in a segment that was below the event limit in force at that write and, if it held events, not too old; no segment is empty and only the last may be open |
| `AuditChain.WriteRollsIff` | backend/internal/backupasset/audit.go:241-264 | a write extends the open segment exactly when that has room and is young enough, starts a new one otherwise, closing the old, and closes the segment it wrote to exactly at the limit |
| `AuditChain.WriteAppends` | backend/internal/backupasset/audit.go:196-239 | the written history grows by exactly this event, at its end |
| `AuditChain.RunConserves` | backend/internal/backupasset/audit.go:94-124 | over any run of writes, rollbacks, limit changes and purges the history is the written events in order, none lost, moved or invented |
| `AuditChain.EveryRunAccepted` | backend/internal/backupasset/audit.go:319-351 | the verifier accepts the rows of every such run, segments are numbered 1..n and only the last can be open |
| `AuditChain.RenderedAccepted` | backend/internal/backupasset/audit.go:353-415 | the verifier accepts the rows of every well-formed history, whatever is purged |
| `AuditChain.AcceptedIsHistory` | backend/internal/backupasset/audit.go:353-415 | whatever the verifier accepts is the rendering of a history: a segment that holds its details has exactly the rows and checkpoint fields its events give |
| `AuditWriting.RenderedWrite` | backend/internal/backupasset/audit.go:241-317 | on the rows of a history the conditional updates of a write all succeed and give the rows of the longer history |
| `AuditWriting.RenderedPurge` | backend/internal/backupasset/audit.go:417-459 | a purge is possible exactly for closed, unpurged segments and gives the rows of the purged history, all hashes unchanged |
| `AuditWriting.AuditWriter.Verify` | backend/internal/backupasset/audit.go:319-351 | succeeds exactly on stores whose numbering, links, states, hashes and counts are all right |
| `AuditWriting.AuditWriter.VerifyCheckpoint` | backend/internal/backupasset/audit.go:353-384 | accepts a checkpoint row exactly when its state, closing time, hash and details fit |
| `AuditWriting.AuditWriter.VerifySegmentDetails` | backend/internal/backupasset/audit.go:386-415 | accepts exactly the ordered rows that hash, link and count as the checkpoint says |
| `AuditWriting.AuditWriter.CreateCheckpoint` | backend/internal/backupasset/audit.go:266-292 | appends an open row linked to the latest hash, and refuses exactly after an open or unhashed row |
| `AuditWriting.AuditWriter.CloseCheckpoint` | backend/internal/backupasset/audit.go:294-317 | closes exactly a non-empty open row that still has the count and last hash read before |
| `AuditWriting.AuditWriter.OpenCheckpoint` | backend/internal/backupasset/audit.go:241-264 | on a table with at most one, last open row gives the row to append to, rolled over when full or too old; refuses a table with two open rows |
| `AuditWriting.AuditWriter.Append` | backend/internal/backupasset/audit.go:196-239 | inserts the linked event and advances, and at the limit closes, the open row; fails on an occupied position and on a row that moved since it was read |
| `AuditWriting.AuditWriter.WriteTransaction` | backend/internal/backupasset/audit.go:196-239 | all or nothing; on the rows of a history it succeeds and leaves the rows of the history with the event written |
| `AuditWriting.ResolveLimits` | backend/internal/backupasset/audit.go:71-92 | resolves exactly the configurations within the ceilings, zero meaning the default, and always to a limit of at least one event |
| `AuditWriting.AuditWriter.Write` | backend/internal/backupasset/audit.go:94-124 | for every configuration and any pattern of storage faults the event is written at most once, and exactly when the configuration resolves and an attempt is reached undisturbed |
| `AuditWriting.AuditWriter.PurgeSegmentDetails` | backend/internal/backupasset/audit.go:417-459 | succeeds exactly for a closed, unpurged segment and leaves the rows of the purged history; otherwise nothing changes |
| `LeaseFencing.OneFencePerSlot` | backend/internal/backupasset/lease.go:189-244 | at every moment of every run at most one fence of a point, holder type and owner validates |
| `LeaseFencing.NeverValidatesAgain` | backend/internal/backupasset/lease.go:373-395 | a fence that has stopped validating never validates again |
| `LeaseFencing.PeriodsDisjoint` | backend/internal/backupasset/lease.go:424-487 | no other fence of the slot validates anywhere between two moments at which a fence validates |
| `LeaseFencing.StepKeepsInv` | backend/internal/backupasset/lease.go:189-487 | every step keeps one active row per slot, bounded deadlines and shared explicit deadlines |
| `LeaseFencing.DeadlineFixed` | backend/internal/backupasset/lease.go:530-561 | slot, creation time and deadline of a row never change, its expiry stays within the deadline and the deadline within 168 hours of creation |
| `LeaseFencing.ExplicitScopeNeverOutlived` | backend/internal/backupasset/lease.go:489-528 | if all acquisitions of a scope were explicit they share one deadline, and nothing in the scope validates at or after it |
| `LeaseFencing.DeadlineOutgrownIff` | backend/internal/backupasset/lease.go:489-528 | an acquisition gets a deadline beyond that of its scope's latest row if and only if it asks for the zero deadline and its own one lies beyond it |
| `LeaseFencing.ZeroDeadlineOutlives` | backend/internal/backupasset/lease.go:189-244 | nothing in a scope's history holds a zero deadline back: it succeeds exactly when admitted on a free slot, and validates at once |
| `LeaseFencing.HeartbeatHolds` | backend/internal/backupasset/lease.go:265-307 | a holder that renews at heartbeat intervals, and whose row neither it nor another component ends, validates, and every renewal succeeds, up to the absolute deadline, whatever else interleaves |
| `LeaseFencing.TakeoverHandsOver` | backend/internal/backupasset/lease.go:424-487 | a takeover commits exactly on an expired, active row of its owner before the deadline; the new fence validates exactly until a duration or the deadline has passed, the old one never again |
| `LeaseFencing.IssuedHolderHolds` | backend/internal/backupasset/lease.go:458-473 | over a run, whoever has acquired, taken over or renewed and beats in time keeps validating up to the absolute deadline |
| `LeaseFencing.IssueStarts` | backend/internal/backupasset/lease.go:530-561 | every committed acquisition, takeover and renewal leaves a validating fence with the whole duration ahead, up to its deadline |
| `LeaseFencing.SilentHolderLapses` | backend/internal/backupasset/lease.go:373-395 | over a run, a fence that is not renewed validates until its expiry unless somebody ends its row, and never at or after it |
| `LeaseFencing.EndingFrees` | backend/internal/backupasset/lease.go:315-409 | a release frees the slot and ends its fence, reconciling leaves nothing active past its deadline and touches nothing else, and an indexer is held up by live rows only |
| `LeaseFencing.HeldUpIff` | backend/internal/backupasset/lease.go:213-233 | exactly which active rows hold an acquisition up: live ones for the two indexers, any for the others |
| `LeaseFencing.ExplicitDeadlineIff` | backend/internal/backupasset/lease.go:496-528 | exactly which explicit deadlines are granted, and that the one asked for is the one given |
| `LeaseFencing.RefusalTells` | backend/internal/backupasset/lease.go:563-573 | a refused renewal or release reports a passed deadline exactly when the row's absolute deadline has passed |
| `LeaseFencing.LeaseService.ResolveAcquireDeadline` | backend/internal/backupasset/lease.go:489-528 | the deadline is inherited from the latest row of the scope, independent for a zero request, or refused with the source's error |
| `LeaseFencing.LeaseService.LatestInScope` | backend/internal/backupasset/lease.go:497-512 | finds the latest row of the scope by creation time and id, or none exactly when there is none |
| `LeaseFencing.LeaseService.ValidateFence` | backend/internal/backupasset/lease.go:373-395 | succeeds exactly for the fence of a live row, and otherwise tells a passed deadline from a lost fence |
| `LeaseFencing.LeaseService.Acquire` | backend/internal/backupasset/lease.go:189-244 | commits the acquisition step of the runs, indexers freeing their own abandoned slot first, or changes nothing |
| `LeaseFencing.LeaseService.Renew` | backend/internal/backupasset/lease.go:265-307 | commits the renewal step of the runs or changes nothing |
| `LeaseFencing.LeaseService.Release` | backend/internal/backupasset/lease.go:315-340 | commits the release step of the runs or changes nothing |
| `LeaseFencing.LeaseService.Takeover` | backend/internal/backupasset/lease.go:424-487 | commits the takeover step of the runs: only of an active, expired row before its deadline |
| `LeaseFencing.LeaseService.ReconcileExpired` | backend/internal/backupasset/lease.go:397-409 | expires exactly the active rows past their absolute deadline and counts them |
| `AlertRows.DirectKeysInjective` | backend/internal/alerting/delivery.go:56-58 | two direct keys are equal only for the same alert and channel |
| `AlertRows.EscalationKeysInjective` | backend/internal/alerting/delivery.go:60-62 | two escalation keys are equal only for the same alert, event and channel |
| `AlertRows.KeysNeverCollide` | backend/internal/alerting/delivery.go:56-62 | a direct key is never an escalation key |
| `DeliveryProtocol.OnlyLatestAttemptReports` | backend/internal/alerting/delivery.go:142-174 | over every interleaving a report changes the row only from the attempt claimed last and before its lease runs out |
| `DeliveryProtocol.SupersededForever` | backend/internal/alerting/delivery.go:142-174 | the late result of a superseded attempt never touches the row |
| `DeliveryProtocol.SentIsAbsorbing` | backend/internal/alerting/delivery.go:76-126 | over every interleaving with repairs a confirmed row is never claimed again, even by force, and changes in nothing but its key and decision |
| `DeliveryProtocol.FailureBudget` | backend/internal/alerting/delivery.go:176-183 | without forced retries at most the maximum number of failures is ever committed, and after the last one the row is failed, or sent by a repair |
| `DeliveryProtocol.FailedIsFinalUnforced` | backend/internal/alerting/retry.go:86-133 | without forced retries a failed row is never claimed or reported on again; only a repair that finds the delivery confirmed turns it into a sent one |
| `DeliveryProtocol.MarkedNeverClaimed` | backend/internal/alerting/delivery.go:76-126 | over every interleaving a row marked unknown stays marked and is never claimed again, even by force |
| `DeliveryProtocol.RetryWaits` | backend/internal/alerting/retry.go:13-39 | an unforced claim after a failure waits out that attempt's backoff, never less than two minutes: the first table entry is never used |
| `DeliveryProtocol.ClaimsDoNotOverlap` | backend/internal/alerting/delivery.go:76-126 | between two claims the first attempt has reported or its lease has run out |
| `DeliveryStore.AttemptHasOutcome` | backend/internal/alerting/delivery.go:188-257 | one attempt confirms the row if and only if it was claimable, both lookups succeeded, the send was made and its result came within the lease; a hopeless failure ends the row, any other is retried exactly from its backoff on until the attempts are used up, and a late result changes nothing but the claim |
| `DeliveryRepair.ConfirmedLegacyNeverResent` | backend/internal/alerting/dispatcher.go:1503-1675 | with any confirmed unkeyed row, repair from any row of the lane answers one row that cannot be claimed even by force, and repairing again changes nothing |
| `DeliveryRepair.LiveSendIsAuthority` | backend/internal/alerting/dispatcher.go:1598-1637 | while a known legacy send is live repair answers nothing claimable, so that no second send starts beside it |
| `DeliveryRepair.EligibleIff` | backend/internal/alerting/dispatcher.go:1503-1596 | exactly which rows repair lets be attempted, always with a row of the same alert and channel |
| `DeliveryRepair.RepairMovesRows` | backend/internal/alerting/dispatcher.go:1503-1714 | one repair of the table moves each row by a repair step of those runs: promoted, adopted, marked or left alone |
| `DeliveryLane.NoAttemptEverClaimed` | backend/internal/alerting/delivery.go:188-257 | from any moment at which a send of the lane is confirmed, over every interleaving of repairs, claims, reports, intents, decisions, escalations and foreign changes, nothing that repair answers from then on is claimed while the alert has no escalation history and a pending or direct decision |
| `DeliveryLane.ClaimAfterConfirmationIff` | backend/internal/alerting/delivery.go:188-214 | a claim after the confirmation wins if and only if its row was answered before the confirmation, has not been answered since and is claimable on its own |
| `DeliveryLane.InFlightClaimWins` | backend/internal/alerting/delivery.go:188-214 | a run in which that happens: a worker in flight claims after another has sent and confirmed the same notification |
| `DeliveryLane.MarksStayFinal` | backend/internal/alerting/dispatcher.go:1550-1566 | in every such run keys stay unique and an unkeyed row marked unknown belongs to an alert that is never repaired again |
| `DeliveryRepair.RepairedSentIff` | backend/internal/alerting/dispatcher.go:1598-1675 | exactly when the repaired row is a confirmed one, with and without an existing direct row, on any table |
| `DeliveryRepair.RepairKeepsKeyed` | backend/internal/alerting/dispatcher.go:1503-1596 | repair keeps ids and direct keys unique |
| `AlertRouting.DecisionIsFinal` | backend/internal/alerting/dispatcher.go:804-843 | under racing routing passes a decision that has left pending never changes |
| `AlertRouting.DirectIntentsFollowDecision` | backend/internal/alerting/dispatcher.go:861-932 | intents with a direct key exist only under a direct decision, at most one per channel |
| `AlertRouting.CommitCoversChannels` | backend/internal/alerting/dispatcher.go:804-843 | a pass that decides direct, and finds or makes that the committed decision, leaves an intent for every routed channel, adopted legacy rows included |
| `AlertRouting.EnsureProvides` | backend/internal/alerting/dispatcher.go:861-932 | whether it finds, adopts or creates, ensuring leaves an intent with the key, answers with it and loses none |
| `AlertRouting.EnsureChangesOneRow` | backend/internal/alerting/dispatcher.go:861-932 | ensuring fails exactly where a legacy row could be meant and its alert is past repair; otherwise only the answered row may change, in key and decision, and a new one is claimable at once |
| `DeliveryStore.DeliveryTable.ClaimDelivery` | backend/internal/alerting/delivery.go:76-126 | the conditional claim of the runs: exactly the claimable rows are taken, nothing else changes |
| `DeliveryStore.DeliveryTable.CompleteDelivery` | backend/internal/alerting/delivery.go:146-174 | a report is kept exactly under the reporting attempt's running lease |
| `DeliveryStore.DeliveryTable.LoadBlankRows` | backend/internal/alerting/dispatcher.go:1639-1649 | all unkeyed rows of the lane, newest first |
| `DeliveryStore.DeliveryTable.ChooseLegacyDeliveryRow` | backend/internal/alerting/dispatcher.go:1651-1675 | confirmed before live before any, then newest, never a row marked unknown; none exactly when no such row exists |
| `DeliveryStore.DeliveryTable.ReconcileCanonicalDirect` | backend/internal/alerting/dispatcher.go:1598-1637 | a direct row takes over a confirmed send, else the newest live send, of the unkeyed rows |
| `DeliveryStore.DeliveryTable.CanonicalizeDeliveryCandidate` | backend/internal/alerting/dispatcher.go:1503-1596 | commits the repair whose properties are proved above |
| `DeliveryStore.DeliveryTable.RunDeliveryAttempt` | backend/internal/alerting/delivery.go:188-257 | repair, claim, send and report as one path, each with its own instant, with every lookup and send outcome |
| `DeliveryStore.DeliveryTable.EnsureDeliveryIntent` | backend/internal/alerting/dispatcher.go:861-932 | finds, adopts the oldest known legacy row for, or creates the intent and answers with its row, or changes nothing |
| `DeliveryStore.DeliveryTable.CommitDeliveryDecision` | backend/internal/alerting/dispatcher.go:804-843 | all intents and the decision commit together or not at all |
| `TaskAlerts.OneAlertPerReceipt` | backend/internal/alerting/dispatcher.go:252-347 | whatever the order of raises, resolves and replays, a task, run and code have at most one alert |
| `TaskAlerts.NeverOpenAgain` | backend/internal/alerting/dispatcher.go:399-460 | after the resolve for a successful run no alert of a run up to it in its lane is ever open or acknowledged again |
| `TaskAlerts.ResolveTouchesOnlyEarlier` | backend/internal/alerting/dispatcher.go:399-460 | a resolve changes only the status of alerts of its task's runs up to a successful run in its lane; all others stay exactly as they were |
| `TaskAlerts.LanesDisjoint` | backend/internal/alerting/dispatcher.go:284-291 | no run is in both lanes, and drills are in neither |
| `TaskAlerts.FirstRaiseOpens` | backend/internal/alerting/dispatcher.go:252-347 | over any run the first raise of a failure whose run is the newest terminal one of its lane leaves exactly one alert for it, open |
| `TaskAlerts.AlertHasCause` | backend/internal/alerting/dispatcher.go:272-305 | every alert was opened by a raise of this very failure, when its run was the newest terminal one of its lane and had ended as expected |
| `TaskAlerts.CodesInjective` | backend/internal/alerting/dispatcher.go:216-245 | codes tell failures from verification warnings and tasks apart |
| `TaskAlerts.TaskAlertService.LatestTerminalRun` | backend/internal/alerting/dispatcher.go:287-305 | finds the newest terminal run of the lane, or none exactly when there is none |
| `TaskAlerts.TaskAlertService.RaiseFailureForCurrentRun` | backend/internal/alerting/dispatcher.go:252-347 | commits the raise of the runs for every notification window: the window never holds a raise back |
| `TaskAlerts.TaskAlertService.ResolveTaskAlertsForRun` | backend/internal/alerting/dispatcher.go:399-460 | resolves exactly the unresolved alerts of the lane's runs up to a successful run, or changes nothing |
| `KeyHistory.VersionsExact` | backend/internal/backupasset/keyring.go:92-157 | in every run a domain's versions are exactly 1..n, only version n can be active, and without an active key version n is lost |
| `KeyHistory.LossIsForever` | backend/internal/backupasset/keyring.go:494-520 | losing version n of a domain that cannot be rebuilt leaves it without an active key for ever |
| `KeyHistory.LosingNewestIsFinal` | backend/internal/backupasset/keyring.go:494-520 | from the step that marks the newest version lost the domain has no active key, no further version and refuses every request |
| `KeyHistory.LossTakesEffect` | backend/internal/backupasset/keyring.go:494-520 | a loss commits exactly on a version not lost in a domain that cannot be rebuilt, active or not, takes effect at once and changes nothing else |
| `KeyHistory.RebuildableLossTakesEffect` | backend/internal/backupasset/keyring.go:522-572 | the same for domains that can be rebuilt, once the invalidation succeeds on an active version, for exports a verify-only one too |
| `KeyHistory.RotationCommitsIff` | backend/internal/backupasset/keyring.go:270-344 | exactly which rotations commit, and that the new version is readable |
| `KeyHistory.ReplacementCommitsIff` | backend/internal/backupasset/keyring.go:346-417 | exactly which replacements commit, and that the new version is readable |
| `KeyHistory.StableDomainsKeepTheirKey` | backend/internal/backupasset/keyring.go:274-276 | the installation-stable domains that cannot be rebuilt never get a second version |
| `KeyHistory.EnsureAnswers` | backend/internal/backupasset/keyring.go:92-129 | an empty domain gets its first key; any other stays as it is and answers exactly an active key that opens |
| `KeyHistory.UnavailableForever` | backend/internal/backupasset/keyring.go:616-626 | a version refused once is refused for ever, as long as no step knows more wrapping keys |
| `KeyHistory.SpentForever` | backend/internal/backupasset/keyring.go:616-626 | a version that is lost, retired or past its window is refused for ever under any wrapping keys |
| `KeyHistory.VersionMeansOneKey` | backend/internal/backupasset/keyring.go:450-492 | two successful reads of a version give the same material, whatever rotations and rewraps lie between |
| `KeyHistory.OverlapIsExact` | backend/internal/backupasset/keyring.go:270-344 | a key rotated out is offered exactly until the granted overlap has passed (in domains other than cursor signing without end), unless it is lost |
| `KeyHistory.ReplacedNeverReturns` | backend/internal/backupasset/keyring.go:346-417 | the version a replacement retires is refused from then on under any wrapping keys |
| `KeyHistory.RewrapRetiresOldKeys` | backend/internal/backupasset/keyring.go:450-492 | after a committed rewrap every version that is not lost, old or new, opens under the primary wrapping key alone |
| `KeyHistory.EnsureReportsLossIff` | backend/internal/backupasset/keyring.go:92-129 | creating a key reports it lost if and only if the newest version is lost, or an older one is and the active key cannot be read |
| `KeyHistory.UnreadableReportedLost` | backend/internal/backupasset/keyring.go:92-129 | a run that reaches the second case: an active key that is only unreadable is reported lost |
| `KeyHistory.Keyring.ActiveKey` | backend/internal/backupasset/keyring.go:159-174 | the active key, or whether it is lost or unavailable |
| `KeyHistory.Keyring.ByVersion` | backend/internal/backupasset/keyring.go:213-231 | answers exactly the versions 1..n, each with its material or the reason it is refused |
| `KeyHistory.Keyring.Ensure` | backend/internal/backupasset/keyring.go:92-157 | commits the creation step of the runs and touches no other domain |
| `KeyHistory.Keyring.Rotate` | backend/internal/backupasset/keyring.go:270-344 | commits the rotation step, after which the new key is readable, or changes nothing |
| `KeyHistory.Keyring.ReplaceRebuildable` | backend/internal/backupasset/keyring.go:346-417 | commits the replacement step or, on a failed invalidation, changes nothing |
| `KeyHistory.Keyring.MarkLost` | backend/internal/backupasset/keyring.go:494-520 | commits the loss of exactly one version that was not lost, or changes nothing |
| `KeyHistory.Keyring.MarkRebuildableLost` | backend/internal/backupasset/keyring.go:522-572 | commits the loss of an active (for exports also verify-only) version or changes nothing |
| `KeyHistory.Keyring.RewrapDomains` | backend/internal/backupasset/keyring.go:430-492 | succeeds exactly on distinct domains whose rows all open, is all or nothing, and counts the rows that are not lost |
| `IdentityRuns.ChallengeCompletesOnce` | backend/internal/auth/identity.go:779-831 | each challenge completes at most one login |
| `IdentityRuns.RecoveryCodeOnce` | backend/internal/auth/totp.go:75-118 | between two inventories a recovery code, in any letter case, completes at most one login |
| `IdentityRuns.LoginRemovesAndConsumes` | backend/internal/auth/identity.go:742-835 | a login step that removes codes consumes exactly its own challenge, removes exactly the matching codes and touches nothing else |
| `IdentityRuns.VersionMonotone` | backend/internal/auth/identity.go:528-724 | a user's token version never decreases, and while it stays so do password, role and second factor |
| `IdentityRuns.StepVersion` | backend/internal/auth/service.go:190-347 | every committed role, password or second-factor change, offline resets included, raises the version, by one |
| `IdentityRuns.StaleClaimsNeverComplete` | backend/internal/auth/identity.go:759-776 | no challenge or enrolment issued before a security change or deletion of the user completes after it |
| `IdentityRuns.StaleLoginsNeverComplete` | backend/internal/auth/jwt.go:97-143 | nor does one issued after the change for a row that a login read before it |
| `IdentityRuns.StaleSessionsRefused` | backend/internal/auth/identity.go:565-567 | a session that fitted the user's row before a security change neither verifies a set-up nor replaces codes after it |
| `IdentityRuns.LoginStartsIff` | backend/internal/auth/account_recovery.go:69-85 | exactly which verified passwords may start a challenge or an enrolment |
| `IdentityRuns.OnlyNewestEnrolment` | backend/internal/auth/account_recovery.go:69-129 | a recovery enrolment issued before a later one of its user began never completes |
| `IdentityRuns.LaterStartWins` | backend/internal/auth/identity.go:465-526 | once a later recovery enrolment or set-up of the user has started, no enrolment id drawn before it ever completes |
| `IdentityRuns.EnrolmentCompletesOnce` | backend/internal/auth/account_recovery.go:163-248 | an enrolment completes at most once |
| `IdentityRuns.ChallengeLifetime` | backend/internal/auth/identity.go:734-774 | every login completed with a challenge goes back to its issue for this user less than five minutes before |
| `IdentityRuns.EnrolmentLifetime` | backend/internal/auth/account_recovery.go:182-190 | every completed recovery enrolment goes back to the login that began it less than ten minutes before |
| `IdentityRuns.SetupLifetime` | backend/internal/auth/identity.go:577-605 | every verified set-up goes back to its start less than ten minutes before |
| `IdentityRuns.ChallengeWorks` | backend/internal/auth/identity.go:759-831 | a challenge for the current row completes a login exactly within its time, with a one-time password or a recovery code |
| `IdentityRuns.SetupWorks` | backend/internal/auth/identity.go:465-675 | a set-up is verified exactly within its time and session, and leaves the new factor and codes |
| `IdentityRuns.EnrolmentWorks` | backend/internal/auth/account_recovery.go:69-248 | a recovery enrolment is completed exactly within its time, and leaves the new factor and codes |
| `IdentityRuns.StepTouchesSubject` | backend/internal/auth/identity.go:229-231 | no step touches another user's row or open challenges |
| `IdentityRuns.ChangesDropChallenges` | backend/internal/auth/identity.go:229-231 | every committed security change, set-up or enrolment leaves the user without an open challenge |
| `IdentityRuns.UpdateTakesEffect` | backend/internal/auth/service.go:222-346 | committed updates leave exactly the role and password asked for, deletions no row |
| `IdentityRuns.AdminGuardsIff` | backend/internal/auth/service.go:212-302 | role changes and deletions are refused for nothing but the last administrator and a deletion of oneself |
| `IdentityRuns.FactorTakesEffect` | backend/internal/auth/identity.go:345-724 | exactly when disabling and regenerating commit, and what they leave |
| `IdentityRuns.ResetTakesEffect` | backend/internal/bootstrap/account_recovery.go:186-203 | what an offline reset of the password, the second factor or both leaves |
| `IdentityRuns.AdminRemains` | backend/internal/auth/service.go:205-311 | an installation with an administrator keeps one under all updates and deletions |
| `IdentityStore.ValidateAndConsumeRecoveryCode` | backend/internal/auth/totp.go:75-118 | found exactly when some stored code matches; all matching codes are removed and the others kept in order |
| `IdentityStore.IdentityService.Complete2FALogin` | backend/internal/auth/identity.go:726-836 | commits the login step of the runs, the codes and the challenge together, or changes nothing |
| `IdentityStore.IdentityService.Generate2FAPendingToken` | backend/internal/auth/jwt.go:97-143 | registers the challenge for the row the login read and signs the same claims |
| `IdentityStore.IdentityService.FinishLogin` | backend/internal/auth/service.go:118-141 | a verified password leads to exactly one of enrolment, challenge and session |
| `IdentityStore.IdentityService.SetupTOTP` | backend/internal/auth/identity.go:465-526 | commits the set-up step and drops open challenges, or changes nothing |
| `IdentityStore.IdentityService.VerifyTOTP` | backend/internal/auth/identity.go:528-675 | commits the activation step; an expired enrolment is cleaned up although the call fails |
| `IdentityStore.IdentityService.DisableTOTP` | backend/internal/auth/identity.go:677-724 | commits the step that removes the second factor, or changes nothing |
| `IdentityStore.IdentityService.RegenerateRecoveryCodes` | backend/internal/auth/identity.go:345-463 | replaces the inventory exactly when session, baseline and row still agree |
| `IdentityStore.IdentityService.BeginRecoveryEnrollment` | backend/internal/auth/account_recovery.go:69-129 | starts an enrolment only for the row whose password was verified |
| `IdentityStore.IdentityService.CompleteRecoveryEnrollment` | backend/internal/auth/account_recovery.go:163-248 | commits the completion step of the runs or changes nothing |
| `IdentityStore.IdentityService.UpdateUser` | backend/internal/auth/service.go:190-273 | commits the update step, keeping the last administrator, or changes nothing |
| `IdentityStore.IdentityService.DeleteUser` | backend/internal/auth/service.go:275-311 | commits the deletion step, keeping the actor and the last administrator |
| `IdentityStore.IdentityService.ChangePassword` | backend/internal/auth/service.go:313-347 | commits the password step and drops open challenges, or changes nothing |
| `IdentityStore.IdentityService.RecoverAccount` | backend/internal/bootstrap/account_recovery.go:106-236 | commits the offline reset of the runs: a new password, a cleared second factor to be enrolled anew, or both |
| `CronHealth.OneOpenAlert` | backend/internal/alerting/cron_backup.go:235-311 | at most one alert of the source is open or acknowledged, and only during an active fault |
| `CronHealth.CursorOnlyAdvances` | backend/internal/alerting/cron_backup.go:246-270 | a source id once set stays and the revision mark never falls |
| `CronHealth.OneAlertPerCycle` | backend/internal/alerting/cron_backup.go:272-286 | a fault cycle has exactly one alert, the one the cursor keeps naming |
| `CronHealth.StepCreates` | backend/internal/alerting/cron_backup.go:272-286 | a step creates an alert of the source exactly when it starts a fault |
| `CronHealth.ClearsExactlyWhen` | backend/internal/alerting/cron_backup.go:292-307 | a fault ends if and only if a valid success of an admitted source at or above the mark is observed |
| `CronHealth.TroubleIsReported` | backend/internal/alerting/cron_backup.go:272-335 | an observation of a failed, interrupted, overdue, stale, skewed or invalid job, or of a fenced state, leaves an active fault, with a new open alert if there was none |
| `CronHealth.HealthStartsNothing` | backend/internal/alerting/cron_backup.go:345-347 | a running or successful job of an admitted source never starts a fault |
| `CronHealth.SilenceIsReportedIff` | backend/internal/alerting/cron_backup.go:332-368 | a job that never ran starts a fault exactly when the grace is over, an uninitialised state also once the source is known |
| `CronHealth.SilentSourceIsReported` | backend/internal/alerting/cron_backup.go:235-311 | over a run, from the first observation after the grace that is neither running nor successful, the fault is active until a success is observed |
| `CronHealth.ObservationsAdvance` | backend/internal/alerting/cron_backup.go:246-270 | an admitted, usable state moves the cursor to its source and revision, any other observation does not, and one that could not be made changes nothing |
| `CronHealth.ObservationsCommit` | backend/internal/alerting/cron_backup.go:279-301 | in every run, once enrolled, every observation commits: the branches for a missing alert are never taken |
| `CronHealth.RecoveryNeedsSuccess` | backend/internal/alerting/cron_backup.go:313-356 | wherever a fault has ended over a run, such a success was observed in between |
| `CronHealth.CronBackupWorker.Reconcile` | backend/internal/alerting/cron_backup.go:235-311 | commits the observation step of the runs with cursor and alert together, or changes nothing |
| `CronHealth.CronBackupWorker.EnrollSource` | backend/internal/alerting/cron_backup.go:169-192 | creates the cursor once and never refreshes it |
| `CronHealth.CronBackupWorker.ResolveAlert` | backend/internal/alerting/cron_backup.go:386-407 | resolves an open or acknowledged alert, leaves a resolved one, fails on a missing one |
| `RateLimiter.PruningIsInvisible` | backend/internal/api/worker_router.go:133-140 | with a non-decreasing clock the pruning limiter answers every request as one that never prunes, retry time included |
| `RateLimiter.AtMostTwiceTheLimit` | backend/internal/api/worker_router.go:116-142 | in any one-minute interval with both its ends a key is granted at most twice its limit |
| `RateLimiter.HalfOpenMinute` | backend/internal/api/worker_router.go:116-142 | without one of its ends a minute sees at most twice the limit less one |
| `RateLimiter.BoundsAreReached` | backend/internal/api/worker_router.go:121-131 | both bounds are reached, for every limit, by a burst on each side of a window's end |
| `RateLimiter.RetryAfterIsSound` | backend/internal/api/worker_router.go:125-131 | a refusal's retry time is within a second of the window's end, and from two seconds on never too short |
| `RateLimiter.PruningBoundsMemory` | backend/internal/api/worker_router.go:134-140 | after a granted request the map is small or holds only windows of the last two minutes |
| `RateLimiter.WorkerIdentityLimiter.Allow` | backend/internal/api/worker_router.go:116-142 | one request against the map of the limiter above, with a retry time of at least a second when refused |
| `CanonicalWriter.StreamInjective` | backend/internal/backupasset/canonical.go:23-62 | writes with the same kinds of field and the same bytes are equal field by field |
| `CanonicalWriter.DigestBindsFields` | backend/internal/backupasset/canonical.go:64-76 | equal digests of histories with the same kinds of field mean the same writes |
| `CanonicalWriter.DigestIff` | backend/internal/backupasset/canonical.go:64-96 | a digest is given exactly to a history of writes with no over-long text and no earlier digest, and covers all of it |
| `CanonicalWriter.NoDigestAfter` | backend/internal/backupasset/canonical.go:78-87 | after an over-long text or a digest no later call yields one |
| `CanonicalWriter.KindsMatter` | backend/internal/backupasset/canonical.go:23-49 | a concrete pair of different kinds with the same bytes: the kinds must agree |
| `CanonicalWriter.CanonicalSHA256.String` | backend/internal/backupasset/canonical.go:23-33 | one call moves the writer as in the histories above |
| `CanonicalWriter.CanonicalSHA256.HexDigest` | backend/internal/backupasset/canonical.go:64-76 | answers and finalises as in the histories above |
| `ExecutionMetadata.WrittenIsReadBack` | backend/internal/automation/dispatcher.go:347-439 | for every event, action and end the written metadata is read back exactly and fits in 1024 bytes |
| `ExecutionMetadata.ReadsBackIff` | backend/internal/automation/execution_metadata.go:57-106 | a written object is read back unchanged if and only if event, action and result allow all it says |
| `ExecutionMetadata.ReadIsAdmissible` | backend/internal/automation/execution_metadata.go:57-158 | whatever is presented, the reader lets through no id outside the event's contract, task and run only together, and only fitting stages |
| `ExecutionMetadata.ReadIsStable` | backend/internal/automation/execution_metadata.go:57-106 | what was read once is written and read unchanged |
| `ExecutionMetadata.IdSurvivesIff` | backend/internal/automation/execution_metadata.go:114-123 | an id is read as itself exactly up to 2^53-1 |
| `ExecutionMetadata.ExecutedFits` | backend/internal/automation/dispatcher.go:448-658 | every way an action can end leaves a stage and reason that fit the action and the result |
| `ExecutionMetadata.ReasonTellsEnd` | backend/internal/automation/execution_metadata.go:250-266 | each way a known action can end has a reason of its own |
| `ExecutionMetadata.AssociationsKept` | backend/internal/automation/execution_metadata.go:162-179 | ids an event knows exactly are kept under the contract of its kind |
| `ExecutionMetadata.ContextIdIff` | backend/internal/automation/execution_metadata.go:181-216 | a context value of any numeric type becomes an id exactly when it is one |
| `ExecutionMetadata.TargetIsStated` | backend/internal/automation/execution_metadata.go:221-248 | the target is recorded exactly when the configuration states the id acted on |
| `ExecutionMetadata.ReadSafeExecutionMetadata` | backend/internal/automation/execution_metadata.go:57-106 | fills the answer whose properties are proved above |
| `ExecutionMetadata.NewSafeExecutionMetadata` | backend/internal/automation/execution_metadata.go:162-216 | captures only the associations the event's producer knows |
| `ExecutionMetadata.ExecuteAction` | backend/internal/automation/dispatcher.go:347-382 | the logged object is bounded and read back as written |

## Left out

- SQL, GORM, row locking and dialects: transactions are atomic; the guards of the conditional updates are kept.
- Audit field sanitising, fingerprints and authorisation of events: an event body is opaque apart from its creation time.
- The layout of the audit hash inputs: distinct hashed fields count as distinct inputs.
- HeartbeatHolds: assumes that no other component ends the holder's row. Source lifecycles, reconcilers and workers of the catalog, search, processing, export, recovery, repository and retention packages end lease rows without a fence; the runs have a step for that, but when each of them does so is not modelled. Nor is the deletion of ended content rows by the content runtime.
- Lease id, owner and token format checks, and the retry loop around takeover.
- The lifecycle admission hook and the source-lifecycle checks of leases: the hook's answer is a parameter of a request.
- `prepareDeliveryDecision` (silences, policies, cooldown, grouping): its outcome is a parameter of the commit.
- `RetryWorker.tick` and `ManualRetry`: which row is attempted next, and whether by force, is arbitrary in the runs.
- Senders, proxies, provider acknowledgements, error texts and metrics: a send succeeds or fails, permanently or not.
- White space in delivery keys other than spaces, and in codes and enrolment ids: inputs are taken as trimmed.
- Sample clean-up (backend/internal/task/manager.go), which deletes old runs and detaches their alerts: the task-alert runs assume that run rows and the run of an alert persist.
- Alert raising that is not tied to a run, acknowledgement, resolution by error code and pruning: environment steps that create alerts without a run, move any alert forward or delete it.
- Concurrent retries of key creation: two creators are serialised.
- The load order of key rows: a domain's rows are held in version order; that versions are 1..n is proved.
- Login failure locking, password hashing, one-time-password arithmetic and session revocation storage: their answers are parameters.
- The offline reset's confirmation, reason, operation id, revoked grants and audit rows: only its change of the user is modelled.
- The retry in `Complete2FALogin`: under serialisable transactions its conflict does not arise.
- Decoding of encrypted columns and malformed recovery inventories.
- Reading the cron state files and the enrolment marker: an observation is a parameter.
- How an identity and label become a limiter key: results are per key.
- JSON text handling: the metadata reader receives each member's raw value and the object's length; member names match exactly.
- Template rendering and the legacy target parser of automation actions: the parsed target and its raw text are parameters.
- Timestamp precision of the databases, HTTP routing, the front end and build scripts.
