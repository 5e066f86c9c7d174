# Verified models of OmniPulse's message delivery backend

This project models the state machines and algorithms behind OmniPulse's campaigns
and proves what holds of them over all inputs and all runs. SQL statements are
atomic steps on maps, the message queue is a bag of tasks, and clocks, queue
acknowledgements and database failures are parameters or steps.

| module | models |
|---|---|
| `Approval` | a campaign's life: approval, brand review, edits, scheduling, dispatch |
| `Audience`, `FanOut` | the paged fan-out of a dispatch against the counting preflight |
| `DeliveryLedger`, `DeliveryRuns` | delivery rows, progress, completion, one retry at a time |
| `RetryProtocol` | concurrent retries interleaved with results, duplicates and dropped tasks |
| `OneRetry` | the protocol against the ledger's retry, results and the operator's pause |
| `SingleHands`, `StrandedRows` | when a retry can send a message twice, and when it can leave a row stuck |
| `Consent`, `OptOut` | the consent ledger, its projection, and opt-outs across components |
| `Erasure` | anonymisation and the bounded retention sweep |
| `IngestionLease` | the timed lease on knowledge ingestion jobs |
| `KnowledgeChunker`, `KnowledgeRanker` | the overlapping chunk loop and the in-place top-k ranking |
| `RateLimiter` | the fixed-window limiter with its sweep and its cap |
| `Listings` | shared facts about lists and sets |

Methods that change state are proved against functions on values (`Apply`, `Decide`,
`Record`, `Refused`, ...); the lemmas are about those functions and about runs of them.

## What the proofs found

Where the code and its own comments or messages differ, the model follows the code.

- **Who releases a campaign.** While the approval setting is on and can be read, what is sent
  has always been signed off in its current version, but not always by an owner or admin: the
  brand's own approval moves a pending campaign to approved (`review_usecase.go:295-308`). And
  a setting that cannot be read counts as off (`campaign.usecase.go:185,302`), so a member's
  draft can then go out unsigned. Both the sign-off and staff's sign-off hold all along a run
  exactly when none of the steps named for them occurs.
- **Scheduling while pending.** The use case says pending campaigns can be scheduled
  (`campaign.usecase.go:196-198`), but `SetScheduled` matches only draft and approved rows;
  `SchedulableExactlyWhen` gives the exact condition.
- **Edits must be atomic.** `UpdateContent` takes its reset flag from an earlier read. On its
  own it keeps an approval honest exactly when it resets or the campaign is not approved.
- **Times as versions.** Comparing review and revision times tells whether the brand saw the
  current content, except exactly when the last edit after its decision fell in the same instant.
- **Preflight and WhatsApp.** A campaign with Telegram destinations only makes dispatch count
  the whole tenant's WhatsApp contacts, and refuse, while preflight does not look. The two
  agree exactly outside that case (`GatesAgreeExactlyWhen`).
- **Shared routing values.** The delivery key has no platform, so a campaign whose targets
  share a routing value on two channels counts two targets and keeps one row. A campaign can
  complete exactly when results may come for as many keys as it has targets; so such a one
  never can, unless rows or tasks of earlier, aborted dispatches make up the number. Without
  repeated results some result must also be still to come: if all arrive before the dispatch
  sets the status and none can be retried, the campaign stays in processing.
- **Leftover rows and tasks.** A dispatch that aborts after emitting leaves rows and outstanding
  tasks behind. A later dispatch to distinct targets can complete before all of them have
  reported exactly when one has no row yet and the aborted one emitted a task for none of them;
  without repeated results, when moreover something else than that one target's result is still
  to come, be it the retry of a leftover row.
- **"Never published twice".** The claim's comment (`postgres_campaign.go:589-591`) can be
  broken in exactly three ways. The dispatch itself queues two tasks for one key, or one for a
  key whose row an earlier, aborted dispatch left failed and retryable; a second copy of a result
  saying "failed, may be retried" arrives while its row is being sent again; or a publish is
  stored although its caller is told that it failed. Any other duplicate is harmless.
- **Stuck rows.** A retried row can be left queued for good by exactly these: a claim takes effect
  but its answer is lost; a caller dies holding rows; a release fails; a task or its result is
  lost, as when the worker cannot read the campaign's status; a task is dropped because another
  row of its address is delivered; reopening fails, which is only logged; the campaign is
  completed between the caller's status check and its claim, so that it does not reopen; or
  "completed" is restored while another caller's rows are on the way.
- **Rate limit.** A window-long interval can hold 2 * limit - 1 admitted requests, and that is exact.
- **Consent.** No caller gives an event a time of its own, so all are stamped on arrival
  (`postgres_consent.go:37-40,53`), and a START processed after a later STOP does reactivate the
  contact, against the comment at lines 22-24. Outcomes are independent of order, repetition
  and timing exactly when the undated decisions and those at the latest time all agree.
- **Ingestion lease.** Two workers never share a job exactly when a worker stops within the
  lease. A job whose fifth worker dies stays in processing for ever.
- **Erasure.** "Suppressed from every future send" (`contact_usecase.go:158-162`) is kept for
  the row until a grant for it takes effect, but not for the person: erasing blanks the address.
  Registering or importing it again creates an active contact; on WhatsApp an active contact may
  also be moved onto it, or a grant may reach whoever was. The address is written to again
  exactly by such a step; without migrations onto it, exactly when it is registered anew.
- **Sweep.** A sweep deletes nothing exactly when a whole batch of undeletable recipients is
  older than all others, or nothing could be deleted (when deadlines are distinct).

## Model

| member | source | states |
|---|---|---|
| Approval.CampaignRow.ReviewState | apps/api-gateway/internal/domain/campaign.go:42-65 | the three review predicates as read from the row's last decision and revision time |
| Approval.CampaignRow.UpdateCampaign | apps/api-gateway/internal/usecase/campaign.usecase.go:91-114 | an edit is refused for the listed reasons in order, else raises the version and resets all but drafts |
| Approval.CampaignRow.SubmitForApproval | apps/api-gateway/internal/usecase/campaign.usecase.go:712-727 | only drafts and rejected campaigns become pending |
| Approval.CampaignRow.ApproveCampaign | apps/api-gateway/internal/usecase/campaign.usecase.go:729-747 | role, status and outstanding-changes gates in order; approval signs the current version |
| Approval.CampaignRow.RejectCampaign | apps/api-gateway/internal/usecase/campaign.usecase.go:749-766 | role, reason and status gates in order |
| Approval.CampaignRow.DecideReview | apps/api-gateway/internal/usecase/review_usecase.go:252-308 | every accepted answer is recorded; an approval moves a pending campaign |
| Approval.CampaignRow.ScheduleCampaign | apps/api-gateway/internal/usecase/campaign.usecase.go:169-201 | all gates in order, then the guarded row update |
| Approval.CampaignRow.TriggerDispatch | apps/api-gateway/internal/usecase/campaign.usecase.go:271-327 | all gates in order, the plan's quota included, then processing |
| Approval.CampaignRow.Transition | apps/api-gateway/internal/usecase/campaign.usecase.go:203-241 | cancelling a schedule or campaign, pausing and resuming move only from the named statuses |
| Approval.CampaignRow.CompleteIfDone | apps/api-gateway/internal/repository/postgres_campaign.go:356-371 | the recount completes only a processing campaign |
| Approval.CampaignRow.UpdateStatus | apps/api-gateway/internal/repository/postgres_campaign.go:280-297 | a retry's unguarded status write, on a campaign that has been executed |
| Approval.CampaignRow.GetApprovalSetting | apps/api-gateway/internal/repository/postgres_campaign.go:815-825 | only a setting that is read and on requires approval |
| Approval.ApprovalStepsExactlyWhen | apps/api-gateway/internal/usecase/campaign.usecase.go:712-766 | from which states, by whom and with what an edit, submission, approval, rejection or brand decision takes effect |
| Approval.SendingStepsExactlyWhen | apps/api-gateway/internal/usecase/campaign.usecase.go:169-327 | the same for schedule and dispatch, the quota included |
| Approval.EdgesAreExactly | apps/api-gateway/internal/usecase/campaign.usecase.go:203-241 | the only actions that change the status, with the statuses and roles they do it from |
| Approval.SignedExactlyWhen | apps/api-gateway/internal/usecase/campaign.usecase.go:729-747 | for every run: staff have signed a version iff an owner or admin approved, scheduled or sent it; the brand iff its approval met it pending |
| Approval.CoveredExactlyWhen | apps/api-gateway/internal/usecase/campaign.usecase.go:185-200 | what is approved or released is signed off in its current version all along a run iff no non-approver schedules or sends unsigned content while the setting is off or unreadable |
| Approval.ApprovalCoversWhatIsSent | apps/api-gateway/internal/usecase/campaign.usecase.go:282-310 | with the setting on and every read of it succeeding, whatever is scheduled, processing, paused or completed at any point of a run is signed off in its current version |
| Approval.UnreadableSettingSends | apps/api-gateway/internal/usecase/campaign.usecase.go:302-305 | with the setting unreadable a member's draft is sent unsigned; with it on the same dispatch changes nothing |
| Approval.StaffSignsExactlyWhen | apps/api-gateway/internal/usecase/campaign.usecase.go:729-747 | what is approved or released is signed by staff all along a run iff no brand approval or unchecked schedule or dispatch meets a version unsigned by staff |
| Approval.BrandAloneCanRelease | apps/api-gateway/internal/usecase/review_usecase.go:295-308 | a run that sends with no owner or admin involved |
| Approval.EditKeepsCoverExactlyWhen | apps/api-gateway/internal/repository/postgres_campaign.go:57-91 | an unreset edit breaks cover exactly on an approved campaign |
| Approval.SchedulableExactlyWhen | apps/api-gateway/internal/repository/postgres_campaign.go:657-670 | scheduling takes effect exactly from draft or approved, within the approval rule and a current brand approval |
| Approval.VerdictStep | apps/api-gateway/internal/domain/campaign.go:45-65 | each step keeps review times and content versions telling the same story |
| Approval.VerdictCoversWhatIsSent | apps/api-gateway/internal/usecase/campaign.usecase.go:178-183 | with increasing times, a released campaign's latest brand decision, if any, approved exactly its current version |
| Approval.TiesHideARevision | apps/api-gateway/internal/domain/campaign.go:52-52 | a run in which a decision on an earlier version still counts as current |
| Approval.ComparisonTellsExactlyWhen | apps/api-gateway/internal/domain/campaign.go:45-53 | for clocks that may stand still: the time comparison is right unless the last edit after the decision has its time |
| Approval.ContentIsFrozen | apps/api-gateway/internal/repository/postgres_campaign.go:75-76 | after dispatch no run changes version, sign-offs or reviews, so retries send the dispatched content |
| Audience.TargetsAreEligible | apps/api-gateway/internal/usecase/campaign.usecase.go:378-431 | the targets are exactly the eligible contacts, without repetition |
| FanOut.TriggerDispatch | apps/api-gateway/internal/usecase/campaign.usecase.go:329-467 | a passing dispatch emits exactly the plan and counts it; otherwise it emits nothing for a closed gate or reports an empty plan |
| FanOut.EmitSelected | apps/api-gateway/internal/usecase/campaign.usecase.go:360-402 | the paged loop over selected contacts emits exactly the targets, in order |
| FanOut.EmitBroadcast | apps/api-gateway/internal/usecase/campaign.usecase.go:403-437 | the paged broadcast loop emits exactly the targets, in order |
| FanOut.SkipsTheUnstarted | apps/api-gateway/internal/repository/postgres_campaign.go:908-937 | the skip set, read without the channel filter and only if the count is positive, skips exactly the unreachable matches |
| FanOut.RunPreflight | apps/api-gateway/internal/usecase/campaign.usecase.go:531-624 | the counts alone give the size of the plan, without clamping, and the remarks follow the counts |
| FanOut.CountContacts | apps/api-gateway/internal/usecase/campaign.usecase.go:548-599 | the part about contacts: sendable is the number of targets, whatever the three counts are |
| FanOut.TargetsByCounting | apps/api-gateway/internal/repository/postgres_campaign.go:830-904 | active rows split into targets and unstarted rows; all rows into active and opted out |
| FanOut.DispatchMatchesPreflight | apps/api-gateway/internal/usecase/campaign.usecase.go:528-531 | on one snapshot dispatch publishes preflight's number and is refused as empty exactly when that is zero |
| FanOut.PlanIsExact | apps/api-gateway/internal/usecase/campaign.usecase.go:357-451 | each eligible contact has exactly one task, no other contact has any, and a chat has one iff a selected destination there is active |
| FanOut.PlanListing | apps/api-gateway/internal/repository/postgres_telegram_destination.go:54-64 | one task per eligible contact, in listing order, then one per selected active destination, in listing order, to its chat |
| FanOut.CountsMean | apps/api-gateway/internal/repository/postgres_campaign.go:830-878 | all, active, opted out and without recorded consent: each count is the number of such contacts in the audience |
| FanOut.RemarksMean | apps/api-gateway/internal/usecase/campaign.usecase.go:555-617 | each remark is made, with its number, exactly when there is something to remark on |
| FanOut.GatesAgreeExactlyWhen | apps/api-gateway/internal/usecase/campaign.usecase.go:336-343 | dispatch's and preflight's WhatsApp answers agree exactly when contacts are selected or no active WhatsApp contact waits on a disconnected channel |
| DeliveryLedger.CampaignDeliveries.SetDispatching | apps/api-gateway/internal/repository/postgres_campaign.go:301-309 | processing, new total, progress zero, rows untouched |
| DeliveryLedger.CampaignDeliveries.RecordDeliveryResult | apps/api-gateway/internal/repository/postgres_campaign.go:311-378 | upsert, recount and completion in one step |
| DeliveryLedger.CampaignDeliveries.ClaimDeliveriesForRetry | apps/api-gateway/internal/repository/postgres_campaign.go:592-641 | exactly the failed retryable rows asked for are queued, and listed once each |
| DeliveryLedger.CampaignDeliveries.ReleaseDeliveryClaims | apps/api-gateway/internal/repository/postgres_campaign.go:645-655 | the listed rows that are still queued go back to failed |
| DeliveryLedger.CampaignDeliveries.RetryDeliveries | apps/api-gateway/internal/usecase/campaign.usecase.go:641-710 | exactly the accepted claims stay queued, everything else is as before, and the campaign is open again only if something was published |
| DeliveryLedger.Publish | apps/api-gateway/internal/usecase/campaign.usecase.go:667-691 | published and failed claims together are all claims |
| DeliveryLedger.PublishSplits | apps/api-gateway/internal/usecase/campaign.usecase.go:667-709 | retried plus released equals the total reported, as sets and as counts |
| DeliveryLedger.RollBack | apps/api-gateway/internal/repository/postgres_campaign.go:643-655 | releasing the unpublished claims undoes their claim and nothing else |
| DeliveryRuns.RowsTellTheHistory | apps/api-gateway/internal/repository/postgres_campaign.go:318-332 | in every run a row exists for exactly the keys reported, with as many attempts as results |
| DeliveryRuns.RowShowsLatestResult | apps/api-gateway/internal/repository/postgres_campaign.go:602-614 | a row shows its latest result, and is queued again only after a retryable failure |
| DeliveryRuns.ProgressIsTrue | apps/api-gateway/internal/repository/postgres_campaign.go:353-371 | after every result progress is the number of distinct targets reported and never exceeds the total |
| DeliveryRuns.ProgressStartsOver | apps/api-gateway/internal/repository/postgres_campaign.go:301-309 | after a dispatch progress is zero until the first result, whatever rows there are |
| DeliveryRuns.ResultsAreSeen | apps/api-gateway/internal/repository/postgres_campaign.go:356-371 | completion depends on the keys of the results only, not on their outcomes |
| DeliveryRuns.CompletionIsSound | apps/api-gateway/internal/repository/postgres_campaign.go:353-371 | a result that completes the campaign finds every emitted target reported, none queued and no shared row |
| DeliveryRuns.CompletableExactlyWhen | apps/api-gateway/internal/repository/postgres_campaign.go:353-371 | over any leftover rows, some continuation, in which results may be repeated, completes the campaign iff it has targets and results may come for as many keys; with nothing left over, iff its keys are distinct |
| DeliveryRuns.CompletableFreshlyExactlyWhen | apps/api-gateway/internal/usecase/campaign.usecase.go:460-464 | without repeated results: iff some result is still to come, and rows, outstanding tasks and retries together reach as many keys as targets |
| DeliveryRuns.SharedRoutingNeverCompletes | apps/api-gateway/cmd/main.go:381-382 | a campaign to two eligible contacts with one routing value on different channels completes only if a key from outside makes up the number |
| DeliveryRuns.EarlyCompletionExactlyWhen | apps/api-gateway/internal/repository/postgres_campaign.go:301-371 | over any leftover rows and earlier tasks, some continuation completes before all targets have reported iff a target has no row and results may come for more keys than targets |
| DeliveryRuns.EarlyFreshlyExactlyWhen | apps/api-gateway/internal/repository/postgres_campaign.go:301-371 | without repeated results: iff the condition for completing holds without the result of some target that has no row |
| DeliveryRuns.AbortedDispatchExactlyWhen | apps/api-gateway/internal/usecase/campaign.usecase.go:357-464 | after an aborted dispatch: iff a target has no result so far and the aborted one emitted a task for none of the targets |
| DeliveryRuns.AbortedFreshlyExactlyWhen | apps/api-gateway/internal/usecase/campaign.usecase.go:646-650 | without repeated results: iff moreover something else is outstanding or can be retried |
| DeliveryRuns.RetryDrainsOrRollsBack | apps/api-gateway/internal/usecase/campaign.usecase.go:656-701 | a retry that publishes nothing restores the ledger; one that publishes k rows completes at exactly the k-th result, in any order |
| DeliveryRuns.Drains | apps/api-gateway/internal/repository/postgres_campaign.go:356-371 | queued rows are the measure: each result removes one and only the last completes |
| RetryProtocol.SettledBetweenClaims | apps/api-gateway/internal/repository/postgres_campaign.go:592-655 | in any interleaving, duplicates and failures included, a result or a release of a row lies between any two claims of it that take effect |
| RetryProtocol.RetriesNeverExceedResults | apps/api-gateway/internal/usecase/campaign.usecase.go:650-697 | after any dispatch, in any interleaving, a row's retry publishes never exceed its claims, these its results plus releases, and the publishes its results plus unseen publishes, each with one more for a row settled at the start |
| RetryProtocol.RowCounters | apps/api-gateway/internal/repository/postgres_campaign.go:311-332 | the counts of claims, releases and results are of rows becoming queued, ceasing to be, and being attempted |
| RetryProtocol.TaskCounters | apps/api-gateway/internal/usecase/campaign.usecase.go:685-691 | the counts of publishes are of tasks added, the unseen ones of those whose caller still means to release the row |
| RetryProtocol.RestoresExactlyWhen | apps/api-gateway/internal/usecase/campaign.usecase.go:656-703 | whatever others do in between, a returning caller has counted its acknowledged publishes, and restores "completed" iff it had reopened the campaign and there was none |
| RetryProtocol.DeliveredExactlyWhen | apps/api-gateway/internal/repository/postgres_campaign.go:602-614 | in any interleaving, a row is delivered from a result that says so to the next that does not: retries never touch it |
| RetryProtocol.DroppedExactlyWhen | apps/broadcast-worker/internal/worker/broadcast_sub.go:170-199 | which tasks the worker may drop after any run: all once the campaign is completed, and those of an address some row of which was last reported delivered |
| OneRetry.UndisturbedRetry | apps/api-gateway/internal/usecase/campaign.usecase.go:641-710 | one caller's undisturbed steps lead to the rows and status the ledger's retry leaves, with exactly the accepted claims on the queue |
| OneRetry.ReportRecords | apps/api-gateway/internal/repository/postgres_campaign.go:311-378 | a result in the protocol does to the ledger what recording it does, and uses up its task |
| OneRetry.PausesAsOperated | apps/api-gateway/internal/usecase/campaign.usecase.go:203-241 | the protocol pauses and resumes exactly when the campaign's operator can |
| SingleHands.EndangeredExactlyBy | apps/api-gateway/internal/repository/postgres_campaign.go:318-332 | from a safe world, some orderly continuation of a step puts a message on the queue twice iff the step is a duplicate "failed, may be retried" for a row being sent, or a publish stored but reported as failed |
| SingleHands.SingleExactlyWhen | apps/api-gateway/internal/repository/postgres_campaign.go:589-614 | the same for whole interleaved runs |
| SingleHands.DispatchDoublesExactlyWhen | apps/api-gateway/internal/repository/postgres_campaign.go:301-309 | right after a dispatch, over any rows and tasks, a message can come to be on the queue twice iff a key has two tasks, or a task and a failed, retryable row |
| SingleHands.NeverTwiceExactlyWhen | apps/api-gateway/internal/usecase/campaign.usecase.go:650-697 | for every run from every dispatch: no point leads to a message on the queue twice iff the dispatch doubles nothing and the run is orderly |
| SingleHands.LeftoverFailureDoubles | apps/api-gateway/internal/usecase/campaign.usecase.go:646-650 | a row left failed by an aborted dispatch, dispatched again and retried at once, is on the queue twice |
| SingleHands.ClaimsAreExclusive | apps/api-gateway/internal/repository/postgres_campaign.go:589-591 | after any dispatch that doubles nothing, without duplicates and unseen publishes no row has two claimants or two queued tasks, in any interleaving |
| SingleHands.UnseenPublishDoubles | apps/api-gateway/internal/event/nats_publisher.go:146-150 | a publish stored without its acknowledgement lets the message be published again |
| SingleHands.DangersArise | apps/api-gateway/internal/usecase/campaign.usecase.go:685-697 | both dangers arise three steps after a dispatch |
| StrandedRows.StrandsExactlyWhen | apps/api-gateway/internal/usecase/campaign.usecase.go:650-703 | from a safe world with no row stuck or doomed, a step lets some row come to be stuck iff it is one of the eight named |
| StrandedRows.QueuedRowsAreAccountedFor | apps/api-gateway/internal/usecase/campaign.usecase.go:693-697 | after any dispatch, in every interleaving without those steps, duplicates included, each queued row is held or on the queue |
| StrandedRows.LosingStep | apps/api-gateway/internal/repository/postgres_campaign.go:621-639 | a claim whose answer is lost, a dying caller, a failed release or a lost task can strand a row |
| StrandedRows.StrandedForGood | apps/api-gateway/internal/repository/postgres_campaign.go:602-614 | a stuck row stays so in every run without its duplicate result, and no result completes its campaign |
| StrandedRows.FailedReopenStrands | apps/api-gateway/internal/usecase/campaign.usecase.go:656-664 | a run from a dispatch in which a failed reopening can strand the row |
| StrandedRows.StaleCheckStrands | apps/api-gateway/internal/usecase/campaign.usecase.go:642-657 | a run in which the campaign completes between status check and claim, and the row can be stranded |
| StrandedRows.RestoringStrands | apps/api-gateway/internal/usecase/campaign.usecase.go:699-703 | a run of two retries in which restoring "completed" can strand the other's row |
| StrandedRows.DroppedIsStranded | apps/broadcast-worker/internal/worker/broadcast_sub.go:180-185 | a queued row's task on the queue of a completed campaign can be dropped, and the row is then stuck |
| Consent.ConsentRepository.ApplyEvent | apps/api-gateway/internal/repository/postgres_consent.go:25-94 | append once per key, stamped on arrival if undated; project under the guard; every status still follows its latest event |
| Consent.ConsentRepository.LatestForContact | apps/api-gateway/internal/repository/postgres_consent.go:96-116 | the event with the highest time, the later recorded among equals |
| Consent.OutcomeTells | apps/api-gateway/internal/repository/postgres_consent.go:49-71 | the answer says appended iff the ledger grew, duplicate iff the key was there; all but an append changes nothing |
| Consent.ProjectionKept | apps/api-gateway/internal/repository/postgres_consent.go:73-88 | the guard compares types only, yet every contact's status stays that of its latest event |
| Consent.LedgerHoldsArrivals | apps/api-gateway/internal/repository/postgres_consent.go:49-68 | any order, repetitions and times: the ledger tells of exactly the events, of keyed ones once, each row as some arrival was stamped |
| Consent.FinalStatusIsDecisive | apps/api-gateway/internal/repository/postgres_consent.go:22-24 | the final status is that of an undated event or of one at the latest time, or the initial one |
| Consent.ConvergesExactlyWhen | apps/api-gateway/internal/repository/postgres_consent.go:37-85 | all orders, repetitions and arrival times agree iff the contact's undated decisions and those at its latest time all agree |
| Consent.UndatedEventDecides | apps/api-gateway/internal/repository/postgres_consent.go:37-53 | a new undated event sets the status, whatever was sent later but arrived before |
| Consent.DelayedStartResurrects | apps/api-gateway/internal/usecase/consent_usecase.go:100-109 | a START processed after a STOP leaves the contact active, in the other order opted out |
| OptOut.RunKeepsSuppression | apps/api-gateway/internal/repository/postgres_contact.go:54-70 | registrations, erasures, deletions and events never reactivate a contact whose latest decision is a revocation |
| OptOut.OptOutIsHonoured | apps/api-gateway/internal/usecase/campaign.usecase.go:378-431 | after any run no dispatch addresses a contact whose latest decision is a revocation |
| OptOut.ActivatedExactlyBy | apps/api-gateway/internal/repository/postgres_consent.go:73-88 | the only step that makes an existing inactive row active is a new grant the ledger then ends on |
| OptOut.ErasedRowActiveAgainExactlyWhen | apps/api-gateway/internal/usecase/contact_usecase.go:158-194 | an erased row is active again at some point of a run iff such a grant occurs in it |
| OptOut.SendableExactlyBy | apps/api-gateway/internal/service/whatsapp_manager.go:967-992 | an address comes to belong to an active contact exactly by a registration or a migration of an active contact while it is free, or by a grant to whoever has it |
| OptOut.ErasedAddressSendableAgainExactlyWhen | apps/api-gateway/internal/repository/postgres_contact.go:355-367 | an erased contact's address belongs to an active contact again at some point of a run iff such a step occurs in it |
| OptOut.RegisteredAnewExactlyWhen | apps/api-gateway/internal/usecase/contact_usecase.go:82-103 | without migrations onto the address: iff the run registers it anew |
| OptOut.ErasedThenRegistered | apps/api-gateway/internal/usecase/contact_usecase.go:82-103 | without any event, registering the erased address gives an eligible contact at it (on Telegram once it has written) |
| OptOut.AnonymizeIsErasure | apps/api-gateway/internal/repository/postgres_contact.go:355-367 | the step blanks and suppresses as the recipient row's erasure does, and touches no other contact |
| OptOut.RegisteringMeans | apps/api-gateway/internal/repository/postgres_contact.go:54-70 | a new address gets one active row; one that exists keeps its row and status |
| OptOut.MigratingMeans | apps/api-gateway/internal/service/whatsapp_manager.go:964-992 | a contact moves to a free number; if it is taken, the contact and its decisions go, and nobody else's change |
| OptOut.DeletingMeans | apps/api-gateway/internal/repository/postgres_contact.go:413-437 | a deleted contact leaves no row and no decision, and nobody else's latest decision changes |
| IngestionLease.IngestionJob.Claim | apps/api-gateway/internal/repository/postgres_ai_agent.go:592-615 | claimed exactly when queued or past the lease, with attempts left |
| IngestionLease.IngestionJob.Process | apps/api-gateway/internal/service/knowledge_ingestion_queue.go:86-144 | one delivery completes, fails or leaves the job alone; it completes only with items, and what it ends is ready or failed and keeps no upload |
| IngestionLease.ClaimedExactlyWhen | apps/api-gateway/internal/repository/postgres_ai_agent.go:592-601 | the deployed claim: queued, or claimed more than ten minutes ago, with at most four attempts made; a claim starts the lease anew |
| IngestionLease.StatusTellsTheEnd | apps/api-gateway/internal/repository/postgres_ai_agent.go:617-644 | all along a run a job is ready iff some worker completed it, and failed iff one failed or it was never queued |
| IngestionLease.DeadWorkerIsReplaced | apps/api-gateway/internal/repository/postgres_ai_agent.go:595-601 | a dead worker's job goes to the first delivery after the lease and to none before |
| IngestionLease.StepKeepsExclusive | apps/api-gateway/internal/repository/postgres_ai_agent.go:595-601 | the lease invariant, with terminal states kept and attempts never falling |
| IngestionLease.ExclusiveExactlyWhen | apps/api-gateway/internal/repository/postgres_ai_agent.go:600-600 | for all leases and worker bounds: exclusive in every run iff the bound is within the lease |
| IngestionLease.DeployedLeaseIsSafe | apps/api-gateway/internal/service/knowledge_ingestion_queue.go:68-105 | the deployed times: one worker at a time, five attempts, upload kept exactly while open, finished jobs unchanged |
| IngestionLease.AbandonedAtLastAttempt | apps/api-gateway/internal/repository/postgres_ai_agent.go:599-600 | a job whose fifth worker died is never claimed again |
| Erasure.RecipientStore.Anonymize | apps/api-gateway/internal/repository/postgres_contact.go:355-377 | blanks and suppresses the row, keeping an earlier deadline |
| Erasure.RecipientStore.FindAnonymizedExpired | apps/api-gateway/internal/repository/postgres_contact.go:381-408 | the oldest expired recipients, as many as the limit allows |
| Erasure.RecipientStore.HardDelete | apps/api-gateway/internal/repository/postgres_contact.go:413-437 | deletes and unlinks, or changes nothing |
| Erasure.RecipientStore.Sweep | apps/api-gateway/internal/service/retention_sweep.go:61-86 | what is gone is expired, oldest first, at the stated pace even when deletes fail; nothing goes iff the sweep is stuck |
| Erasure.ErasureBlanks | apps/api-gateway/internal/repository/postgres_contact.go:355-367 | an erased row is suppressed and keeps nothing of name, address or status; times already set stand |
| Erasure.ListedOldestFirst | apps/api-gateway/internal/repository/postgres_contact.go:381-408 | only expired recipients are listed, by their times, and whoever is left out has no earlier one |
| Erasure.ErasureIsIdempotent | apps/api-gateway/internal/repository/postgres_contact.go:351-354 | erasing again never moves the original time or deadline |
| Erasure.BatchProgress | apps/api-gateway/internal/service/retention_sweep.go:63-81 | a full batch does its share; a short one leaves only failing recipients |
| Erasure.SweepIsExact | apps/api-gateway/internal/service/retention_sweep.go:61-86 | without failures exactly min(expired, batches * size) go, oldest deadlines first |
| Erasure.BlockedBatch | apps/api-gateway/internal/service/retention_sweep.go:72-76 | with distinct deadlines, a batch lists only failing recipients iff a batch of them is older than all others or nothing could be deleted |
| Erasure.StuckOrNot | apps/api-gateway/internal/service/retention_sweep.go:63-81 | over any number of batches, a sweep deletes nothing iff it is stuck |
| Erasure.HistorySurvives | apps/api-gateway/internal/repository/postgres_contact.go:410-422 | no delivery row is lost, none points to a deleted recipient, others are unchanged |
| KnowledgeChunker.TrimSpace | apps/api-gateway/internal/service/ai_engine.go:676-679 | the result is a contiguous part of the text, only bytes of white space, Unicode's included, are outside it, and it neither begins nor ends with white space |
| KnowledgeChunker.ChunkKnowledgeText | apps/api-gateway/internal/service/ai_engine.go:675-709 | the error cases exactly; otherwise the chunks are the trimmed non-blank pieces of a chain of cuts reaching the end |
| KnowledgeChunker.FindBoundary | apps/api-gateway/internal/service/ai_engine.go:691-697 | the last boundary byte within the limit, or the limit |
| KnowledgeChunker.ThreeCutsAdvance | apps/api-gateway/internal/service/ai_engine.go:685-707 | any three non-final cuts advance by at least maxChars - overlap |
| KnowledgeChunker.CutCountBound | apps/api-gateway/internal/service/ai_engine.go:685-707 | at most 3 * ceil(size / (maxChars - overlap)) + 1 cuts, and a sharper bound |
| KnowledgeChunker.ShortStepsHappen | apps/api-gateway/internal/service/ai_engine.go:702-706 | one cut may advance by one byte, and two by less than a stride |
| KnowledgeChunker.CutsAdjoin | apps/api-gateway/internal/service/ai_engine.go:686-706 | no gaps, overlaps of at most `overlap` bytes, cuts of at most maxChars |
| KnowledgeChunker.SharesExactly | apps/api-gateway/internal/service/ai_engine.go:702-706 | a cut longer than the overlap shares exactly `overlap` bytes with the next, a shorter one none |
| KnowledgeChunker.EndsAtLastBreak | apps/api-gateway/internal/service/ai_engine.go:691-697 | a cut ends at the last space, newline, carriage return or tab within the limit |
| KnowledgeChunker.WhiteSpaceIsUnicodes | apps/api-gateway/internal/service/ai_engine.go:676-676 | what is trimmed is exactly the encodings of Unicode's white space |
| KnowledgeChunker.EveryByteIsKept | apps/api-gateway/internal/service/ai_engine.go:675-709 | every byte that is not part of white space lies in a returned chunk |
| KnowledgeChunker.ChunksComeFromCuts | apps/api-gateway/internal/service/ai_engine.go:698-701 | the chunks are cuts of the text in its order |
| KnowledgeChunker.ChunkFits | apps/api-gateway/internal/service/ai_engine.go:686-701 | every chunk is non-blank and at most maxChars long |
| KnowledgeRanker.ExchangeSort | apps/api-gateway/internal/service/ai_engine.go:367-373 | the in-place sort yields a descending permutation |
| KnowledgeRanker.Rank | apps/api-gateway/internal/service/ai_engine.go:301-402 | the result is the top-k selection over some descending order of the scored items, with backfill |
| KnowledgeRanker.TakeDistinct | apps/api-gateway/internal/service/ai_engine.go:375-385 | the first of each new ID, up to the room |
| KnowledgeRanker.Backfill | apps/api-gateway/internal/service/ai_engine.go:387-399 | active items with IDs not taken, in input order, up to the room |
| KnowledgeRanker.RankIsTopK | apps/api-gateway/internal/service/ai_engine.go:301-402 | distinct active IDs, scored ones first at their best score and descending; whatever scored is left out scores no more; short only when all are in |
| KnowledgeRanker.FirstDistinctIsSound | apps/api-gateway/internal/service/ai_engine.go:375-399 | selection repeats no ID and stops short only when every ID is taken |
| RateLimiter.IPRateLimiter.Allow | apps/api-gateway/internal/handler/ratelimit.go:164-194 | sweep, restart, cap and count against one decision function |
| RateLimiter.IPRateLimiter.SweepLocked | apps/api-gateway/internal/handler/ratelimit.go:197-207 | exactly the expired buckets go, and only when a window has passed |
| RateLimiter.NeverMoreThanMaxKeys | apps/api-gateway/internal/handler/ratelimit.go:178-186 | no run holds more than maxKeys buckets |
| RateLimiter.CountsItsOwnBucket | apps/api-gateway/internal/handler/ratelimit.go:172-193 | below capacity a request changes only its own bucket: restarted if its window has passed, one more if admitted; admitted iff the count is below the limit |
| RateLimiter.SweepsExactlyWhenDue | apps/api-gateway/internal/handler/ratelimit.go:197-207 | once a window has passed since the last sweep exactly the open buckets are left and the clock restarts; before, nothing changes |
| RateLimiter.FullLimiterRecovers | apps/api-gateway/internal/handler/ratelimit.go:196-207 | a full limiter whose buckets have expired counts the next new client, and it alone |
| RateLimiter.FullLimiterAdmitsNewKeys | apps/api-gateway/internal/handler/ratelimit.go:178-183 | a full limiter admits and does not count any number of requests of new clients |
| RateLimiter.SweepIsInvisible | apps/api-gateway/internal/handler/ratelimit.go:196-207 | below capacity every answer equals that of a limiter that never deletes |
| RateLimiter.SlidingWindowBound | apps/api-gateway/internal/handler/ratelimit.go:172-193 | any window-long interval admits at most 2 * limit - 1 requests of a key |
| RateLimiter.SlidingWindowBoundIsReached | apps/api-gateway/internal/handler/ratelimit.go:172-193 | for every limit some run attains that bound |
| RateLimiter.RetryAfterIsExact | apps/api-gateway/internal/handler/ratelimit.go:126-142 | a quiet refused client is admitted exactly from the announced second on |

## Left out

- Approval.CampaignRow.TriggerDispatch: reading and writing are one atomic step, as in every
  operation there, so two dispatches of one campaign never run at once;
  `EditKeepsCoverExactlyWhen` is the one statement about a stale read.
- FanOut.TriggerDispatch: counts emitted tasks, as the source does, whether or not the queue
  stored them; pages come from one snapshot in one fixed order, while the source's listing may
  change between pages and leaves ties unordered. The campaign's status and approval gates are
  in `Approval`.
- DeliveryLedger.CampaignDeliveries.RetryDeliveries: runs undisturbed with database calls that
  succeed; concurrency, a failed reopen, a failed release and a failed restore are in `RetryProtocol`.
- DeliveryRuns.CompletionIsSound: assumes results for emitted targets only and no rows from an
  earlier dispatch; `EarlyCompletionExactlyWhen` says exactly what those do.
- DeliveryLedger.CampaignDeliveries.RecordDeliveryResult: the upsert and the recount are one
  atomic step; two results recorded at once, neither counting the other's uncommitted row, are not modelled.
- StrandedRows.StrandsExactlyWhen: the worker compares the channel as well as the address before
  it drops a delivered recipient's task; the model, whose rows have no channel, drops no fewer.
- OptOut.OptOutIsHonoured: speaks of dispatches; a retry does not read the contact's status again.
- OptOut.ErasedAddressSendableAgainExactlyWhen: the address is one that is not itself of the
  placeholder form, and IDs are never reused, as the database generates them.
- Consent.ConsentRepository.ApplyEvent: the ledger's order stands for the recording time, and
  transactions take effect in the order of their clocks; evidence, source and channel columns are left out.
- Erasure.BlockedBatch: among equal deadlines the database may list either, so the converse is
  for distinct deadlines.
- KnowledgeRanker.Rank: the lexical score is a parameter.
- RateLimiter.SlidingWindowBound, and the other statements about runs: times do not run backwards
  in the order in which requests take the lock. The source reads the clock before taking it
  (`ratelimit.go:165-167`), so they may, by as much as a request waits.
- RateLimiter.IPRateLimiter.Allow: the first-match rule table, addresses and HTTP are left out; each
  class has one rule, so a key carries its rule.
- IngestionLease.IngestionJob.Process: extraction is a parameter; that a redelivery meets a lease
  longer than the queue's wait is a liveness matter, and an enqueue that failed but was stored is excluded.
- Erasure.RecipientStore.Sweep: the time is fixed during a sweep and a listing error is not modelled.
- Keyword normalisation (`consent_usecase.go`) and the merging of extracted knowledge items: simple
  filters that no other result needs.
- Tenants: one tenant's rows are modelled; the tenant filters are constant.
- Deletion of drafts, error texts, timestamps of attempts, provider message IDs and first names.
- Delivery statistics and reports: counting and rounding for display.
- The WhatsApp connection: calls into another library. Moving a contact to its phone number is in `OptOut`.
