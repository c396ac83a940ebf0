# Phera: verified models of the CRM's state machines

Phera is a CRM backend whose difficult logic lives in a few protocols over one shared database: a
transactional outbox with retries and a workflow interpreter, a mailbox poller shared by several
workers, the filing of inbound messages and calls on tickets, voice routing, and form intake. This
project models them in Dafny and proves what they promise over all inputs and all runs. Check it with
`dafny verify dfyconfig.toml`.

Each component has the same shape. Handlers that change rows are methods of a class that holds the
rows; what they leave behind is stated by a function or relation on values. What several handlers,
many deliveries or many workers do is a run of such steps, and the main results are lemmas about runs.

A handler by itself is modelled as one step. Where handlers of different transactions overlap, a second
model takes them apart: `WorkerPool` for outbox events, `PollProtocol` and `PollExactlyOnce` for mail,
`LookThenInsert` for stored messages and contacts, `TicketRace` for changes of a ticket, `IntakeRace` for
deals, `VoiceOverlap` for the choice of an agent, `OnceOnly` for the rows of calls, their events and
transcripts, `CallRace` for callbacks of one call, `WakeRace` for waiting workflow runs, and
`Notification` for sessions. "Left out" says what is still taken one after the other.

| file | component |
|---|---|
| `WorkflowEngine.dfy`, `WakeRace.dfy` | workflow graph walk and node execution, workers that wake one run |
| `Outbox.dfy`, `Dispatch.dfy`, `WorkerPool.dfy` | handling one event, one worker's batches, many workers with row locks and crashes |
| `Mailbox.dfy`, `EmailPoll.dfy`, `PollProtocol.dfy`, `PollExactlyOnce.dfy` | IMAP fetch, one poll, many pollers with stale reads and crashes, and exactly when nothing is lost |
| `ReusePolicy.dfy`, `SubjectToken.dfy`, `ShortId.dfy` | reuse policy, subject token, display ids |
| `Tickets.dfy`, `TicketRace.dfy`, `Inbound.dfy`, `TicketChoice.dfy`, `Conversation.dfy`, `LookThenInsert.dfy` | ticket lifecycle, handlers that overlap on a ticket, filing of messages and calls, which ticket a filing reuses, results over many filings, deliveries that overlap |
| `VoiceRouting.dfy`, `VoiceOverlap.dfy`, `CallRouting.dfy`, `CallLifecycle.dfy`, `CallRace.dfy`, `OnceOnly.dfy` | agent choice, selections that overlap, routing webhook, callbacks and transcription, callbacks that overlap, the insert-if-absent protocol |
| `FormIntake.dfy`, `IntakeRace.dfy` | contact and deal of a form submission, submissions that overlap |
| `History.dfy`, `Notification.dfy` | audit, outbox and timeline rows, commits and broker notifications |
| `Basics.dfy`, `Text.dfy` | shared vocabulary |

A function that specifies a method says how the rows are computed; a lemma beside it says, on the
columns alone and with the words and numbers of the code, what that comes to (`EndingMeans`,
`HandlingEnds`, `OpenGoesFirst`, `RungMeans` and others).

Time is passed in as clock readings, randomness as an arbitrary stream, and what the outside world
does (providers, other transactions, crashes) as parameters or steps of a run.

## Where the code does less than one might expect

These are properties of the code as it is; each is stated by the lemmas named.

- A watermark of 0 always asks for a baseline. So a mailbox polled while empty loses its first arrival
  (`PollExactlyOnce.FirstArrivalIsLost`), and since a worker keeps the watermark it read before its
  claim, a stale 0 loses mail even when the row is long past it (`PollExactlyOnce.StaleZeroIsLost`).
  `PollExactlyOnce.SafeIff` says exactly from which states nothing is lost or doubled. A holder that
  crashes leaves the row running, and no poll is ever finished again (`PollExactlyOnce.StalledForGood`,
  `PollExactlyOnce.StalledIff`).
- Nothing stops two rows with one provider id: overlapping deliveries of a message store it twice
  (`LookThenInsert.TwoRowsHappen`), exactly when one looks while another is between its look and its
  commit (`LookThenInsert.SecondRowIff`); from then on every delivery of the id ends in an error
  (`Conversation.DoubledIdClashes`).
- `reopen_latest`, and every policy other than `reuse_open_deal`, trips the unique index exactly when
  the contact has an open deal in the pipeline (`FormIntake.TripsIndexIff`); `reuse_open_deal` trips it
  when submissions overlap (`IntakeRace.ReuseTripsIff`, `IntakeRace.OverlapTrips`).
- A workflow whose chosen edge has an empty target, or one named "delayed", leaves its run "running"
  for good (`WorkflowEngine.StoppedRunIsStuckIff`), and a woken run waits again at its wait node
  (`WorkflowEngine.WokenRunWaitsAgain`).
- Without the maintenance queue a full batch of call.ended events blocks everything behind it
  (`Dispatch.BatchProgressIff`).
- A stored subject that already names another ticket sends replies there
  (`SubjectToken.TokenRoundTrip`, `Conversation.ForeignTokenLeadsAway`).
- A sender with neither address nor number is a new contact every time
  (`Conversation.SenderIsRecognised`).
- The reply header is not confined to the workspace, so a contact of one can end up on a ticket of
  another (`Conversation.FilingCrossesIff`, `Conversation.ForeignReplyIsFiled`).
- Handlers write only the columns they changed, on a row read without a lock. A ticket that is reopened
  while it is being closed ends closed without a resolution time, and the second of two overlapping
  replies replaces the first response time (`TicketRace.CloseAfterReopen`,
  `TicketRace.SecondReplyMovesStamp`); `TicketRace.LifecycleIff` and `TicketRace.FirstStampIff` say
  exactly which overlaps do this.
- Two first messages of a sender that overlap open two tickets (`Conversation.SecondTicketIff`,
  `Conversation.OverlapOpensTwo`); two contacts with one address shut the sender out
  (`Conversation.DoubledContactClashes`).
- Two workers may serve one wake, each writing a waiting row (`WakeRace.ServedTwiceIff`).
- A callback that ends a call enqueues nothing if the recording URL comes in an overlapping one
  (`CallRace.CompletedWithoutEventIff`, `CallRace.EndAndUrlTogether`).
- A claim changes the status without `status_entered_at` (`Tickets.StatusStampIff`), and assigning a
  user again, or updating twice within a second, is refused (`Tickets.RefusedIff`).
- Overlapping routing requests ring the same agent (`VoiceOverlap.OverlappingPicksCoincide`), which
  multiplies waiting times by at most their number (`VoiceOverlap.OverlapBoundsWait`).

## Model

| member | source | states |
|---|---|---|
| `WorkflowEngine.NodeOf` | src/phera/modules/workflows/engine.py:72-75 | the node an id stands for is the last node of the list with that id |
| `WorkflowEngine.OutEdge` | src/phera/modules/workflows/engine.py:155-158 | the edge followed is the first one that leaves the node, and there is none only if no edge leaves it |
| `WorkflowEngine.FirstTrigger` | src/phera/modules/workflows/engine.py:166-169 | a fresh run enters at the first node of kind "trigger" |
| `WorkflowEngine.SuccessorFollowsFirstEdge` | src/phera/modules/workflows/engine.py:155-177 | one node leads to another exactly if it is in the graph, is no wait, and its first edge targets the other; an empty target or the word "delayed" leads nowhere |
| `WorkflowEngine.WalkIsUnique` | src/phera/modules/workflows/engine.py:161-177 | the interpreter has no choice: two walks from one node agree as far as both go |
| `WorkflowEngine.LongWalkRepeats` | src/phera/modules/workflows/engine.py:170-177 | pigeonhole: a walk of more entries than nodes plus one enters some node twice |
| `WorkflowEngine.StoppingWalkHasNoRepeat` | src/phera/modules/workflows/engine.py:170-177 | a walk that stops never entered a node twice |
| `WorkflowEngine.RepeatGoesOn` | src/phera/modules/workflows/engine.py:170-177 | a walk that enters a node twice can be continued for ever: from its start there are walks of any length |
| `WorkflowEngine.FollowIsWalk` | src/phera/modules/workflows/engine.py:170-177 | following successors for n steps is a walk that stopped or has n + 1 entries |
| `WorkflowEngine.HaltsIffNoRevisit` | src/phera/modules/workflows/engine.py:161-177 | the walk from a node ends exactly when it never enters a node twice, and then within as many executions as there are nodes, plus one dangling end |
| `WorkflowEngine.WalkStaysWithin` | src/phera/modules/workflows/engine.py:161-177 | a walk is a prefix of the stopping walk from the same node |
| `WorkflowEngine.StoppedRunIsStuckIff` | src/phera/modules/workflows/engine.py:150-158 | a run that stopped still reads "running" exactly when the first edge out of its last node has an empty or "delayed" target; with usable targets every stop is a real end |
| `WorkflowEngine.WokenRunWaitsAgain` | src/phera/worker/runner.py:123-137 | a run woken at its wait node enters that node again and waits again, unless the wait is named "trigger" and is not the first trigger |
| `WakeRace.StepIsLookThenInsert` | src/phera/worker/runner.py:125-136 | picking up a due run, executing its wait node and committing are the steps of a look, a write and a commit without a lock |
| `WakeRace.ServedTwiceIff` | src/phera/worker/runner.py:125-136 | a wake is served twice, with a waiting row each time, exactly if one worker selected the run while another was between its selection and its commit |
| `WakeRace.TwoWaitingRows` | src/phera/worker/runner.py:125-136 | from any state with a due run and two idle workers: a run that writes two waiting rows for one wake |
| `WorkflowEngine.WorkflowRun.constructor` | src/phera/modules/workflows/engine.py:38-66 | a started run is running at the trigger, without node rows |
| `WorkflowEngine.EndingMeans` | src/phera/modules/workflows/engine.py:100-158 | how a running run ends at a node: failed exactly if its action raised, waiting exactly if it did not and the node is a wait, completed exactly if it did not and no edge leaves the node or the id is in no node |
| `WorkflowEngine.LastRowMeans` | src/phera/modules/workflows/engine.py:75-152 | the row of the last node: none for an id that is in no node, else failed, waiting or completed just as the execution ended |
| `WorkflowEngine.EntryMeans` | src/phera/modules/workflows/engine.py:161-169 | a run without a current node, or with the word it was started with, enters at the first trigger, any other where it stands |
| `WorkflowEngine.WorkflowRun.ExecuteNode` | src/phera/modules/workflows/engine.py:69-158 | one node execution: the row it writes, the wake time of a wait, the node it leads to, and the status it leaves: failed exactly if it raised, waiting exactly at a wait, completed exactly at an end |
| `WorkflowEngine.WorkflowRun.ContinueRun` | src/phera/modules/workflows/engine.py:161-177 | the nodes entered are exactly the first-edge walk from the entry, in order, up to the first wait, sink, dangling target or exception; a run that was running ends failed exactly if it raised, waiting exactly at a wait node, completed exactly at an end, and the last node row says the same |
| `Outbox.RStripStars` | src/phera/modules/workflows/matching.py:12-16 | stripping stars leaves a prefix without a final star and removes nothing but stars |
| `Outbox.WildcardMatchesPrefixes` | src/phera/modules/workflows/matching.py:4-16 | a filter `deal.*`, with any number of stars, accepts exactly the event types that begin with `deal.` |
| `Outbox.TriggerMeans` | src/phera/modules/workflows/matching.py:4-16 | which workflows an event starts: active and published ones of its workspace, without a filter, or whose filter lists the type or a prefix of it followed by stars |
| `Outbox.MatchingAtMeans` | src/phera/modules/workflows/engine.py:31-34 | the matching positions ascend, and a position is among them exactly if its workflow is active, published, of the workspace, and accepts the type |
| `Outbox.MatchWorkflows` | src/phera/modules/workflows/engine.py:22-35 | the result lists the ids at the matching positions, each once and in the order of the query |
| `Outbox.IdempotencyKeyIsInjective` | src/phera/modules/workflows/engine.py:41-50 | two runs share an idempotency key only if they belong to one workflow and one event |
| `Outbox.OutboxRow.StartWorkflowRun` | src/phera/modules/workflows/engine.py:38-66 | a run that exists is not started again; a malformed payload id raises before any row |
| `Outbox.OutboxRow.ProcessOutboxEvent` | src/phera/worker/runner.py:61-98 | one handling: the runs added, the new status and the attempt count, for success, failure and a skipped call.ended |
| `Outbox.AttemptKeepsBounds` | src/phera/worker/runner.py:61-98 | no handling gives a workflow a second run, leaves a row queued, or lets attempts pass five on a row that is not dead |
| `Outbox.SixAttemptsEnd` | src/phera/worker/runner.py:91-96 | whatever fails, six handlings end every event: processed, or dead with exactly six attempts |
| `Outbox.LoopBurnsAtMostOne` | src/phera/worker/runner.py:70-75 | the workflow loop completes every match or stops at one failing workflow that had no run before |
| `Outbox.LoopRaisesIff` | src/phera/worker/runner.py:70-75 | the workflow loop is left by an exception exactly if some match without a run is malformed or failing |
| `Outbox.HandlingEnds` | src/phera/worker/runner.py:61-98 | an event that is not skipped ends processed exactly if no match without a run is malformed or failing and no later step raises; otherwise one more attempt is counted, and the sixth is the last; a skipped one is put back |
| `Outbox.AttemptKeepsAccount` | src/phera/worker/runner.py:61-98 | attempts always equal the number of failing workflows that already have their run |
| `Outbox.RetriesMeetIdempotency` | src/phera/worker/runner.py:61-98 | in any match order on each attempt: at most one run per workflow; at most five failing workflows end processed with exactly one run per match, six or more end dead with six attempts |
| `Outbox.MalformedPayloadDies` | src/phera/worker/runner.py:61-98 | an event whose payload ids do not parse dies after six attempts without any run |
| `Outbox.LaterFailuresKill` | src/phera/worker/runner.py:76-98 | when a later step raises on every attempt the event is dead after six attempts, whatever its workflows do |
| `Dispatch.FirstPending` | src/phera/worker/runner.py:31-44 | the batch holds at most `limit` pending ids without repetition, and all of them if there are fewer |
| `Dispatch.FirstPendingIsOldest` | src/phera/worker/runner.py:34-40 | no pending event is passed over for a younger one |
| `Dispatch.OutboxTable.HandleOne` | src/phera/worker/runner.py:45-58 | one turn of the batch loop: a row this worker may take is marked queued and handled |
| `Dispatch.OutboxTable.HandleAll` | src/phera/worker/runner.py:45-58 | the loop handles every row of the batch once, as it was when the batch began |
| `Dispatch.OutboxTable.DispatchOutboxBatch` | src/phera/worker/runner.py:31-58 | one batch: the table after it, and when nothing was claimed |
| `Dispatch.OutboxTable.RunUntilDrained` | src/phera/worker/runner.py:217-255 | a worker with the maintenance queue ends with every event processed or dead, handles none more than six times, and leaves settled rows alone |
| `WorkflowEngine.WalkAddsNoEvent` | src/phera/modules/workflows/engine.py:106-129 | however far a workflow walks, its nodes write audit rows only, one for each update_field node of a run with a deal, and no outbox event: draining makes no new work |
| `Dispatch.TurnsAreBatch` | src/phera/worker/runner.py:45-58 | turn after turn amounts to handling every row of the batch independently |
| `Dispatch.BatchProgressIff` | src/phera/worker/runner.py:31-58 | a batch lowers the sum of 6 - attempts over pending events exactly when it holds an event this worker may take; a batch of call.ended events blocks a worker without the maintenance queue |
| `Dispatch.DrainStep` | src/phera/worker/runner.py:31-58 | each batch raises the handling count of exactly its events, in step with their attempts |
| `WorkerPool.StepKeepsInv` | src/phera/worker/runner.py:31-58 | every step of every worker keeps: locks disjoint, working copies equal to the committed rows until changed, no committed row queued |
| `WorkerPool.SettledIsAbsorbing` | src/phera/worker/runner.py:61-98 | no step changes a processed or dead row, and none removes a row |
| `WorkerPool.PoolIsSafe` | src/phera/worker/runner.py:31-58 | over any interleaving with crashes: no event in two open transactions, no committed row queued, at most one committed terminal move per event, at most one run per workflow |
| `WorkerPool.SettledForever` | src/phera/worker/runner.py:61-98 | processed and dead are for ever |
| `WorkerPool.StepKeepsAccount` | src/phera/worker/runner.py:61-98 | the account of attempts and failing workflows survives every step of every worker |
| `WorkerPool.EndsAreDecidedByFailures` | src/phera/worker/runner.py:61-98 | the retry bound holds in every interleaving of any number of workers |
| `Mailbox.WatermarkIsUnique` | src/phera/modules/connectors/imap_smtp.py:126-140 | there is one watermark: the largest fetched UID, or the old one |
| `Mailbox.AboveMembers` | src/phera/modules/connectors/imap_smtp.py:113-126 | a search from a UID that is not past the end finds exactly the messages at or above it |
| `Mailbox.NewMailsMembers` | src/phera/modules/connectors/imap_smtp.py:126-140 | a fetch returns exactly the fetchable messages above the watermark |
| `Mailbox.NewMailsAscend` | src/phera/modules/connectors/imap_smtp.py:126-140 | they come in the order of arrival, each once |
| `Mailbox.FilterUndoesWrapAround` | src/phera/modules/connectors/imap_smtp.py:126 | the filter on the UIDs undoes the wrap-around of `n:*` past the end of the mailbox (section 6.4.8 of RFC 3501) |
| `Mailbox.UnfilteredSearchRepeats` | src/phera/modules/connectors/imap_smtp.py:126 | without the filter every poll of a mailbox with nothing new would deliver its last message again |
| `Mailbox.FetchNewMessages` | src/phera/modules/connectors/imap_smtp.py:113-140 | a baseline fetch returns nothing and UIDNEXT - 1; any other returns the new messages in order and their watermark |
| `EmailPoll.IngestAllExtends` | src/phera/modules/tickets/email_poll.py:112-154 | ingesting message by message is ingesting the whole list, and only adds rows |
| `EmailPoll.IngestedIds` | src/phera/modules/tickets/email_poll.py:112-154 | what the table holds after a fetch: what it held, and the Message-IDs of the fetched messages that are not from the own address and resolve |
| `EmailPoll.IngestedCount` | src/phera/modules/tickets/email_poll.py:112-154 | a fetch adds exactly one row for each message that is not from the own address, resolves, and whose Message-ID, if it has one, is neither stored nor carried by such a message earlier in the fetch |
| `EmailPoll.DueMeans` | src/phera/modules/tickets/email_poll.py:70-82 | a row that is held is not polled, nor one whose interval has not passed, and every other one is |
| `EmailPoll.WatermarkIsTheWatermark` | src/phera/modules/connectors/imap_smtp.py:128-140 | the computed maximum is the watermark |
| `EmailPoll.EmailAccount.IngestMessage` | src/phera/modules/tickets/inbound.py:326-348 | one message adds one row unless it does not resolve or its Message-ID is stored |
| `EmailPoll.EmailAccount.PollOnce` | src/phera/modules/tickets/email_poll.py:45-165 | one undisturbed poll: when it does nothing, how errors are recorded, and table, watermark and count after a success: as many rows as there are new messages above the watermark, not from the own address, that resolve, less the Message-IDs already stored or earlier in the fetch |
| `PollProtocol.AlwaysExclusive` | src/phera/modules/tickets/email_poll.py:84-94 | whatever the watermark, at most one worker is between claim and release |
| `PollProtocol.StepClimbs` | src/phera/modules/tickets/email_poll.py:55-164 | from a watermark above 0 every step keeps: nobody carries a value past the watermark but the holder about to raise it |
| `PollProtocol.WatermarkNeverDecreases` | src/phera/modules/tickets/email_poll.py:156-164 | in a run that starts above 0 with idle workers last_uid never decreases, stale readers included |
| `PollProtocol.OnlyInboundIsStored` | src/phera/modules/tickets/email_poll.py:112-154 | over any run every row added carries the Message-ID of a mailbox message with raw bytes that is not from the own address and resolves |
| `PollProtocol.UndisturbedPollRuns` | src/phera/modules/tickets/email_poll.py:45-165 | the poll of PollOnce is a run of the protocol |
| `PollExactlyOnce.StepKeepsSound` | src/phera/modules/tickets/email_poll.py:55-165 | every step keeps: a stale watermark above the row's has nothing to fetch in between, and a fetch from a positive one passes over nothing |
| `PollExactlyOnce.ReachableIsSound` | src/phera/modules/tickets/email_poll.py:45-165 | a run that starts with idle workers, at any watermark, stays within the states the results below speak of |
| `PollExactlyOnce.StalledForGood` | src/phera/modules/tickets/email_poll.py:70-71 | once a holder is gone and the row reads running, in every run row and messages stay as they are, and nobody finishes or gives up a poll |
| `PollExactlyOnce.StalledIff` | src/phera/modules/tickets/email_poll.py:70-71 | a state is stalled exactly if no run from it ever finishes a poll |
| `PollExactlyOnce.StepKeepsInv` | src/phera/modules/tickets/email_poll.py:55-165 | with no zero in play every step keeps every message above the starting watermark stored, or still to be stored by the holder |
| `PollExactlyOnce.StaleZeroLoses` | src/phera/modules/tickets/email_poll.py:103 | a worker about to claim with a zero it read earlier loses the next message, whatever the row says by then |
| `PollExactlyOnce.StoredZeroLoses` | src/phera/modules/tickets/email_poll.py:103 | a stored zero loses the next message |
| `PollExactlyOnce.SafeIff` | src/phera/modules/tickets/email_poll.py:55-165 | from any reachable state: in every run every message above the present watermark that must be ingested gets exactly one row, if and only if no zero is stored, carried or being turned into a baseline over something, or no poll will ever finish |
| `PollExactlyOnce.SafeBetweenPollsIff` | src/phera/modules/tickets/email_poll.py:55-165 | between polls: exactly if last_uid is positive and no worker is about to claim with a zero |
| `PollExactlyOnce.FirstArrivalIsLost` | src/phera/modules/tickets/email_poll.py:103 | a run in which a mailbox is polled while empty, and its first message is passed over by the second poll |
| `PollExactlyOnce.StaleZeroIsLost` | src/phera/modules/tickets/email_poll.py:84-103 | a run after a failed first fetch in which the watermark is already 5 and a second worker, claiming with a stale zero, passes over message 6 |
| `SubjectToken.OccursIsMatch` | src/phera/modules/tickets/inbound.py:28 | the greedy pattern matches at a place exactly if a bracketed id of six digits, a dash and four to six digits stands there |
| `SubjectToken.SearchMeans` | src/phera/modules/tickets/inbound.py:198-200 | the search finds the first bracketed id of the subject, and nothing only if there is none |
| `SubjectToken.PrefixIsTransparent` | src/phera/modules/tickets/inbound.py:198-200 | a prefix without an opening bracket changes nothing |
| `SubjectToken.NoStraddle` | src/phera/api/routes/tickets.py:420-424 | no match straddles the appended space |
| `SubjectToken.AppendedTokenIsFound` | src/phera/api/routes/tickets.py:420-424 | an appended token is found if and only if no other stands before it |
| `SubjectToken.TokenRoundTrip` | src/phera/api/routes/tickets.py:420-424 | the printed subject behind any bracket-free prefix leads back to the ticket's id if and only if the stored subject's first token, if any, is its own |
| `SubjectToken.OwnTokenRoundTrip` | src/phera/api/routes/tickets.py:420-424 | in particular for every subject without foreign tokens |
| `SubjectToken.OutboundMeans` | src/phera/api/routes/tickets.py:420-424 | the printed subject is the stored one, or "Support reply", with the bracketed display id behind it unless it stands in there already |
| `ShortId.PaddedRoundTrip` | src/phera/modules/tickets/short_id.py:41 | the zero-padded suffix determines the drawn number |
| `ShortId.CandidateForm` | src/phera/modules/tickets/short_id.py:39-41 | every candidate has the form YYMMDD-NNNNNN, and different draws of a day give different ids |
| `ShortId.PickIsFirst` | src/phera/modules/tickets/short_id.py:39-43 | the id taken is the first of the draws that nobody has |
| `ShortId.CommitOthersGrow` | src/phera/modules/tickets/short_id.py:56-83 | other transactions only add rows and keep ids distinct |
| `ShortId.CommitsAppend` | src/phera/modules/tickets/short_id.py:56-83 | what other transactions commit takes effect in their order, each turned away if its id is taken by then |
| `ShortId.Session.GenerateTicketShortId` | src/phera/modules/tickets/short_id.py:33-50 | the first free id of ten draws, well formed; none exactly if all ten are taken |
| `ShortId.Session.InsertInSavepoint` | src/phera/modules/tickets/short_id.py:68-82 | a taken id unwinds to the savepoint and no further |
| `ShortId.DecidedIff` | src/phera/modules/tickets/short_id.py:65-83 | it gives up over races exactly if all three rounds are lost to one, and otherwise ends as the first round that is not |
| `ShortId.Session.InsertTicketWithShortId` | src/phera/modules/tickets/short_id.py:56-83 | for any random stream and any concurrent commits: stored and reserved ids stay distinct and of the form YYMMDD-NNNNNN, success adds exactly this ticket, every failure leaves the pending work unchanged, and which of the three ends it comes to |
| `ShortId.ValidMeans` | src/phera/modules/tickets/short_id.py:56-83 | in a valid session no two tickets, stored or pending, share a display id, and every one has the form YYMMDD-NNNNNN |
| `ReusePolicy.ParseTicketReuse` | src/phera/modules/tickets/reuse_policy.py:106-120 | parsing any JSON value gives its normal form |
| `ReusePolicy.ParseIsIdempotent` | src/phera/modules/tickets/reuse_policy.py:106-120 | parsing the normal form again gives the same policy |
| `ReusePolicy.OverrideIsNormal` | src/phera/modules/tickets/reuse_policy.py:93-103 | a channel override is in range and reads back as itself |
| `ReusePolicy.FieldsOverrideIndependently` | src/phera/modules/tickets/reuse_policy.py:123-142 | the effective window lies in [60, 31536000], and each field comes from the channel if the channel has it, else from the workspace |
| `ReusePolicy.ClampMeans` | src/phera/modules/tickets/reuse_policy.py:48-53 | a window below 60 seconds becomes 60, one above 31536000 becomes 31536000, and any other stands |
| `ReusePolicy.OverrideMeans` | src/phera/modules/tickets/reuse_policy.py:123-142 | each field a channel kind sets takes the place of the workspace's, each field it does not set leaves it |
| `Tickets.TicketRow.UpdateTicket` | src/phera/api/routes/tickets.py:134-180 | the row after an update, timestamps included; a second change within one second is refused and leaves it alone |
| `Tickets.TicketRow.AssignTicket` | src/phera/api/routes/tickets.py:185-217 | the row after an assignment; assigning a user again is refused and leaves it alone |
| `Tickets.TicketRow.ClaimTicket` | src/phera/api/routes/inbox.py:105-121 | the row after a claim: open and assigned, without a new status_entered_at |
| `Tickets.TicketRow.RecordReply` | src/phera/api/routes/tickets.py:442-451 | the row after a reply: first response stamped once, and an unassigned ticket taken by the replier |
| `Tickets.TicketRow.RecordCallStart` | src/phera/api/routes/calls.py:75-81 | the row after an outbound call was started |
| `Tickets.TicketRow.RouteTo` | src/phera/api/routes/voice_hooks.py:253-256 | the row after an inbound call was routed to an agent |
| `Tickets.TicketRow.ApplyReopenAssignee` | src/phera/modules/tickets/inbound.py:269-283 | who keeps a reopened ticket |
| `Tickets.TicketRow.ReceiveContact` | src/phera/modules/tickets/inbound.py:310-317 | a done ticket is reopened, and any ticket touched, when a message or call is filed on it |
| `Tickets.UpdateMeans` | src/phera/api/routes/tickets.py:134-180 | column by column: an update sets what it gives, stamps the status, resolution and closing it changed, and leaves a ticket it does not change alone |
| `Tickets.ReplyAndCallMean` | src/phera/api/routes/tickets.py:442-451 | a reply stamps the first response, and reply and call give a ticket nobody has to a known actor and no other |
| `Tickets.ContactMeans` | src/phera/modules/tickets/inbound.py:269-317 | contact reopens a resolved or closed ticket and only touches any other; the reopened ticket keeps its assignee exactly if the policy is not "queue" and the assignee is listed or no agent is |
| `Tickets.ActionKeepsLifecycle` | src/phera/api/routes/tickets.py:147-154 | every step keeps the lifecycle, the write-once stamps and the identity of the ticket |
| `Tickets.LifecycleHolds` | src/phera/api/routes/tickets.py:147-154 | over every run of steps, one after the other: closed implies closed_at and resolved_at, resolved implies resolved_at, assigned implies first_assigned_at; the two first-stamps never change once set |
| `Tickets.StampsAreFirsts` | src/phera/api/routes/tickets.py:442-451 | steps one after the other: first_response_at is the time of the first reply and first_assigned_at that of the first step that assigns, and neither is set without one |
| `Tickets.StatusStampIff` | src/phera/api/routes/inbox.py:116-119 | status_entered_at is the time of the last status change exactly if that change was not a claim of a ticket that was not open |
| `Tickets.RequestsAreActions` | src/phera/api/routes/tickets.py:134-217 | refused requests leave nothing behind: any requests come to what the accepted ones among them come to |
| `Tickets.RefusedIff` | src/phera/api/routes/tickets.py:209 | an assignment is refused exactly if its user was assigned before, and a changing update exactly if one came before it in the same second |
| `TicketRace.UndisturbedIsAction` | src/phera/api/routes/tickets.py:134-180 | a read and a commit with nothing in between are the step of the handler by itself |
| `TicketRace.MergeMeans` | src/phera/api/routes/tickets.py:134-180 | a commit writes the columns its handler changed and leaves in the others what was committed meanwhile |
| `TicketRace.MovesIffOverlap` | src/phera/api/routes/tickets.py:444-451 | a commit changes a first stamp that is set exactly if its handler sets it, read the row before another one committed the stamp, and reads another clock |
| `TicketRace.FirstStampIff` | src/phera/api/routes/tickets.py:444-451 | with overlapping handlers: a first stamp never changes once set, exactly if no two handlers that set it overlap in this way |
| `TicketRace.AssignedIsAlwaysStamped` | src/phera/api/routes/tickets.py:195-198 | whatever overlaps, a ticket with an assignee has its first assignment stamped |
| `TicketRace.LifecycleStepIff` | src/phera/api/routes/tickets.py:147-154 | a commit breaks the lifecycle exactly if it resolves or closes a ticket it read with a resolution time that is gone by then |
| `TicketRace.LifecycleIff` | src/phera/modules/tickets/inbound.py:355-360 | with overlapping handlers: the lifecycle holds throughout exactly if no handler that resolves or closes the ticket overlaps with the message or call that reopens it |
| `TicketRace.CloseAfterReopen` | src/phera/api/routes/tickets.py:147-154 | any resolved ticket: reopened by a message while it is being closed, it ends closed without a resolution time |
| `TicketRace.SecondReplyMovesStamp` | src/phera/api/routes/tickets.py:444-445 | any unanswered ticket: of two overlapping replies the second replaces the first response time |
| `Inbound.Helpdesk.FindOrCreateContact` | src/phera/modules/tickets/inbound.py:132-177 | the contact found by email, else by phone, with its blanks filled; else a new one; several hits are an error |
| `TicketChoice.SenderMeans` | src/phera/modules/tickets/inbound.py:137-177 | the sender is the only live contact of the workspace with its email address; if none has it, the only one with its number; if none has that, a new contact with what the message says |
| `TicketChoice.SeveralMeans` | src/phera/modules/tickets/inbound.py:139-157 | the lookup is refused exactly if two live contacts share the email address, or, where none has it, the number |
| `TicketChoice.KnownIsKept` | src/phera/modules/tickets/inbound.py:158-165 | a known contact keeps its name and addresses and learns only those it lacks; no other contact changes |
| `Inbound.BestExists` | src/phera/modules/tickets/inbound.py:226-245 | among recent tickets there is a best one: open first, then latest activity |
| `Inbound.Helpdesk.FindTarget` | src/phera/modules/tickets/inbound.py:180-247 | the ticket replied to, else the one the subject names, else the best recent one, else none |
| `Inbound.Helpdesk.ReuseOrCreateTicket` | src/phera/modules/tickets/inbound.py:180-266 | the target of the simple specification, or a new open ticket with a new display id |
| `Inbound.Helpdesk.Receive` | src/phera/modules/tickets/inbound.py:355-360 | the target is reopened if done, and touched |
| `Inbound.Helpdesk.Resolve` | src/phera/modules/tickets/inbound.py:350-360 | contact and ticket of one filing together; a failure of either leaves both tables as they were |
| `Inbound.Helpdesk.IngestInboundMessage` | src/phera/modules/tickets/inbound.py:321-403 | a stored provider id is a duplicate and changes nothing; otherwise contact, target and one message row; every failure leaves all rows as they were |
| `Inbound.Helpdesk.ResolveCallTicket` | src/phera/modules/tickets/inbound.py:286-318 | the same for a call, which carries a number only and leaves no message |
| `TicketChoice.AnswersIff` | src/phera/modules/tickets/inbound.py:188-196 | the target of the reply header is the ticket of the only message with that id, if its status is open, pending or waiting, or a done one the policy reopens |
| `TicketChoice.ReplyGoesFirst` | src/phera/modules/tickets/inbound.py:188-196 | a message that answers a stored one is filed on that one's ticket, whatever else fits |
| `TicketChoice.TokenGoesSecond` | src/phera/modules/tickets/inbound.py:198-209 | a message that answers none but names a ticket of the workspace is filed on a ticket it names |
| `TicketChoice.OpenGoesFirst` | src/phera/modules/tickets/inbound.py:211-247 | otherwise a ticket is reused exactly if the contact has a reusable recent one on the channel; if any such ticket is open, pending or waiting, it is one of these and none of them was active later; else it is the latest active of the done ones |
| `TicketChoice.ReopenedOnlyIfNoneOpen` | src/phera/modules/tickets/inbound.py:226-230 | a done ticket is reopened only if the conversation has no recent open one |
| `TicketChoice.NewTicketMeans` | src/phera/modules/tickets/inbound.py:249-266 | a new ticket is open, unassigned, without first stamps, under a display id no ticket has |
| `TicketChoice.NewSubjectMeans` | src/phera/modules/tickets/inbound.py:249-264 | its subject is the message's, or what the message begins with, or how it came and from whom |
| `TicketChoice.ReusedTicketMeans` | src/phera/modules/tickets/inbound.py:351-360 | a reused ticket ends open and touched, without the times of its end if it was done, and no other ticket changes |
| `TicketChoice.NoShortIdMeans` | src/phera/modules/tickets/inbound.py:180-266 | a filing fails for want of a display id only if no ticket is answered, named or reusable |
| `Conversation.ChoiceExists` | src/phera/modules/tickets/inbound.py:180-266 | the specification always has a choice |
| `Conversation.ChoiceIsDetermined` | src/phera/modules/tickets/inbound.py:180-266 | two different choices are a tie of equally open, equally active recent tickets |
| `Conversation.FilingFollowsPolicy` | src/phera/modules/tickets/inbound.py:351-360 | the target had an allowed status and ends open, pending or waiting; every other ticket is unchanged |
| `Conversation.ShutStaysShut` | src/phera/modules/tickets/reuse_policy.py:36-45 | over any run of messages and calls a ticket whose status no policy allows is never changed |
| `Conversation.ClosedStaysClosed` | src/phera/modules/tickets/reuse_policy.py:36-45 | with reopen_closed off no closed ticket is ever changed |
| `Conversation.FilingsKeepSound` | src/phera/modules/tickets/inbound.py:321-403 | over any run of filings: display ids distinct, lifecycles sound, first-stamps kept, tickets never moved to another contact |
| `Conversation.SenderIsRecognised` | src/phera/modules/tickets/inbound.py:132-177 | the next message from the same address is the same contact's, and changes nothing about it, exactly when it carries an email address or a phone number |
| `Conversation.FilingTakesLead` | src/phera/modules/tickets/inbound.py:226-247 | a plain filing leaves its ticket open and strictly the most recent of the conversation |
| `Conversation.LeadIsChosen` | src/phera/modules/tickets/inbound.py:211-247 | that ticket is the only choice of the next plain filing within the window |
| `Conversation.ConversationSticks` | src/phera/modules/tickets/inbound.py:211-266 | any number of plain messages or calls with no gap above the window land on one ticket, which only the first can have created, whatever happens to other contacts' tickets |
| `Conversation.OthersStayApart` | src/phera/modules/tickets/inbound.py:211-247 | plain filings of another contact or channel leave the conversation's tickets alone |
| `Conversation.SecondTicketIff` | src/phera/modules/tickets/inbound.py:211-266 | a second message that looks before the first one is committed opens a second ticket; looking after it, within the window, it lands on the first one's |
| `Conversation.OverlapOpensTwo` | src/phera/modules/tickets/inbound.py:211-266 | two messages that both looked first leave two open tickets of the conversation |
| `Conversation.PrintedSubjectReturns` | src/phera/modules/tickets/inbound.py:198-209 | a reply under the printed subject is filed on that very ticket |
| `Conversation.ForeignTokenLeadsAway` | src/phera/api/routes/tickets.py:420-424 | a stored subject that names another ticket first sends the reply to that ticket |
| `Conversation.ReplyHeaderReturns` | src/phera/modules/tickets/inbound.py:188-196 | a reply to a stored message goes to its ticket |
| `Conversation.TargetIsForeignIff` | src/phera/modules/tickets/inbound.py:191 | the target lies outside the workspace exactly when the ticket replied to does |
| `Conversation.FilingCrossesIff` | src/phera/modules/tickets/inbound.py:188-196 | a filing puts a contact of one workspace on a ticket of another exactly in that case |
| `Conversation.ForeignReplyIsFiled` | src/phera/modules/tickets/inbound.py:188-196 | a reply to a message on a foreign ticket is filed there |
| `Conversation.StoredUnderId` | src/phera/modules/tickets/inbound.py:338-341 | the query by provider id finds as many messages as carry it |
| `Conversation.IngestIsWhatPollsSee` | src/phera/modules/tickets/email_poll.py:112-154 | an ingest adds and drops rows exactly as the poller's protocol counts on; one that clashes or finds no display id stores nothing |
| `Conversation.EachMessageOnce` | src/phera/modules/tickets/inbound.py:338-348 | deliveries one after the other: a provider id never has two rows, and exactly one ever after the first accepted delivery |
| `Conversation.IngestIsLookThenInsert` | src/phera/modules/tickets/inbound.py:338-404 | an undisturbed delivery is one look, or a look, a write and a commit |
| `Conversation.DoubledIdClashes` | src/phera/modules/tickets/inbound.py:341 | once an id has two rows, every further delivery of it is refused with an error and stores nothing |
| `Conversation.DoubledContactClashes` | src/phera/modules/tickets/inbound.py:139-157 | once an address has two contacts, every message from it that is not a repeated one is refused with an error and stores nothing |
| `LookThenInsert.StepAndDue` | src/phera/modules/tickets/inbound.py:338-404 | rows and looks that found nothing, taken together, grow only by another such look |
| `LookThenInsert.NoOverlapKeepsOne` | src/phera/modules/tickets/inbound.py:338-404 | without overlapping deliveries an id never has two rows, whoever rolls back |
| `LookThenInsert.SecondRowIff` | src/phera/modules/tickets/inbound.py:338-404 | when all deliveries that looked have committed, an id has two rows exactly if one delivery looked while another was between its look and its commit |
| `LookThenInsert.KeepsOneIff` | src/phera/modules/tickets/inbound.py:338-404 | the deliveries under way keep an id at one row in every interleaving exactly if at most one row is there or in flight |
| `LookThenInsert.TwoRowsHappen` | src/phera/modules/tickets/inbound.py:338-404 | a run of two overlapping deliveries that stores two rows |
| `VoiceRouting.LeastExists` | src/phera/modules/routing/engine.py:78-82 | among eligible agents one comes before all others in the order of the query |
| `VoiceRouting.EligibleMeans` | src/phera/modules/routing/engine.py:63-77 | an agent is eligible exactly if available, with an active identity in the workspace, and off the phone if the policy focuses on voice |
| `VoiceRouting.PickMeans` | src/phera/modules/routing/engine.py:59-84 | the agent picked is such an agent, and no other such agent was assigned less recently |
| `VoiceRouting.RoutingDesk.SelectAgentForVoice` | src/phera/modules/routing/engine.py:59-84 | the pick is the eligible agent assigned least recently, never-assigned first; it alone is stamped; it is available, with an active identity in the workspace, and off the phone under a voice focus, and there is none exactly if nobody is all that |
| `VoiceRouting.StepShortensQueue` | src/phera/modules/routing/engine.py:59-84 | a selection that does not pick an eligible agent takes one agent away from ahead of it, and nothing ever puts one there |
| `VoiceRouting.NoStarvation` | src/phera/modules/routing/engine.py:59-84 | an agent who stays eligible is picked within as many selections of its workspace as there are presence rows, whatever the others do |
| `VoiceRouting.SamePicksAreFarApart` | src/phera/modules/routing/engine.py:59-84 | two picks of one agent are at least n picks apart when n agents are eligible |
| `VoiceRouting.RoundRobin` | src/phera/modules/routing/engine.py:59-84 | any n consecutive picks from n eligible agents are these n agents, each once |
| `VoiceOverlap.OverlappingPicksCoincide` | src/phera/modules/routing/engine.py:78-84 | two selections that read before either commits pick the same agent |
| `VoiceOverlap.WaitIsPaidFor` | src/phera/modules/routing/engine.py:59-84 | over any run of overlapping selections, each commit of the workspace is paid for by an agent leaving the queue ahead |
| `VoiceOverlap.OverlapBoundsWait` | src/phera/modules/routing/engine.py:59-84 | with at most k selections under way at once, an eligible agent who is passed over sees at most k commits of its workspace per presence row |
| `CallRouting.Switchboard.GetOrCreateInboundCall` | src/phera/api/routes/voice_hooks.py:132-185 | the stored call is kept and given an agent if it has none; a lost race returns the winner's row |
| `CallRouting.Switchboard.ChooseAgent` | src/phera/api/routes/voice_hooks.py:243-256 | the assignee, or the selected agent, who then gets the ticket |
| `CallRouting.Switchboard.RingAgent` | src/phera/api/routes/voice_hooks.py:245-281 | once the ticket is resolved: the agent, the SIP user and the call row, and what an agent rung on an unassigned ticket is like |
| `CallRouting.Switchboard.ExotelRouteCall` | src/phera/api/routes/voice_hooks.py:221-297 | one delivery of the routing question: when it is refused, and contact, ticket, roster and calls after it; whoever is rung on an unassigned ticket is available, has an active identity in the workspace, is off the phone under a voice focus, and has the ticket now |
| `CallRouting.AssigneeIsRung` | src/phera/api/routes/voice_hooks.py:245-246 | an assigned ticket rings its assignee, and neither ticket nor roster changes |
| `CallRouting.RungMeans` | src/phera/api/routes/voice_hooks.py:245-256 | an unassigned ticket rings somebody exactly if an agent is available with an active identity in the workspace, and off the phone under a voice focus: one of those, assigned least recently, who gets the ticket and the stamp, and nothing else changes |
| `CallRouting.SipUserMeans` | src/phera/api/routes/voice_hooks.py:264-268 | the SIP user answered is that of an active identity of the very workspace |
| `CallRouting.RecordedCall` | src/phera/api/routes/voice_hooks.py:270-280 | a call is recorded exactly if somebody is rung; a stored one keeps its fields and gets an agent only if it has none; no other call changes |
| `CallRouting.AnswerSettles` | src/phera/api/routes/voice_hooks.py:221-297 | an answer naming an agent puts everything in place for the next delivery |
| `CallRouting.SettledAnswer` | src/phera/api/routes/voice_hooks.py:221-297 | a settled question gets the same answer, and only the ticket's activity stamps move |
| `CallRouting.RoutingIsIdempotent` | src/phera/api/routes/voice_hooks.py:221-297 | after a delivery answered with a SIP user, every further delivery within the reuse window gets the same SIP user, agent, contact and ticket, adds no contact, ticket or call, and stamps no agent |
| `OnceOnly.StepKeepsInv` | src/phera/api/routes/voice_hooks.py:169-185 | every step of the check-insert-savepoint protocol keeps one row per key |
| `OnceOnly.OnceOnlyAlways` | src/phera/api/routes/voice_hooks.py:132-212 | under every interleaving a call id, call.ended key or transcript has at most one row, exactly one once a handler committed for it, and as many rows beside it |
| `CallLifecycle.CallDesk.EnqueueCallEnded` | src/phera/api/routes/voice_hooks.py:188-212 | the call.ended event of a call is added once, raced or not |
| `CallLifecycle.CallDesk.ExotelCallEvent` | src/phera/api/routes/voice_hooks.py:302-372 | one callback: call row, presence flag and event; an unknown call is refused |
| `CallLifecycle.CallDesk.TranscribeCall` | src/phera/modules/transcription/job.py:17-59 | transcript and interaction are added together or not at all; the status is set only by the worker that added them |
| `CallLifecycle.FlagMeans` | src/phera/api/routes/voice_hooks.py:345-350 | an answered call puts its agent, or for want of one the ticket's assignee, on the phone, an ended one takes the agent off it, and nothing else moves a presence flag |
| `CallLifecycle.EventMeans` | src/phera/api/routes/voice_hooks.py:352-353 | after a callback the event is there exactly if it was, or if the callback ended the call and a recording URL is known by then |
| `CallLifecycle.TranscriptionMeans` | src/phera/modules/transcription/job.py:17-59 | transcription adds one row to both tables for a recorded call without transcript and none otherwise |
| `CallLifecycle.JobsKeepTables` | src/phera/api/routes/voice_hooks.py:336-355 | callbacks one after the other: an event exists exactly if some ended callback was handled while a recording URL was known |
| `CallLifecycle.CompletionIsOnceOnly` | src/phera/modules/transcription/job.py:17-59 | over any callbacks one after the other, racing inserts and retries: call.ended exactly once if ever completed and never otherwise, at most one transcript, as many interactions as transcripts |
| `CallLifecycle.CallbackIsIdempotent` | src/phera/api/routes/voice_hooks.py:302-372 | delivering a callback twice is delivering it once |
| `CallRace.UndisturbedIsCallback` | src/phera/api/routes/voice_hooks.py:320-353 | a read and a commit with nothing in between are the callback by itself |
| `CallRace.EventIff` | src/phera/api/routes/voice_hooks.py:352-353 | with overlapping callbacks: the event exists exactly if some handler that ended the call knew a recording URL, its own or the one it read |
| `CallRace.MissIff` | src/phera/api/routes/voice_hooks.py:342-353 | a commit that ends a call with a recording URL enqueues nothing exactly if its callback brought no URL and it read the call before another handler committed the first one |
| `CallRace.CompletedWithoutEventIff` | src/phera/api/routes/voice_hooks.py:342-353 | a call ended with a recording URL is left without its event exactly if every such ending overlapped with the first recording in this way |
| `CallRace.EndAndUrlTogether` | src/phera/api/routes/voice_hooks.py:342-353 | an ending and a recording URL that arrive together leave the call ended, recorded and without its event, whichever commits first |
| `FormIntake.Intake.FindContact` | src/phera/modules/pipelines/intake.py:29-52 | the first matching key with a hit decides; two hits are an error |
| `FormIntake.Intake.UpsertContact` | src/phera/modules/pipelines/intake.py:21-75 | a matched contact is left as it is; otherwise one is added with name, addresses, source and custom fields from the submission |
| `FormIntake.Intake.ResolveDeal` | src/phera/modules/pipelines/intake.py:78-124 | the deal reused, reopened or created, and the violation of the partial unique index |
| `FormIntake.Intake.ProcessFormSubmission` | src/phera/modules/pipelines/intake.py:127-159 | one submission: its outcome and the tables after it; a failure leaves all tables as they were |
| `FormIntake.FirstKeyDecides` | src/phera/modules/pipelines/intake.py:29-52 | key by key: one hit decides, several are an error, and without a hit the next key is tried |
| `FormIntake.SubmitterMeans` | src/phera/modules/pipelines/intake.py:54-75 | a contact that was found stays as it is; one that no key found is added with what form and payload say; one submission row links form, contact and deal |
| `FormIntake.DealIsDetermined` | src/phera/modules/pipelines/intake.py:78-159 | an accepted submission ends on the open deal if there is one, else under reopen_latest on the one created last, reopened in the entry stage, else on a new one; it is linked to the form, and no other deal changes |
| `FormIntake.PolicyMeans` | src/phera/modules/pipelines/intake.py:138 | the form's own policy goes before the pipeline's, and without either deals are reused |
| `FormIntake.HitsMean` | src/phera/modules/pipelines/intake.py:29-50 | a matching key finds exactly the live contacts of the workspace with the address the payload gives under it, or under "contact_" and the key |
| `FormIntake.LookupIsUnique` | src/phera/modules/pipelines/intake.py:29-52 | the lookup has one result |
| `FormIntake.TripsIndexIff` | src/phera/modules/pipelines/intake.py:93-123 | a submission trips the index exactly when it is configured, its contact has an open deal in the pipeline, and the policy is not reuse_open_deal |
| `FormIntake.SubmissionKeepsIndex` | src/phera/db/models.py:165-173 | every submission keeps the partial unique index |
| `FormIntake.OneOpenDeal` | src/phera/modules/pipelines/intake.py:78-159 | any run of submissions, one after the other, leaves at most one open deal per contact and pipeline; submissions grow by one per accepted form, deals only on "created" |
| `FormIntake.ReuseNeverTrips` | src/phera/modules/pipelines/intake.py:93-94 | under reuse_open_deal submissions one after the other never trip the index, and each is linked to the open deal |
| `IntakeRace.AlwaysOneOpenDeal` | src/phera/db/models.py:165-173 | whatever submissions overlap, the committed deals never hold two open ones for a contact and pipeline |
| `IntakeRace.TripsWhen` | src/phera/modules/pipelines/intake.py:85-124 | a submission trips the index exactly if it opens a deal while another open one was there at its query or was committed since |
| `IntakeRace.ReuseTripsIff` | src/phera/modules/pipelines/intake.py:85-124 | under reuse_open_deal exactly if it found no open deal, and between its query and its write another transaction committed one that is still open |
| `IntakeRace.OverlapTrips` | src/phera/modules/pipelines/intake.py:85-124 | from any state without an open deal: of two submissions that both query before either writes, the second trips |
| `IntakeRace.UndisturbedResolves` | src/phera/modules/pipelines/intake.py:78-124 | undisturbed, the steps do what the single-threaded resolution does |
| `History.ComputeDiff` | src/phera/db/mutate.py:64-72 | applying the computed changes to the old columns gives the new ones, but for the ignored stamps; and no change is superfluous |
| `History.ReplayMeans` | src/phera/db/mutate.py:64-72 | replayed in order, a change decides its own column and no other |
| `History.Session.TrackOutboxNotify` | src/phera/db/commit.py:10-12 | the id joins the session's list |
| `History.Session.Mutate` | src/phera/db/mutate.py:75-150 | audit row with actor, changes and snapshot, outbox row, timeline row and the touch of the ticket are pending together, in that order, and the outbox id is tracked |
| `History.RowsMean` | src/phera/db/mutate.py:75-150 | the rows of a call: the audit row, an outbox row exactly if type and key are given, a timeline row exactly if it is asked for and there is a contact, and the touch of its ticket if it is about one |
| `History.Session.CommitAndNotify` | src/phera/db/commit.py:15-19 | after a commit all pending rows are stored and exactly the tracked ids announced in order; after a refused one nothing is |
| `Notification.StepKeepsInv` | src/phera/db/commit.py:15-19 | every step of every session keeps a call's rows together and announces nothing uncommitted |
| `Notification.AtomicHistory` | src/phera/db/mutate.py:75-150 | at any time all rows of a call are committed or none, so its outbox row is stored together with exactly one audit row for its entity |
| `Notification.HonestNotification` | src/phera/db/commit.py:15-19 | every announced id names a committed outbox row, and none is announced twice |

## Left out

- WorkflowEngine.WorkflowRun.ContinueRun: is watched for at most `fuel` node executions, since the loop need not end; `WorkflowEngine.HaltsIffNoRevisit` says exactly when it does. A run whose workflow row is gone is left as it is and not modelled.
- WorkflowEngine.WorkflowRun.ExecuteNode: what send, update and emit nodes do outside the run is one parameter, raises or not; node ids are taken to be present in the graph's JSON, which the code indexes unconditionally.
- WorkerPool.PoolIsSafe: a batch may be any set of pending unlocked rows in any order, more than the query's order and limit allow; the order is modelled in `Dispatch.FirstPending`.
- Dispatch.OutboxTable.RunUntilDrained: the loop around one worker alone, without its sleep and its other duties; with several workers safety is proved, not progress.
- Outbox.OutboxRow.ProcessOutboxEvent: a database error that poisons the whole session is not an application exception and ends as a crash in `WorkerPool`; lifecycle tracking is one parameter, raises or not; two workers that start one run at once are kept apart by the row lock on the event.
- PollExactlyOnce.SafeIff: the mailbox is append-only under one UIDVALIDITY; a missing poll row is read as a row at 0, without the race of two first inserts (which one worker loses and then backs off); a message without a Message-ID has no identity to count; an exception other than ValueError during ingest leaves the row running, like a crash. The claim keeps the pollers of one account apart; deliveries of the same Message-ID by other accounts or webhooks overlap as in `LookThenInsert`.
- EmailPoll.EmailAccount.PollOnce: MIME parsing and quoted-reply stripping are third-party; a parsed message is its UID, Message-ID and whether it is the account's own and resolves to a channel.
- Inbound.Helpdesk.IngestInboundMessage: lookup, filing and insert are one step, so this is a delivery that nothing overlaps; overlapping deliveries are modelled in `LookThenInsert`, for the rows of one key and not for the contacts and tickets around them. The channel account is resolved by the caller.
- Inbound.Helpdesk.FindOrCreateContact: contacts have no unique address, so overlapping first messages of one sender add two, just as `LookThenInsert` says of its keys.
- Inbound.Helpdesk.ReuseOrCreateTicket: the display id is a parameter, allocated as `ShortId` proves; the column's 16-character limit and the truncation of subjects are not modelled.
- Conversation.ConversationSticks: filings one after the other, with clocks that do not go back and a first touch later than all earlier activity; with equal stamps the query may pick either ticket (`Conversation.ChoiceIsDetermined`), and overlapping first messages open two (`Conversation.SecondTicketIff`).
- CallRouting.RoutingIsIdempotent: nothing else happens between the deliveries; for concurrent ones `OnceOnly.OnceOnlyAlways` covers the call row and `VoiceOverlap` the choice of agent.
- VoiceRouting.NoStarvation: each selection reads and stamps in one step; `VoiceOverlap.OverlapBoundsWait` has the ones that overlap. In both, presence rows are neither added nor removed between the selections, and every selection reads a clock later than all committed stamps; a user id is its rank in the sort order. `VoiceRouting.RoundRobin` is about selections that do not overlap.
- CallLifecycle.CompletionIsOnceOnly: callbacks of one call one after the other; `CallRace.CompletedWithoutEventIff` has the ones that overlap. Presence flags under overlapping callbacks are not modelled.
- OnceOnly.OnceOnlyAlways: the interaction beside a transcript is the side row; for calls and events there is none in the code, and the side rows mean nothing.
- SubjectToken.SearchMeans: `\d` is read as 0-9, without the decimal digits of other scripts.
- ReusePolicy.ParseTicketReuse: numbers are finite, and int() of a string is a parameter; lower-casing and stripping know ASCII letters and spaces only. Listed support agents reach the ticket step as a set.
- Tickets.LifecycleHolds, with StampsAreFirsts, StatusStampIff and RefusedIff of that module: steps one after the other; `TicketRace.LifecycleIff` and `TicketRace.FirstStampIff` have the ones that overlap. Edits made directly in the database are not steps.
- TicketRace.LifecycleIff: the commit is one step, since the row is locked from its write on; refused commits are aborts; a handler's clock is past the closing time it read.
- Tickets.RefusedIff: starts from a ticket without keyed events; `Clock.second` is the reading cut to seconds.
- ShortId.Session.InsertTicketWithShortId: all stored ids are taken to be drawn or backfilled with six digits, as the migration does up to 999999 tickets.
- FormIntake.Intake.UpsertContact: payload values are strings. That two overlapping submissions of a new sender add two contacts is as in `LookThenInsert`.
- IntakeRace.ReuseTripsIff: the contact is given, and submissions that only reuse a deal wait for nothing.
- History.Session.Mutate: the workspace, pipeline, stage, context and payload columns are copied without a decision; a touched ticket is taken to exist.
- WakeRace.ServedTwiceIff: the run waits at a wait node with a positive number of hours, and a woken run does what `WorkflowEngine.WokenRunWaitsAgain` says.
- The daily rollup: it is computed for the current day on the first tick and then kept, so no whole-day count holds.
- Offers made by `route_unassigned_ticket`, open-load counting, inbox order and channel address matching: single queries.
- HTTP routing, schemas, event streaming, tokens, signatures, permissions, encryption, settings, telemetry and the Redis transport: plumbing or foreign code.
