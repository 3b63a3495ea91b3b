# Flashblock production, verified

A Dafny model of the flashblock builder: how one payload job is cut into
numbered flashblocks, bounded in time and gas, published increment by increment,
frozen and stopped; how published messages reach subscribers; and when bundles
may be included. `dafny verify dfyconfig.toml` checks everything.

| file | models |
|---|---|
| `Prelude.dfy`, `Platform.dfy` | machine integers, bytes, headers, blocks, the 1-indexed flashblock number (`src/state.rs`) |
| `Checkpoints.dfy` | checkpoint histories: contexts, barriers, spans |
| `FlashblockLimits.dfy` | partition of time and gas (`src/limits.rs`), stop target (`src/stop.rs`) |
| `Schedule.dfy` | timing of a whole job under jitter: never early |
| `Counts.dfy`, `BeyondBlockTime.dfy` | on-time jobs: the two counts, when time is up, full intervals, gas; any deadline |
| `Flashblocks.dfy` | one call of the publish step (`src/publish.rs`) |
| `Pipeline.dfy` | the job as a state machine, the outer loop (`src/main.rs`) |
| `JobLemmas.dfy`, `Contents.dfy` | what any sequence of steps keeps; what each stage puts in, and what a refusal leaves |
| `RunLemmas.dfy`, `RunTiming.dfy` | whole runs; when their flashblocks are sent |
| `Times.dfy` | timestamps and the samples recorded from them, as an object and as functions |
| `Publisher.dfy` | the sink and the publish step as objects, and the loop over jobs that drives them, proved against the state machine |
| `Fanout.dfy`, `Connections.dfy` | broadcast channel and listener; why a peer is lost, the shutdown signal, the broadcast loop |
| `Delivery.dfy`, `Streams.dfy` | builder and subscriber put together, for one job and for many |
| `Bundles.dfy`, `BundleEditing.dfy`, `BundleHash.dfy` | eligibility, removal of transactions, hash preimage (`src/bundle.rs`) |

## Assumptions

The block-building library, the channel and the clock are not part of this
model; what the code relies on is stated as definitions:

- A new checkpoint inherits its parent's context, `barrier_with_context` puts an
  empty barrier that starts a new one, and `history_since_first_context(c)` is
  the suffix from the first checkpoint with context `c`. A job starts on a
  baseline barrier with the default context.
- A building step may replace everything after the last barrier, put further
  barriers there, and change nothing before it. A break ends the loop it happens
  in, not the enclosing one.
- Limits are created on each entry to the single-flashblock scope. The stop step
  and the limits factory see the same enclosing deadline, which does not change
  during a job.
- Sealing is determined by the transaction list; whether it succeeds, how long
  things take, whether a message serialises and how many receivers are alive are
  inputs.
- The broadcast channel keeps the last C messages (C is a parameter, at least 1);
  a receiver further behind skips to the oldest kept and is told how many it
  lost; a new receiver starts at the end; sending fails exactly when no receiver
  is alive.
- The duration since a later instant is zero.

Durations are nanoseconds. Gas, timestamps and block numbers are 64-bit and the
saturating, checked and truncating operations of the source are written out.
`Plan.Valid` and `CanCreate` are the conditions under which the source does not
panic: a deadline is set, it and the interval fit 64-bit milliseconds, and the
interval is at least one millisecond.

## Where the code and its documentation differ

The model follows the code. Each point has a lemma with the exact condition and
one with an input.

- The documentation of the time partition (src/limits.rs:75-77) says the lengths
  add up to the remaining time. They do exactly under the condition of
  `TotalTimeExactIff`; `TotalTimeOff` has two inputs.
- Flashblocks can run ahead of their slots when the deadline exceeds the block
  time; `NeverEarlyIff` says for schedules and `NoFlashblockEarlyIff` for runs
  exactly when they cannot, `FirstFlashblockEarly` shows one.
- The recomputed count and the stopping count fall out of step beyond the block
  time, and within it exactly when cells last one millisecond and the fractions
  of the interval outgrow that of the deadline (`TargetsCountDownIff`,
  `CountsAgreeOverRunIff`, `FractionalIntervalDrifts`). The stop test alone
  agrees with the clock exactly under the condition of `StopsWithTimeIff`, which
  some deadlines beyond the block time meet (`StopsInTimeBeyondBlock`). Later
  flashblocks are given the whole interval exactly under the condition of
  `FullIntervalsIff`, which whole-millisecond intervals meet within the block
  time; `FractionalIntervalShortens` is an interval that does not.
- The gas share is divided by the flashblocks that remain but multiplied by the
  number of the current one, so on an on-time job the allowance exceeds the
  limit of the block from the middle on (`OnTimeGasWithinLimitIff`), up to n
  times the limit for the last of n flashblocks (`LastFlashblockAllowance`).
- A refused message takes the base with it, so a job can publish flashblock 0
  without one (`FirstFlashblockBase`, `BaseLostOnRefusal`). Before shutdown no
  message is refused for lack of receivers (`NoRefusalsNoLostBase`).
- The minimum timestamp of a bundle is compared the other way round from its
  description (src/bundle.rs:68-70 and 185-191), so it acts as an upper bound:
  `MinTimestampAsDocumentedIff`, `MinTimestampReversed`.
- The rejection before the pool promises no false positives
  (src/bundle.rs:217-220); that fails for bundles of several transactions, which
  nothing else refuses (`FalsePositiveIff`, `TwoTransactionsRejected`).
- A permanent verdict given because of the maximum flashblock number is not
  permanent: the number starts again with the next job (`PermanentIsFinalIff`,
  `PermanentUntilNextJob`).
- The intervals between flashblocks of one job and between jobs are always
  recorded as zero (`IntraBlockFaithfulIff` and `IntervalRecordedAsZero`,
  `InterJobsFaithfulIff` and `PauseRecordedAsZero`).
- The idle tail of a job that published nothing is measured from an earlier
  job's last flashblock (src/publish.rs:307-309; `IdleTailFaithfulIff`,
  `SilentJobRecordsTail`).
- The hash of a bundle does not separate its lists or fields
  (`ShapesCollideIff`, `ListsNotSeparated`).

## Model

| member | source | states |
|---|---|---|
| JobLemmas.Replay | src/publish.rs:103-180 | after any sequence of building steps, failed and successful publishes, the diffs up to flashblock i concatenate to exactly the transactions of the block that flashblock was sealed from, and it has index i and this job's payload id and block number |
| JobLemmas.FrozenPrefix | src/publish.rs:174-180 | once flashblock i is out, every later payload of the job starts with the whole block it was sealed from and has its transactions at the same positions |
| JobLemmas.StepIsSound | src/publish.rs:98-181 | every step keeps the job invariant: layout of contexts and barriers, frozen part equal to what was sent, numbering, base at most once |
| JobLemmas.FirstFlashblockBase | src/publish.rs:116-159 | at most one flashblock carries a base, at index 0, and it describes this job's block field by field; the first one carries it exactly when the first message handed to the transport was accepted |
| JobLemmas.BaseLostOnRefusal | src/publish.rs:119-160 | the shortest job whose flashblock 0 goes out without a base |
| Flashblocks.BaseDescribes | src/publish.rs:193-212 | number, timestamp, parent hash, fee recipient, randao, extra data and base fee are the block's; the gas limit is the attribute if present and the parent's if not; the beacon root is the attribute or zero |
| Contents.StartHolds | src/main.rs:112-113 | a job starts with exactly the prologue's transactions, the time already spent, nothing sent and a base that describes its block |
| Contents.StepContents | src/main.rs:122-147 | what each step does to the transactions and the clock: building replaces what follows the last barrier, the epilogue adds its transaction without a barrier, publishing changes no transaction |
| Contents.PassContents | src/main.rs:122-141 | the publish step finds the last round's transactions on top of what was behind the last barrier, then the epilogue's |
| Contents.UnsentKeepsPayload | src/publish.rs:110-160 | a failed seal and a refused message leave payload, record and clock alone; only the refusal takes the base |
| Contents.UnsentPassKeeps | src/publish.rs:153-160 | a pass that does not send hands the next one everything it built |
| Contents.RefusedIsSentNext | src/publish.rs:153-160 | after any number of refusals without building in between, the next message sent carries exactly what the refused ones did, without a base |
| Contents.PassRecordsEntry | src/limits.rs:35-47 | each pass creates limits once, at its beginning, for the number after those sent |
| Contents.EntryLimits | src/limits.rs:46-68 | these limits are the deadline of the partition of the time left and the gas for that number and target |
| Checkpoints.RewriteContributes | src/publish.rs:177-179 | a building step keeps everything up to the last barrier and puts its own checkpoints in place of the rest, in order |
| JobLemmas.GasNeverShrinks | src/limits.rs:56-68 | over any sequence of steps, the gas allowance at each entry is at least every earlier one, zero target and saturation included |
| RunLemmas.PassSteps | src/main.rs:122-147 | one pass of the outer loop is enter, building rounds, epilogue, publish, in that order, so results over all step sequences hold of passes |
| RunLemmas.RunIsSteps | src/main.rs:122-148 | a run of the loop is the step sequence of exactly the passes it used |
| RunLemmas.ExactCounts | src/stop.rs:34-47 | a job ended by the stop step has sent exactly its target and taken one pass per flashblock and one per refused message; one pass if the target is zero; a failed seal ends the job at that pass |
| RunLemmas.Terminates | src/stop.rs:43-47 | with at most f refusals the loop has ended after max(target, 1) + f passes, whatever else happens |
| RunLemmas.StoppedJobIsComplete | src/main.rs:122-148 | when the stop step ends a job, the flashblocks sent concatenate to the whole payload exactly if the target was not zero, the one message was accepted, or the payload is empty |
| RunTiming.NoFlashblockEarly | src/limits.rs:46-60 | in any run of the machine on a plan that keeps to the grid, with inner loops at least as long as their deadlines, flashblock j is never sent 1 ms or more before its slot, whatever the jitter and refusals |
| RunTiming.NoFlashblockEarlyIff | src/limits.rs:46-60 | no run whose inner loops use up their deadlines, from any prologue and lead, can send a flashblock early exactly when the plan keeps to the grid |
| RunTiming.CountsAgreeOverRun | src/stop.rs:25-47 | on an on-time run of a plan that keeps pace the recomputed target drops by one per pass, the stop step breaks exactly when no whole millisecond is left, and where intervals are full every pass but the first builds for one |
| RunTiming.CountsAgreeOverRunIff | src/stop.rs:25-47 | for every interval and deadline: the targets and the stop step agree with the clock on all on-time runs exactly when the plan keeps pace |
| Schedule.NeverEarlyIff | src/limits.rs:95-113 | for every interval: no jittered schedule is ever ahead of the grid exactly when the deadline is within the block time, or the block time is a multiple of the interval, or the capped steps reach the grid in time |
| Schedule.StaysOnSchedule | src/limits.rs:46-60 | after k flashblocks at most n - k intervals remain, so truncation to milliseconds does not accumulate |
| Schedule.LessThanOneMillisEarly | src/limits.rs:97-98 | a bound on the whole milliseconds left is the same as being less than 1 ms ahead of the slot in real time |
| Counts.TargetsCountDownIff | src/limits.rs:90-114 | for every interval: on all on-time schedules the recomputed target counts down from the stop target exactly when the deadline is within the block time and the interval lasts 2 ms or its fractions fit into that of the deadline |
| Counts.FractionalIntervalDrifts | src/limits.rs:102-112 | with 1.9 ms intervals the recomputed target of a 10 ms job is behind at the second flashblock |
| BeyondBlockTime.StopsWithTimeIff | src/stop.rs:32-47 | for every interval and deadline: on all on-time schedules the stop test is equivalent to no whole millisecond being left exactly when the steps capped by the block time and the steps of what they leave add up to the stopping count; within the block time that is keeping pace |
| BeyondBlockTime.FullIntervalsIff | src/limits.rs:95-113 | for every interval and deadline: exactly when on all on-time schedules every flashblock but the first is given the whole interval; within the block time whole milliseconds always do |
| Counts.OnTimePace | src/limits.rs:46-60 | on a plan that keeps pace, flashblock k finds n - k still to come, and no whole millisecond left exactly from the n-th on |
| Schedule.TargetShrinks | src/limits.rs:46-60 | the recomputed target never grows as time passes |
| Counts.OnTimeGasWithinLimitIff | src/limits.rs:62-68 | for any gas limit: on an on-time job of n flashblocks the allowance is within the limit of the block exactly in the first half, or if the limit is the largest, or the shares ahead fit into the remainder of the division; with n * n gas only in the first half |
| Counts.LastFlashblockAllowance | src/limits.rs:62-68 | the last of n on-time flashblocks is allowed n times the limit, saturating |
| FlashblockLimits.PartitionExactAndUnique | src/limits.rs:95-113 | with some time left and a whole-millisecond interval, the partition is the only one whose lengths add up to the whole milliseconds and whose first length is at most the interval; less than 1 ms is lost |
| FlashblockLimits.TotalTimeExactIff | src/limits.rs:72-114 | for any usable interval and any time, the announced lengths add up to the capped remaining time exactly when a whole millisecond is left and the fractions match |
| FlashblockLimits.PartitionOnGrid | src/limits.rs:90-114 | the count is the number of interval cells needed to cover the time left and the first length is the leftmost cell |
| FlashblockLimits.StopTargetCovers | src/stop.rs:25-41 | the stop target is the number of interval cells needed to cover the deadline |
| FlashblockLimits.CountsAgreeIff | src/stop.rs:32-41 | at the start of a job the two count formulas agree exactly when the deadline is within the block time rounded up to the grid |
| FlashblockLimits.GasPartition | src/limits.rs:62-68 | for a fixed target n the allowances of flashblocks 1 to n are equal steps within the limit that leave less than n gas unassigned, without saturating |
| FlashblockLimits.GasWithinLimitIff | src/limits.rs:62-66 | for any target and number, exactly when the allowance stays within the enclosing limit |
| FlashblockLimits.GasWithoutTarget | src/limits.rs:62-66 | with no flashblock left to divide by, the allowance is the limit times the number, saturating |
| FlashblockLimits.BlockTimeSpans | src/limits.rs:49-54 | the block time is the seconds between block and parent, and nothing if the block is not later |
| FlashblockLimits.AllowanceMonotone | src/limits.rs:62-66 | a smaller target and a larger number never shrink the allowance, zero target and saturation included |
| Publisher.PublishFlashblock.BeforeJob | src/publish.rs:186-214 | sets a base that describes this job's block field by field and records the start |
| Publisher.PublishFlashblock.Step | src/publish.rs:98-181 | breaks exactly if the seal fails; takes the base once sealed; unless the message is accepted leaves payload, log and times alone; if it is, the log gets one message with what was built since the flashblock began, the whole block, index, ids and the base, and a barrier with the next number goes on top |
| Publisher.PublishFlashblock.AfterJob | src/publish.rs:218-228 | clears the base and records the end |
| Publisher.WebSocketSink.Publish | src/publish.rs:425-443 | appends the message exactly when it serialises and some receiver is alive |
| Publisher.RunJob | src/main.rs:112-148 | the objects, driven through a whole job, end as the run of the state machine says, whatever base an earlier job left, and leave none behind |
| Publisher.RunTraceOrderly | src/publish.rs:326-375 | the start, sends and end of any run of the state machine are in order |
| Publisher.RunJobs | src/publish.rs:350-371 | a publisher driven through any sequence of jobs, one at a time, has recorded one true time to first block for each job that sent something, and one true inter-block interval for each such job but the first |
| Times.Recorder.JobStarted | src/publish.rs:326-334 | refines the job-start function on the stored instants and samples |
| Times.Recorder.PublishedBlock | src/publish.rs:350-383 | refines the published-block function |
| Times.Recorder.JobEnded | src/publish.rs:336-348 | refines the job-end function |
| Times.SamplesPerJob | src/publish.rs:350-371 | over any sequence of sequential jobs each publishing job records one time to first block, and each but the first ever one inter-block interval, with exactly these values |
| Times.InstantsInOrder | src/publish.rs:326-375 | within a job start, first and last instants are set and in order |
| Times.DuringJob | src/publish.rs:350-371 | what each stored instant is after any number of flashblocks of a job |
| Times.IntraBlockRecordedAsZero | src/publish.rs:373-382 | every interval recorded between flashblocks is zero, one for every flashblock but the first ever |
| Times.IntraBlockFaithfulIff | src/publish.rs:291-292 | the recorded intervals are the true gaps exactly when at most one job published and all its gaps are zero; for sequential jobs that is when every job's flashblocks came at one instant |
| Times.IdleTailMeasured | src/publish.rs:336-347 | each job that ends after any flashblock was ever published records the time since the last one, of whichever job |
| Times.IdleTailFaithfulIff | src/publish.rs:307-309 | the recorded idle tails are the jobs' own exactly when no job after a publishing one is silent |
| Times.InterJobsRecordedAsZero | src/publish.rs:326-334 | every interval recorded between jobs is zero |
| Times.InterJobsFaithfulIff | src/publish.rs:299-301 | the recorded intervals are the true ones exactly when each job starts the instant the one before it ended |
| Fanout.StreamSafety | src/publish.rs:511-533 | over every interleaving a peer's deliveries are an in-order selection without repeats of what was published since its receiver was made; delivered, missed and unsent account for everything up to the cursor; contiguous exactly when nothing was missed |
| Fanout.NothingMissedIff | src/publish.rs:520-532 | a peer has missed nothing exactly when it never read while more than the capacity behind |
| Fanout.JoinedAtAccept | src/publish.rs:476-488 | a peer's stream starts at the end of the log as it is when its connection is accepted, before the handshake |
| Fanout.HandshakeMessagesDelivered | src/publish.rs:476-524 | after any past, a new peer gets exactly the messages published during its handshake, if no more than the capacity |
| Fanout.ShutdownDisconnects | src/publish.rs:464-517 | over every interleaving: once the signal has been given, the listener has stopped and every peer has had a turn to notice after its handshake, no receiver is left |
| Fanout.ShutdownCompletes | src/publish.rs:464-517 | from any past without an open handshake the listener can stop and the peers notice one after the other, and no receiver is left |
| Fanout.HandshakeHoldsListener | src/publish.rs:462-488 | while a handshake is open the listener neither stops nor accepts, signal or not |
| Fanout.DrainCatchesUp | src/publish.rs:511-524 | a peer within the capacity that reads on receives everything outstanding, in order |
| Fanout.NoRefusalBeforeShutdown | src/publish.rs:396-408 | until the shutdown signal no message is refused, peers or not, and the log is everything published |
| Fanout.RefusalIsFinal | src/publish.rs:435-438 | a refusal takes a shutdown and either the sender gone or the listener stopped and all peers lost, and then lasts |
| Connections.Receiver.Receive | src/publish.rs:520-532 | taking from the channel, as an update of the receiver's position |
| Connections.BroadcastLoop | src/publish.rs:498-550 | the loop ends exactly if a turn notices the signal, hears a close, fails to write or finds the channel closed and drained; what it delivered is an in-order selection with everything accounted for; it is the fold of its turns |
| Connections.PeerLostIff | src/publish.rs:476-550 | over every interleaving: a peer is gone exactly if its handshake failed or a turn of its loop noticed the signal, heard a close, failed to write or found the channel closed and drained; it streams exactly from the end of its handshake until then |
| Connections.UnsentIff | src/publish.rs:520-525 | of the messages a peer takes, exactly the one whose write fails is not delivered |
| Connections.LagSkipsToOldest | src/publish.rs:529-532 | a peer that lags goes on with the oldest message kept and has missed exactly those before it |
| Connections.SignalsIff | src/publish.rs:411-423 | the signal is out exactly once given, the sender gone exactly if dropped, the listener runs exactly until it notices the signal outside a handshake |
| Connections.StoppedTakesNoMore | src/publish.rs:464-470 | a stopped listener takes no more connections |
| Delivery.LogIsPublished | src/publish.rs:425-443 | a job on a channel with any past, whatever connections and peers do and whether messages are refused, leaves in the log what was there and then exactly what it counts as sent |
| Delivery.LiveTakesTurns | src/main.rs:122-147 | a job on a channel takes its passes in order until it breaks, and everything else that happens meanwhile happens to the channel |
| Delivery.RunJobOnChannel | src/publish.rs:425-443 | the publisher object driven through such a job has logged what the channel holds |
| Delivery.SubscriberRebuildsBlock | src/publish.rs:425-443 | a subscriber that joined before a job, never fell behind by more than the capacity and received k messages since can rebuild the block the k-th flashblock was sealed from |
| Delivery.SubscriberHoldsPayload | src/main.rs:142-147 | with as many messages as a stopped job has sent it holds the finished payload |
| Delivery.NoRefusalsNoLostBase | src/publish.rs:116-160 | before shutdown a stopped job takes exactly one pass per flashblock and its first flashblock carries the base |
| Streams.NextJobServes | src/publish.rs:476-488 | the next job finds the channel as the jobs before it and the pause left it, and everything its turns bring happens to the channel |
| Streams.LogIsGrouped | src/publish.rs:136-159 | after any sequence of jobs on one channel every message in the log ends a run of messages numbered from 0 that replays to the block it was sealed from |
| Streams.SubscriberFollowsJobs | src/publish.rs:511-533 | a subscriber that never fell behind, whenever it joined: after any number of messages, those from the last one with index 0 on replay to the block the newest was sealed from, and there is none exactly while it still receives the job in the middle of which it joined |
| Bundles.AnswersFromLists | src/bundle.rs:264-274 | reverting hashes are the ones allowed to fail, dropping hashes the optional ones, and neither answer depends on the other list |
| Bundles.VerdictIff | src/bundle.rs:151-211 | exactly when a bundle is ruled out and exactly when it is put off |
| Bundles.RejectedIff | src/bundle.rs:221-258 | a bundle is rejected exactly if it does not have one transaction or no block at or after the header lies in its windows of block numbers and maximum time |
| Bundles.EverEligibleIff | src/bundle.rs:151-211 | some block at or after a header, and some flashblock of it, could take the bundle exactly when all its windows opened at the header are non-empty |
| Bundles.MinTimestampAsDocumentedIff | src/bundle.rs:185-191 | the verdict is the documented one exactly when there is no minimum timestamp, or it is the block's, or another check decides |
| Bundles.MinTimestampReversed | src/bundle.rs:68-70 | a bundle is eligible one second before its minimum timestamp, and put off one second after it and never eligible again |
| Bundles.NoFalsePositives | src/bundle.rs:221-258 | a bundle of at most one transaction rejected for a header is eligible in no later block and flashblock and stays rejected |
| Bundles.FalsePositiveIff | src/bundle.rs:230-233 | for bundles of any size, exactly when a rejection is wrong |
| Bundles.FalseNegativeIff | src/bundle.rs:217-220 | exactly when a hopeless bundle is not rejected |
| Bundles.VerdictNeverGoesBack | src/bundle.rs:193-210 | during a job the verdict moves from temporary to eligible to permanent and never back, through any steps |
| Bundles.EligibleWhileBuilding | src/bundle.rs:156-210 | while the flashblock with index j is being built, a bundle is eligible exactly when the block admits it and j + 1 is in its window |
| Bundles.PermanentIsFinalIff | src/bundle.rs:156-210 | exactly when a permanent verdict holds for every later block and flashblock |
| Bundles.PermanentIsFinalWithoutBound | src/bundle.rs:202-208 | it does for bundles without a maximum flashblock number |
| BundleEditing.WithoutTransaction | src/bundle.rs:133-147 | removes one hash from the three lists and leaves the six bounds alone |
| BundleEditing.KeepsTheRestInOrder | src/bundle.rs:136-144 | exactly the elements not removed remain, each as often as before and in order |
| BundleEditing.RemovalIsRestriction | src/bundle.rs:133-147 | removing hashes one by one is removing their set |
| BundleEditing.OrderDoesNotMatter | src/bundle.rs:133-147 | order and repetitions of removals do not matter |
| BundleEditing.AnswersAfterRemoval | src/bundle.rs:264-274 | after removals a hash is allowed to fail exactly if it was among the reverting hashes and not removed, optional exactly if among the dropping ones and not removed; the bounds are untouched |
| BundleEditing.RemovingEverything | src/bundle.rs:156-159 | no transaction is left exactly when all were named, and then the bundle is ruled out everywhere |
| BundleHash.Hash | src/bundle.rs:276-308 | the hasher absorbs the hashes of the three lists and the present fields in this order |
| BundleHash.PreimageLayout | src/bundle.rs:279-305 | place by place what is absorbed: the hashes of the three lists, 32 bytes each, then the present fields in the source's order, 8 bytes each, most significant first |
| BundleHash.InjectivePerShape | src/bundle.rs:276-308 | bundles of one shape give equal bytes exactly if they are the same bundle |
| BundleHash.ShapesCollideIff | src/bundle.rs:276-308 | two shapes can give equal bytes exactly when they have the same length in bytes |

## Left out

- Connections.BroadcastLoop: the listener loop is modelled as transitions of the system, not as a loop of its own.
- BundleEditing.WithoutTransaction: the bundle is a value, as it is passed by value in the source; the three in-place filters are loops that build the kept list.
- FlashblockNumber does not wrap at 64 bits; in a job it never exceeds the stop target by more than one.
- Diffs carry transactions rather than their encodings; encoding and signer recovery are library calls.
- Execution, sealing, state roots, blob fields, fee ordering and revert removal: what they put after the last barrier is arbitrary here.
- Keccak, websocket framing, connection errors other than a lost peer, JSON.
- Metrics other than the five timing histograms.
- Attestation, RPC, command line, signer and version code: delegation and configuration only.
