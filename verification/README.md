# tee-proxy: a verified model

tee-proxy collects weighted votes on instructions, turns each finalized vote into actions for a TEE node, and keeps
its policies, results and wallet keys in step with that node. This project models its six state machines and proves
what holds of all their runs. `dafny verify dfyconfig.toml` checks everything.

| part | files | shape |
|---|---|---|
| instruction voting | Ballot, VoteBoxes, RoundSteps, RoundInvariant, RoundTheorems, RoundLimiter, RoundCalls, RoundVerdicts, RoundWitnesses, VotingRound, VotingStorage, Limiter, Metadata, Instructions, Quorum | a step system in which any number of AddVote and scheduleEnd calls interleave; box, limiter and round objects whose methods are proved to be runs of it |
| its locks | LockOrder | programs over locks, the data they protect, and sends; any number of threads, any schedule |
| policy rollover | PolicyRollover, PolicyBackfill, SignatureScan | a loop against a consecutive-only node over a lossy network; restart backfill into the cyclic buffer; the endorsement scan |
| action queues | ActionQueue, ActionDelivery, ActionQueues | one step per Redis operation, any of which may fail; the queue object and its HTTP handler as runs of it |
| results | ResultStore, ResultWait | the override guard as a fold; waiters and storers as a step system |
| wallet keys | WalletKeys, WalletCache | key actions and syncs as values, with arbitrary key actions in every stretch the lock is not held; the class over the two maps |
| shutdown | ShutdownDrain | handlers, background writes and Close as a step system, and the server object |

How the parts are stated:

- A *reachable* state is one that some sequence of steps leads to. Theorems quantify over all of them, or over all
  event sequences. Objects carry a ghost state tied to their fields, so the theorems hold of the objects.
- History that a theorem speaks of (vote order, receipts, built actions, fate of each queue entry) is a field of the
  step system's values and a ghost field of the objects.
- Instruction and vote hashes are a free algebra: injective, and never the zero hash. Payload decoders, the wallet
  cache's roster answer and the indexer's answers are parameters. Time is a parameter that does not go backwards.
- A policy's weights sum to its total weight and that total is a uint16. Its voters are the limiter's addresses.
- Failures of Redis, the node and the network are parameters or events.
- Integer widths are written out where they matter: uint16 weights, uint64 cosigner thresholds and their conversion,
  uint32 epochs and loop counters, uint8 statuses and attempts.

Where a promise does not hold of the code in general:

- The FDC threshold check alone admits wrapped declarations. `Metadata.FDCMajorityOrWrap` says exactly which,
  `Metadata.FDCCheckAloneWraps` shows one, `Metadata.FDCMajority` shows that the check of roster size in
  buildVoteBox removes them all.
- A first vote that arrives after its own box has expired leaves the proposer's slot counted although no box was
  stored: exactly when is `RoundLimiter.FirstVoteRefusedIffExpired`, a run is `RoundWitnesses.LateFirstVoteLeaks`.
- Live queue entries have their own bodies stored exactly on the runs of `ActionDelivery.BodiesStoredIff`. Two winners
  of one instruction ID break its rule: `RoundWitnesses.SecondWinnerReplacesFirst`.
- The queues keep their order exactly on the runs in which every requeued entry is older than the next in line:
  `ActionDelivery.RestoreKeepsOrderIff`, with a swapping run in `ActionDelivery.TwoInFlight`. With one delivery
  outstanding the order is always kept.
- The queue's comment says that a failed pop consumes nothing. An item that is popped and does not decode is consumed;
  the model follows the code.
- A waiter can be left waiting although every publish succeeded: exactly when is `ResultWait.NoLostWakeUp`, a run is
  `ResultWait.FailedRecheckStrands`.
- A sync leaves the intended keys exactly when `WalletKeys.SyncExactIff` says; `WalletKeys.DeleteLeavesHole` is a run
  in which it does not.
- With lastID the largest uint32 the restart loop may not end: exactly when it does is
  `PolicyBackfill.BackfillEndsIff`, an input is `PolicyBackfill.BackfillLoops`.
- The rollover can always go on, but for the largest uint32, which has no next epoch: `PolicyRollover.NeverWedged` and
  `PolicyRollover.EpochsNeverGoBack`.
- Blocks are fetched exactly once exactly when `SignatureScan.EachBlockOnceIff` says; an index that breaks it is
  `SignatureScan.BackwardIndexRescans`.
- The stored result status depends on the delivery order unless the finals agree: `ResultStore.OrderIndependentIff`.
- A Close that returns at its deadline may leave answered results unstored: exactly when is
  `ShutdownDrain.DeadlineLosesIff`, a run is `ShutdownDrain.DeadlineLoses`. After its wait it never does, even if
  Shutdown timed out.

## Model

| member | source | states |
|---|---|---|
| `RoundTheorems.OpenBoxExact` | internal/service/instruction/voting/box.go:285-334 | In every reachable state of every interleaving, an undeleted box ends the set expiration after its start, has weight = policy weight of the set of its voters, cosigner weight = number of its voters on the signed roster, the signed cosigner threshold unchanged by the uint16 conversion, and is finalized iff both gates pass |
| `RoundTheorems.OpenBoxArranged` | internal/service/instruction/voting/box.go:298-326 | In every reachable state the sequence numbers of every undeleted box are a bijection from its voters onto 0..n-1, its vote hash is the fold of its votes in that order, and each receipt is the fold of its own prefix |
| `RoundTheorems.OpenBoxAction` | internal/service/instruction/voting/box.go:463-477 | The action of a finalized undeleted box always builds, slot j of its three lists comes from the vote numbered j, and folding them gives the vote hash |
| `RoundTheorems.ActionsExact` | internal/service/instruction/voting/box.go:363-395 | Exactly how many Threshold and End actions every box has built, by finalized, deleted, restore and first-winner status; building never hits an error; a deleted box holds no vote; the first winner is a stored finalized non-restore box |
| `RoundTheorems.ThresholdActionIsShortestPrefix` | internal/service/instruction/voting/voting.go:363-369 | A non-restore box's Threshold action lists the shortest prefix of the vote order that passes both gates, and is a prefix of the End action, which lists every vote |
| `RoundTheorems.FirstWinnerIsFinal` | internal/service/instruction/voting/voting.go:356-361 | FinalizedHash is written at most once per instruction ID, on any continuation of any run |
| `RoundTheorems.ReceiptsConfirmed` | internal/service/instruction/voting/box.go:319-326 | The vote hash of every receipt is what a client recomputes from any action of that box, built then or later, up to the receipt's own position |
| `RoundTheorems.ProviderQuorumsIntersect` | internal/service/instruction/voting/box.go:328-331 | Two finalized boxes of a round whose thresholds, declared in BIPS or the policy's own, are both at least half share a registered provider |
| `RoundTheorems.CosignerQuorumsIntersect` | internal/service/instruction/voting/box.go:328-331 | Two finalized below-half FDC boxes with the same roster share a cosigner |
| `RoundTheorems.HalfOutweighs` | internal/service/instruction/voting/box.go:484-489 | The distinct voters of a finalized box under a threshold of at least half hold more than half of the policy weight |
| `RoundTheorems.CosignerMajority` | pkg/instruction/meta/meta.go:284-295 | The voters of a finalized below-half FDC box include more than half of its roster |
| `RoundTheorems.RunGrows` | internal/service/instruction/voting/box.go:298-331 | Along every run, vote orders, receipts and built actions only grow, boxes never leave their table, and finalized, deleted and the first winner are never undone |
| `RoundTheorems.OpenBoxFinalizedIff` | internal/service/instruction/voting/box.go:328-331 | In the terms of the policy, the signed instruction and the voters alone: an undeleted box is finalized iff its voters' weight exceeds the declared share of the total, or the policy threshold, and at least the signed number of roster members voted |
| `RoundVerdicts.StoredVoteVerdict` | internal/service/instruction/voting/box.go:285-296 | A vote on a stored box is accepted iff the box is not deleted, the signer is in the policy or on the signed roster, the window is open and the signer has not voted; the exact error otherwise |
| `RoundVerdicts.OpenVoteVerdict` | internal/service/instruction/voting/box.go:98-123 | A vote that opens a box is accepted iff the event is due up to 15 seconds, the signer is a registered provider below its cap, threshold and roster are fine, and the window has not closed before the cast; which error otherwise |
| `RoundVerdicts.BuildStepVerdict` | internal/service/instruction/voting/box.go:114-158 | At every build of every interleaving the box is built iff the threshold is the policy's nonzero one or an FDC share within its bounds, and the roster is duplicate-free, can meet its threshold and, for the four commands that have one, equals the resolved one; else the slot is given back |
| `RoundVerdicts.VoteEffect` | internal/service/instruction/voting/voting.go:332-345 | An accepted call stores exactly one more vote, numbered by arrival, in the box of its hash, schedules the end of that box, keeps or sets its proposer and window, and its receipt names that vote |
| `RoundVerdicts.VoteAction` | internal/service/instruction/voting/voting.go:347-371 | A call returns an action iff its vote finalizes the box of a non-restore, and that action is the one and only on the box's record, over all votes so far |
| `RoundVerdicts.VoteSlots` | internal/service/instruction/voting/voting.go:308-354 | How a call changes each provider's pending count: up by one for a fresh box left unfinalized or whose first vote came too late, down by one for the proposer of a stored box it finalizes, and no other change |
| `RoundVerdicts.VoteFrame` | internal/service/instruction/voting/voting.go:293-374 | No call changes another ID or another hash, and a rejected one stores nothing |
| `RoundVerdicts.EndVerdict` | internal/service/instruction/voting/box.go:336-404 | A voting can end iff its box is stored and not deleted, its end time has come and no vote on its ID is under way; then its votes, instruction and roster are dropped and no other box changes |
| `RoundVerdicts.EventVerdict` | internal/service/instruction/voting/box.go:99-105 | The event check on the signed timestamp: an int64 number of seconds, less 15, against the clock |
| `RoundLimiter.PendingCounts` | internal/service/instruction/voting/limiter/limiter.go:77-95 | In every reachable state a provider's pending count is at least its unfinalized boxes and at most the cap, equals boxes + calls in progress + refused first votes, and proposed - completed = pending; with no call in progress and no refused first vote it is exactly the number of unfinalized boxes |
| `RoundLimiter.ReleaseNeverAtZero` | internal/service/instruction/voting/limiter/limiter.go:140-154 | Decrement is never called at pending 0, neither after a failed build nor on finalization |
| `RoundLimiter.FirstVoteRefusedIffExpired` | internal/service/instruction/voting/voting.go:308-330 | The first vote on a fresh box is refused, leaving the slot counted, iff the box's window has already closed |
| `RoundWitnesses.LateFirstVoteLeaks` | internal/service/instruction/voting/voting.go:308-336 | A run that ends with a pending slot and no box, after which the voter is at its cap |
| `RoundWitnesses.BothFinalize` | internal/service/instruction/voting/voting.go:356-361 | A run in which two hashes of one instruction ID both finalize |
| `RoundWitnesses.SameQueueKey` | internal/service/instruction/voting/voting.go:356-369 | Any two finalized non-restore boxes of one ID have built Threshold actions with the same queue key |
| `RoundWitnesses.SecondWinnerReplacesFirst` | internal/service/instruction/voting/voting.go:356-369 | Enqueued before the first is polled, the first entry is delivered with the second action as its body, and the second entry is orphaned |
| `RoundLimiter.StepLimiter` | internal/service/instruction/voting/voting.go:308-350 | Each step of AddVote and scheduleEnd keeps the limiter's account of open boxes, calls in progress and refused first votes |
| `RoundInvariant.StepInv` | internal/service/instruction/voting/voting.go:293-374 | Every step of every interleaved AddVote and scheduleEnd keeps the invariant of all cells: sound boxes, exact actions, one timer per undeleted box, one winner |
| `RoundInvariant.ReachableInv` | internal/service/instruction/voting/voting.go:293-374 | The cell invariant holds in every reachable state |
| `RoundInvariant.StoreVoteInv` | internal/service/instruction/voting/voting.go:332-345 | An accepted vote on a fresh or stored box keeps the cell invariant and marks the finalizing vote |
| `RoundInvariant.SettleInv` | internal/service/instruction/voting/voting.go:347-371 | Settling a finalizing vote builds exactly the Threshold action due and records the first winner once |
| `RoundInvariant.EndInv` | internal/service/instruction/voting/box.go:346-395 | Ending a voting builds exactly the actions due, in order, and deletes the box |
| `Ballot.CastInv` | internal/service/instruction/voting/box.go:285-334 | An accepted vote keeps the box invariant (distinct arranged votes, exact uint16 weights, vote hash = fold of the order, receipts = folds of their prefixes) and returns true exactly on the transition to finalized, at the shortest passing list |
| `Ballot.TallyExact` | internal/service/instruction/voting/box.go:313-317 | Counting one more distinct voter never wraps: both uint16 sums equal the unbounded ones |
| `Ballot.CastTallied` | internal/service/instruction/voting/box.go:313-331 | The finalized flag and both counters after a vote are those of the extended voter list |
| `Ballot.CastReceipted` | internal/service/instruction/voting/box.go:306-326 | The new vote hash and receipt are the folds of the extended order, and earlier receipts stay folds of their prefixes |
| `Ballot.CastShortest` | internal/service/instruction/voting/box.go:328-331 | The vote that first passes both gates makes the order its own shortest passing prefix |
| `Ballot.GatesMonotone` | internal/service/instruction/voting/box.go:328-331 | Once a prefix of the vote order passes both gates, so does every longer one |
| `Ballot.NewBoxInv` | internal/service/instruction/voting/box.go:174-200 | A new box for an accepted roster satisfies the box invariant, and its uint16 cosigner threshold is the signed uint64 |
| `Ballot.SequenceBijection` | internal/service/instruction/voting/box.go:298-312 | Sequence numbers map the voters one-to-one onto 0..n-1 |
| `Ballot.ActionCarriesVoteHash` | internal/service/instruction/voting/box.go:204-235 | Folding the three lists of a built action from the initial hash gives the box's vote hash |
| `Ballot.FoldActionPrefix` | internal/service/instruction/voting/box.go:463-477 | Folding the first k slots of an action gives the hash of the first k votes |
| `Ballot.VoteHashBinding` | internal/service/instruction/voting/box.go:306-310 | Equal vote hashes come from the same instruction and the same ordered votes |
| `Ballot.DeleteInv` | internal/service/instruction/voting/box.go:272-279 | Deleting keeps the box invariant |
| `VoteBoxes.VoteBox.constructor` | internal/service/instruction/voting/box.go:174-200 | The box object starts as the specified new box |
| `VoteBoxes.VoteBox.AddVote` | internal/service/instruction/voting/box.go:285-334 | Accepted iff the voter is in a group, the window is open and it has not voted; the object's new state, receipt and finalized flag are those of the specified vote, on every error path too |
| `VoteBoxes.VoteBox.SignersData` | internal/service/instruction/voting/box.go:463-477 | The three arrays hold, slot by slot, the votes in arrival order |
| `VoteBoxes.VoteBox.Action` | internal/service/instruction/voting/box.go:204-235 | The built action or the error is the specified one |
| `VoteBoxes.VoteBox.Delete` | internal/service/instruction/voting/box.go:272-279 | The object becomes the specified deleted box |
| `VoteBoxes.FillSlots` | internal/service/instruction/voting/box.go:468-474 | Walking the vote map in any order writes every slot exactly once, with the vote of that sequence number |
| `VotingRound.VotingRound.constructor` | internal/service/instruction/voting/round.go:56-72 | A new round holds the start state |
| `VotingRound.VotingRound.BuildVoteBox` | internal/service/instruction/voting/box.go:127-169 | Built iff threshold and roster are fine, both written out on the instruction; the box object, or the error, of the specified build |
| `VotingRound.VotingRound.StartVoteBox` | internal/service/instruction/voting/box.go:98-123 | Event-time check, admission, build, and release of the slot on a failed build, with the limiter's exact new state |
| `VotingRound.VotingRound.AddVote` | internal/service/instruction/voting/voting.go:280-374 | On the heap of nested tables, boxes and limiter, the outcome and the new state are exactly those of the specified call, and the round stays a reachable one |
| `VotingStorage.Storage.AddVote` | internal/service/instruction/voting/voting.go:262-279 | Size error before missing-round error before the vote in the round of the instruction's reward epoch; no other round changes |
| `VotingStorage.Storage.StoreNewRound` | internal/service/instruction/voting/voting.go:89-102 | A resident round is kept; else a new round takes the slot, the rounds of other slots stay, and the rounds are exactly those of the resident epochs |
| `VotingRound.VotingRound.EndVoting` | internal/service/instruction/voting/box.go:346-395 | scheduleEnd's critical section on the heap is exactly the specified end step; the returned actions are those recorded in the box |
| `VotingRound.VotingRound.Settle` | internal/service/instruction/voting/voting.go:347-371 | Slot release, first winner and Threshold action of a finalizing vote, on the heap |
| `VotingRound.VotingRound.BuildDue` | internal/service/instruction/voting/box.go:363-395 | The actions due at the end of a voting, on the heap |
| `RoundCalls.AddVoteIsRun` | internal/service/instruction/voting/voting.go:293-374 | One whole AddVote call is a run of the interleavable steps, so every reachable-state theorem applies to it |
| `RoundCalls.CallReachable` | internal/service/instruction/voting/voting.go:262-374 | A call from a reachable round leaves a reachable round |
| `RoundSteps.BuildBoxInv` | internal/service/instruction/voting/box.go:127-169 | A successful build gives a sound empty box with the resolved threshold and the signed roster |
| `LockOrder.AddVoteOrdered` | internal/service/instruction/voting/voting.go:294-410 | Every path through AddVote takes locks in rising rank (Voting, boxes, box, then limiter or wallets), uses what a lock protects only while holding it, for writing where it writes, releases each once, and holds none at a send or at its end |
| `LockOrder.ScheduleEndOrdered` | internal/service/instruction/voting/box.go:346-404 | The same for scheduleEnd with any number of actions to send |
| `LockOrder.StatusesOrdered` | internal/service/instruction/instruction.go:186-212 | The same for a status query over any number of boxes |
| `LockOrder.WaitsRise` | internal/service/instruction/voting/voting.go:294-305 | With the discipline kept, a waiting thread waits only for threads further up the order, writer preference of RWMutex included |
| `LockOrder.NoCircularWait` | internal/service/instruction/voting/voting.go:294-410 | No state that disciplined threads reach, with or without writer preference in the schedule, has a circle of threads each waiting for the next |
| `LockOrder.WaitLeadsToEnabled` | internal/service/instruction/voting/voting.go:294-410 | Every waiting thread leads, along waits, to a thread that can move and is not at a send |
| `LockOrder.VotingPathDeadlockFree` | internal/service/instruction/voting/voting.go:294-410 | For any number of AddVote, scheduleEnd, status and lone-lock calls under any schedule that respects the locks: no circular wait, mutual exclusion, no lock held at a channel send, and every waiting call is behind one that can move even under writer preference |
| `LockOrder.VotingPathRaceFree` | internal/service/instruction/voting/voting.go:294-371 | In every state of every such schedule two calls about to use what one lock protects hold it and only read, so the tables, boxes, first winner, limiter and wallet cache are free of data races |
| `LockOrder.ReaderFirst` | internal/service/instruction/instruction.go:192-194 | A status query can take the Voting lock before an AddVote calls Lock, which then waits for it |
| `Metadata.StrictFloor` | internal/service/instruction/voting/box.go:484-489 | weight > floor(total*bips/10000) iff weight*10000 > total*bips |
| `Metadata.FDCMajorityOrWrap` | pkg/instruction/meta/meta.go:284-295 | Exactly which below-half declarations the FDC check admits: a true cosigner majority, or a product that wraps in uint64 |
| `Metadata.FDCCheckAloneWraps` | pkg/instruction/meta/meta.go:288-289 | A declaration that the FDC check alone admits although nobody can meet it |
| `Metadata.FDCMajority` | internal/service/instruction/voting/box.go:153-158 | After the roster-size check of buildVoteBox no wrapped declaration survives |
| `Metadata.CheckCosigner` | pkg/instruction/meta/meta.go:121-139 | For a duplicate-free list: accepted iff it equals the expected set and thresholds match; the exact error otherwise |
| `Metadata.AcceptedRosterIsDeclared` | pkg/instruction/meta/meta.go:59-101 | Whatever the command and whatever the wallet cache answers, an accepted roster and threshold are the signed ones, without duplicates |
| `Metadata.CosignersIff` | pkg/instruction/meta/meta.go:59-101 | Accepted iff duplicate-free and, for the pay, reissue, VRF and restore commands and no other, equal in members and threshold to the resolved roster; the exact error otherwise, and the declared roster on success |
| `Metadata.ThresholdIff` | pkg/instruction/meta/meta.go:257-295 | The threshold of every instruction: the policy's unless an FDC proof declares one, then the floor of its share of the total weight, with the exact error for each bound it breaks |
| `Instructions.CheckSize` | internal/service/instruction/voting/constraints.go:94-112 | Passes iff the command is an instruction command, at most 1024 cosigners are named, and each message is within the limit, in bytes, of its command; the exact error otherwise |
| `Quorum.TallyIsTotal` | internal/service/instruction/voting/box.go:313-313 | Adding weights along a duplicate-free list gives the weight of the set |
| `Quorum.CountIsIntersection` | internal/service/instruction/voting/box.go:315-317 | Counting roster members along a duplicate-free list gives the size of the intersection |
| `Quorum.WeightOverlap` | internal/service/instruction/voting/box.go:328-331 | Two voter lists that each hold more than half of the weight share a weighted voter |
| `Quorum.CountOverlap` | internal/service/instruction/voting/box.go:328-331 | Two voter lists that each hold more than half of a roster share one of its members |
| `Limiter.ProposalLimiter.constructor` | internal/service/instruction/voting/limiter/limiter.go:44-58 | All voters start at zero |
| `Limiter.ProposalLimiter.Increment` | internal/service/instruction/voting/limiter/limiter.go:77-95 | Admits iff registered and below the cap; the counters' exact new state |
| `Limiter.ProposalLimiter.Decrement` | internal/service/instruction/voting/limiter/limiter.go:140-154 | The counters' exact new state, also for unregistered addresses and at zero |
| `Limiter.ReleaseBalanced` | internal/service/instruction/voting/limiter/limiter.go:140-154 | A release keeps proposed - completed = pending iff it does not meet a registered address at zero |
| `Limiter.AdmitBalanced` | internal/service/instruction/voting/limiter/limiter.go:77-95 | An admission keeps proposed - completed = pending |
| `Limiter.AdmitThenRelease` | internal/service/instruction/voting/box.go:110-120 | A release undoes an admission in the pending count and leaves everyone else alone |
| `PolicyRollover.ProxyAndNodeInLockstep` | internal/service/policy/policy.go:196-311 | On every run after a restart, with any loss, delay, duplication and restart: active <= node <= active+1, and the emitted epochs are origin+1, origin+2, ... without gap or repeat |
| `PolicyRollover.StepLockstep` | internal/service/policy/policy.go:196-311 | Each step of loop, node and network keeps lockstep |
| `PolicyRollover.ReconcileAdvancesByOne` | internal/service/policy/policy.go:207-231 | Every reconcile that adopts a policy advances by exactly one, to the node's epoch |
| `PolicyRollover.ConfirmAdvancesByOne` | internal/service/policy/policy.go:281-309 | A confirmation advances by exactly one, to an epoch the node has applied; a rejection changes nothing |
| `PolicyRollover.NeverWedged` | internal/service/policy/policy.go:191-196 | From every state of every run, whatever was lost, refused or confirmed too late, loop, node and network can go on without a restart so that the next epoch is adopted by both and emitted |
| `PolicyRollover.EpochsNeverGoBack` | internal/service/policy/policy.go:196-311 | On every run, restarts included, neither the proxy's nor the node's epoch goes back; only at the largest uint32 is there no next epoch to adopt |
| `PolicyRollover.SubmitVerdict` | internal/service/policy/policy.go:234-282 | The loop submits only while it awaits nothing and does not see the node ahead, awaits an answer iff the policy is the next one and was enqueued, and the update is new, so no answer to an older one is taken for its |
| `PolicyRollover.RefusalGoesBack` | internal/service/policy/policy.go:291-298 | A refused update sends the loop back to polling with its variables and the node as they were |
| `PolicyRollover.AttemptsSinceAdvance` | internal/service/policy/policy.go:197-305 | On every run the attempt counter is the number of tries since the last advance or restart |
| `PolicyRollover.UpdateLoop.BuildAction` | pkg/policy/signatures.go:115-117 | Only the epoch after the active one gets an action |
| `PolicyRollover.UpdateLoop.Iterate` | internal/service/policy/policy.go:198-310 | One pass of the loop on its own variables, on every branch, is a run of the protocol, after which active <= node <= active+1 |
| `PolicyRollover.PassIsSteps` | internal/service/policy/policy.go:198-310 | Every pass, with any node and network steps while it waits, rejections and transient answers included, is a run of the protocol that does the same to the loop's variables; unless it takes an answer the node has not given |
| `PolicyBackfill.PolicyService.Initialize` | internal/service/policy/policy.go:83-114 | Called whenever the loop ends, wrapped counter included: succeeds iff nothing in the range fails to load, the last policy is there and the counter can pass it; then holds exactly the indexed epochs of the range, increasing, ending at lastID, at most offset+1; else reports the missing last policy or the first failing epoch |
| `PolicyBackfill.BackfillEndsIff` | internal/service/policy/policy.go:88-103 | The loop with its uint32 counter and two error returns ends iff lastID is below the largest uint32, or the last policy does not load, or some load fails |
| `PolicyBackfill.BackfillLoops` | internal/service/policy/policy.go:88-103 | With every epoch indexed and lastID the largest uint32, the counter takes every value and never stops |
| `PolicyBackfill.PolicyService.Run` | internal/service/policy/policy.go:143-164 | All sends made before a consumer exists fit the channel's buffer of max(3, number reloaded), and are the reloaded policies in order, or the active one |
| `PolicyBackfill.RoundStorage.StoreNewRound` | internal/service/instruction/voting/voting.go:89-102 | The new contents of the cyclic buffer; a resident round is not replaced |
| `PolicyBackfill.RoundStorage.OldestStoredEpoch` | internal/service/instruction/voting/voting.go:239-257 | The smallest resident epoch within one buffer length of the newest, if there is one |
| `PolicyBackfill.ResidentAfter` | internal/service/instruction/voting/voting.go:89-102 | After storing an increasing list, exactly the latest epoch of each slot is resident |
| `PolicyBackfill.BackfillAllResident` | internal/proxy/proxy.go:177-177 | With a buffer of offset+1, all reloaded rounds are resident and the oldest stored epoch is the first of them |
| `PolicyBackfill.BackfillThenUpdatesResident` | internal/service/policy/policy.go:148-160 | After any number of further rollovers exactly the rounds within offset of the newest are resident |
| `PolicyBackfill.OldestIsExactIff` | internal/service/instruction/voting/voting.go:239-257 | On any buffer the report, none included, is the oldest resident epoch iff that one is within one buffer length of the newest |
| `PolicyBackfill.OldestExactWhenBuilt` | internal/service/instruction/voting/voting.go:239-257 | On every buffer that the backfill and any number of updates build, the report is the oldest resident epoch |
| `SignatureScan.CollectSignatures` | pkg/policy/signatures.go:105-207 | Over any script of polls: each returned signature is that of a transaction fetched, for this epoch and hash, by a distinct active voter; their uint16 weight exceeds the threshold exactly and not without the last; gives up iff 15 consecutive errors, ends at the first poll past the deadline; otherwise every active voter with such a transaction so far is counted |
| `SignatureScan.ExtractIff` | pkg/policy/signatures.go:211-230 | A transaction yields a signer and signature iff it decodes, is for this epoch and hash, and its signer can be recovered; they are its own |
| `SignatureScan.SeenBlocks` | pkg/policy/signatures.go:154-172 | The transactions looked at are exactly those of the blocks fetched at least once |
| `SignatureScan.ScanTransactions` | pkg/policy/signatures.go:175-194 | The inner loop: stops exactly when the threshold is crossed, else has counted every endorsement of the transactions |
| `SignatureScan.NewSigner` | pkg/policy/signatures.go:185-188 | A new voter keeps the list distinct and the uint16 sum free of wrap |
| `SignatureScan.ScansContiguous` | pkg/policy/signatures.go:154-198 | The fetched ranges form one chain from the start block, whatever errors intervene |
| `SignatureScan.EachBlockOnceIff` | pkg/policy/signatures.go:154-198 | Each block in (start, last index] is fetched exactly once and no other, iff the index never goes backwards, or never forwards so that nothing is fetched |
| `SignatureScan.NoBlockSkipped` | pkg/policy/signatures.go:154-198 | In any case each block up to the last index is fetched once more than the index steps back over it |
| `SignatureScan.BackwardIndexRescans` | pkg/policy/signatures.go:154-198 | An index that goes back makes a block be fetched twice |
| `ActionDelivery.EntriesConserved` | internal/queue/queue.go:148-303 | In every run, with any failures and stops: enqueued = queued + in flight + delivered + given up + orphaned, each entry in exactly one place, once |
| `ActionDelivery.OffersBounded` | internal/queue/queue.go:215-232 | An entry is offered at most 5 times, as often as its counter says while queued (below 5), and is given up as exhausted only after the fifth offer |
| `ActionDelivery.BodiesStoredIff` | internal/queue/queue.go:148-247 | Every entry being stored, queued or in flight has its own body stored in every state of a run iff no write puts another body under a live entry's key, no live entry's key expires, and no commit and no removal on the fifth attempt is of a key that another live entry has |
| `ActionDelivery.FetchFindsOwnBody` | internal/queue/queue.go:283-290 | On such a run an answered fetch yields the action that was enqueued |
| `ActionDelivery.OwnKeysSuffice` | internal/queue/queue.go:148-210 | In particular when live entries have distinct keys and no live entry's body expires |
| `ActionDelivery.SharedKeyOrphans` | internal/queue/queue.go:200-210 | A run from empty queues: of two live entries with one key the first is delivered with the second's body and its commit orphans the second |
| `ActionDelivery.RestoreUndoesPop` | internal/queue/queue.go:222-246 | With one delivery outstanding, whatever else happens and however much is enqueued meanwhile, a restore leaves the queue order as it was before the poll |
| `ActionDelivery.OldestFirst` | internal/queue/queue.go:254-303 | With one delivery outstanding per queue, every poll takes the oldest unsettled entry |
| `ActionDelivery.RestoreKeepsOrderIff` | internal/queue/queue.go:234-240 | The queues keep the order of pushes in every state of a run iff every requeue is of an entry older than the one next in line |
| `ActionDelivery.TwoInFlight` | internal/queue/queue.go:234-240 | Runs from empty queues: two deliveries in flight keep their order if the younger is restored first and swap if the older is |
| `ActionQueue.StepInv` | internal/queue/queue.go:148-303 | Every Redis operation keeps conservation, attempt counts below 5, and offers = attempts |
| `ActionQueue.CopiesStep` | internal/queue/queue.go:148-303 | No step but a push changes the number of places an entry is in |
| `ActionQueues.ActionQueues.Enqueue` | internal/queue/queue.go:148-183 | Body first, then ID at the left end; the exact state after each failure |
| `ActionQueues.ActionQueues.Dequeue` | internal/queue/queue.go:254-303 | Nothing is consumed on a bad queue, a cancelled caller, a failed pop or an empty queue; otherwise the rightmost entry is in flight with its body, or orphaned, also when the popped item does not decode |
| `ActionQueues.ActionQueues.Commit` | internal/queue/queue.go:200-210 | The entry is delivered; its body goes unless the removal fails |
| `ActionQueues.ActionQueues.Restore` | internal/queue/queue.go:215-247 | Requeued at the dequeue end, exhausted iff this was the fifth attempt, or lost iff the write fails |
| `ActionQueues.ActionQueues.QueueH` | internal/server/internal.go:208-265 | Sends iff something decodable was dequeued with its body there and neither the send failed nor the caller was gone after it, and says when nothing was queued; whatever fails, nothing of the handler's own is left in flight, and the reply gives the exact state: sent with the entry's body and committed, back at the dequeue end with one more attempt, exhausted, lost, or orphaned |
| `ResultStore.SettlesOnCanonical` | internal/service/result/storage.go:64-81 | For any delivery order the key holds the first final response, or, with none, the first with the highest transient status |
| `ResultStore.CanonicalIsStored` | internal/service/result/storage.go:64-81 | That response is unique, and whichever it is is the one stored |
| `ResultStore.FinalStays` | internal/service/result/storage.go:69-72 | A final response is never replaced |
| `ResultStore.StoresBounded` | internal/service/result/storage.go:64-81 | At most 255 stores succeed per key |
| `ResultStore.BoundAttained` | internal/service/result/storage.go:64-81 | 255 is attained |
| `ResultStore.OrderIndependentIff` | internal/service/result/storage.go:64-81 | The stored status is the same for every delivery order iff all finals agree |
| `ResultStore.DisagreeingFinals` | internal/service/result/storage.go:64-81 | Whichever final is delivered first is the one stored |
| `ResultStore.ResultStorage.StoreResponse` | internal/service/result/storage.go:50-86 | The outcome on every path, and the store of all keys stays the settlement of each key's own responses |
| `ResultWait.NoLostWakeUp` | internal/service/result/storage.go:117-150 | On every run, in the run's own events: a call waiting with no message there or about to be published is stranded, its unexpired result being stored, iff a publish failed between its subscription and now or Redis failed its re-check after the result was stored and published |
| `ResultWait.NeverStranded` | internal/service/result/storage.go:117-150 | A run whose events have no failed publish and no failed re-check strands no call of an unexpired key |
| `ResultWait.FetchVerdict` | internal/service/result/storage.go:93-103 | Every step that fetches, the fast path, the re-check and the last one, returns the stored response iff Redis answers and one is stored |
| `ResultWait.WakesUp` | internal/service/result/storage.go:141-150 | A call that neither happened to, and whose result is stored, can take its message and return the stored response |
| `ResultWait.CallCanReturn` | internal/service/result/storage.go:108-151 | From any state of any run at most three steps of its own end a call, with nothing published: its subscription failing or its wait cancelled, it returns the stored response if there is one and an error if not |
| `ResultWait.StoredIsLastSet` | internal/service/result/storage.go:50-86 | On every run a key holds the response last stored under it since it last expired, whatever the waiting calls do |
| `ResultWait.FailedRecheckStrands` | internal/service/result/storage.go:137-141 | A run in which a failed re-check strands the call although every publish succeeded and nothing expired |
| `ResultWait.RunTruthful` | internal/service/result/storage.go:93-103 | Whatever a call returns was stored under its own key; a final response of an unexpired key is still stored |
| `ResultWait.FinalAnswersAgree` | internal/service/result/storage.go:108-151 | Two calls that return a final response for one unexpired key return the same one, and it is still stored |
| `WalletCache.WalletService.Sync` | internal/service/wallets/wallets.go:265-308 | For any key actions in the gaps, any node and any exit: the maps stay in agreement and outcome and keys are exactly the specified ones; the theorems below are restated as its postconditions |
| `WalletKeys.SyncKeySet` | internal/service/wallets/wallets.go:265-308 | The keys a completed sync leaves, deletions included: those of the snapshot or added since whose last action is not a deletion, less the stale ones |
| `WalletKeys.SyncExactIff` | internal/service/wallets/wallets.go:265-308 | With exact proofs, the cached keys are the remote ones plus those added since that were not in the snapshot iff the last action on none of these is a deletion; no other key is ever left |
| `WalletKeys.SyncWithoutDeletions` | internal/service/wallets/wallets.go:265-308 | So they are when no deletion lands after the snapshot, for any interleaving between batches of 100 |
| `WalletKeys.SyncCompletes` | internal/service/wallets/wallets.go:279-303 | With exact proofs the sync completes and adds exactly the keys asked for |
| `WalletKeys.SyncCompletesIff` | internal/service/wallets/wallets.go:279-303 | For any node: a sync completes iff each of its requests, of at most 100 keys, is answered with proofs that all parse |
| `WalletKeys.FetchingOutcome` | internal/service/wallets/wallets.go:279-303 | The keys are asked for in chunks of 100, in order; the loop stops at the first request that fails or is answered with a proof that does not parse, with the error of that request |
| `WalletKeys.SyncConverges` | internal/service/wallets/wallets.go:265-308 | With no key action in between and current proofs, nothing is left for the next sync to fetch |
| `WalletKeys.KeysAfter` | internal/service/wallets/wallets.go:492-576 | The keys any sequence of key actions leaves |
| `WalletCache.WalletService.StoreBatch` | internal/service/wallets/wallets.go:286-302 | Stores the proofs up to the first that does not parse, keeping agreement at every iteration |
| `WalletCache.WalletService.RemoveStaleKeys` | internal/service/wallets/wallets.go:381-404 | Evicts exactly the snapshot keys absent from the remote list, in any map order, keeping agreement |
| `WalletCache.WalletService.KeysNeedingProof` | internal/service/wallets/wallets.go:359-377 | The loop yields, in order, exactly the remote keys that are missing, without nonce, or with another nonce |
| `WalletKeys.NeededMembers` | internal/service/wallets/wallets.go:359-377 | A key is asked for iff the node lists it with a nonce that the cache does not hold for it: missing, without nonce, or another |
| `WalletCache.WalletService.LocalKeySet` | internal/service/wallets/wallets.go:311-321 | The snapshot is the set of cached keys |
| `WalletCache.WalletService.StoreKey` | internal/service/wallets/wallets.go:517-553 | The new contents of both maps after adding or updating a key |
| `WalletCache.WalletService.DropKey` | internal/service/wallets/wallets.go:556-576 | The new contents of both maps after removing a key, cached or not |
| `WalletCache.WalletService.Update` | internal/service/wallets/wallets.go:492-515 | One key action of the event loop, which succeeds iff its data parses; a parse error changes nothing |
| `WalletCache.WalletService.WalletInfo` | internal/service/wallets/wallets.go:220-239 | Answers with one of the wallet's keys iff it has one, and never reaches key-data-not-found |
| `WalletKeys.ListedAgree` | internal/service/wallets/wallets.go:528-553 | Adding a key keeps the maps in agreement: cached iff listed, once, no empty list |
| `WalletKeys.UnlistedAgree` | internal/service/wallets/wallets.go:562-574 | Removing a key keeps the maps in agreement |
| `WalletKeys.DeleteLeavesHole` | internal/service/wallets/wallets.go:265-308 | A sync with a deletion in the gap after the comparison completes and leaves a remote key uncached |
| `ShutdownDrain.DrainingRegistersNothing` | internal/server/internal.go:174-179 | Once draining is set no background write is ever registered |
| `ShutdownDrain.DrainedMeansStored` | internal/server/internal.go:107-126 | When Close has returned after its wait, every answered result has finished ProcessAndStore, even if Shutdown timed out |
| `ShutdownDrain.CleanShutdown` | internal/server/internal.go:112-120 | If Shutdown did not time out either, every accepted request was answered and stored, or refused |
| `ShutdownDrain.CloseCanReturn` | internal/server/internal.go:107-126 | From every state of every run in which Close has not given up, and whether or not Shutdown times out, it can still return by its wait, with every request accepted so far answered and stored, or refused |
| `ShutdownDrain.RequestCanEnd` | internal/server/internal.go:162-187 | Every accepted request can be ended by its own steps, before or during shutdown: answered and stored iff its body decodes, else refused, and no other request is touched |
| `ShutdownDrain.DeadlineLosesIff` | internal/server/internal.go:119-123 | At a return by deadline nothing answered is missing iff the wait group's counter equals the number of handlers registered and not yet answered; zero if Shutdown did not time out |
| `ShutdownDrain.DeadlineLoses` | internal/server/internal.go:119-123 | A run in which the deadline loses an answered result |
| `ShutdownDrain.UnstoredAnswers` | internal/server/internal.go:174-184 | At any time the answered results not yet stored are exactly the answered ones in the wait group |
| `ShutdownDrain.StepInv` | internal/server/internal.go:107-187 | Every step of handlers, writes and Close keeps the invariant |
| `ShutdownDrain.Internal.ResultH` | internal/server/internal.go:162-187 | Registers a background write iff not draining, else stores before answering |
| `ShutdownDrain.Internal.StartDraining` | internal/server/internal.go:108-110 | Sets the flag |
| `ShutdownDrain.Internal.WriteDone` | internal/server/internal.go:176-178 | A finished background write leaves the wait group, whose counter is positive, and is stored |
| `ShutdownDrain.Internal.Await` | internal/server/internal.go:114-123 | Returns by the wait only when the counter is zero, and then every answered result is stored |

## Left out

- PolicyBackfill.PolicyService.Initialize: the fresh-start branch, which submits INITIALIZE_POLICY, is not modelled;
  the requires is exactly that the loop of the restart branch ends.
- VotingRound.VotingRound.AddVote: is one call on the heap; interleavings are in the step system, with at most
  one AddVote in progress per instruction ID, as the boxes lock and, for a new ID, the Voting lock enforce.
- WalletCache.WalletService.StoreKey: keeps key records as values; the aliasing of one record by the map and by
  earlier readers is not modelled.
- SignatureScan.CollectSignatures: takes the outcome of each poll as a parameter; the sleep between polls and the
  database query are not modelled.
- ActionQueues.ActionQueues.Restore: takes one flag for the one Redis write it makes, requeue or removal.
- ShutdownDrain.Internal.Await: takes one poll of the select; Go's choice between two ready cases is a parameter.
- The table of boxes of an instruction ID is a value inside the round's map, not a heap object of its own; nothing
  but the round holds a reference to it except the scheduleEnd goroutines, which appear as the set of timers.
- JSON and ABI encoding, signature recovery, and the errors of marshalling and hashing.
- The content of wallet payloads and backup metadata, from which the source resolves rosters: the resolved roster is
  a parameter, and any answer is allowed.
- The floating-point cap on restore messages: the cap is a parameter of the size check.
- Voter gauges, pending-proposal rankings, box status reports, metrics and logging: only easy members.
- Delivery order on the action channel: both actions of a box are sent after the locks are released.
- TTL expiry as real time: it is absent, or an explicit event where a theorem mentions it.
- HTTP routing and parsing, configuration, liveness, the info and machine-path services.
- The cyclic buffer comes from a library whose source is not part of this model; it is modelled as storing at the
  epoch modulo its size and keeping a resident entry.
- Instants whose year overflows Go's time range; only the int64 conversion of the event timestamp is modelled.
