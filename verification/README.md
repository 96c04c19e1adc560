# AILEE Core: verified model

A Dafny model of the parts of AILEE Core that carry state machines, protocols and exact arithmetic, with
proofs of what they promise. `dafny verify dfyconfig.toml` checks all of it.

- **Boolean expressions** (`ExprLexer`, `ExprGrammar`, `ExprParser`, `ExprRoundTrip`, `ExprValues`): the lexer, the
  recursive-descent evaluator with its shared token index, the grammar it decides, and what an answer depends on.
  Which strings are numbers, and which, is a parameter; a variable may have no value (the source's NaN).
- **Task engine** (`TaskQueue`, `Engine`, `EngineProtocol`, `EngineOutcomes`): the four-level queue and the engine
  as classes, the engine under concurrency as a state machine with one locked section or atomic access a step,
  and what its futures report. A submission enqueues before it registers its promise, as in the source.
- **Governance** (`Proposal`, `Treasury`, `TreasuryGaps`, `TreasuryReleases`, `Governance`, `GovernanceRuns`,
  `GovernanceStanding`, `GovernanceValidators`, `GovernanceQuorum`, `GovernanceMoney`, `GovernanceWitnesses`,
  `MapSums`): proposals, treasury, holders, validators and the DAO as classes, and theorems about every run of the
  interface, the objects that it hands out included. Clock readings, generated ids, square roots and number parsing
  are parameters.
- **Statistics and fixed point** (`Counting`, `Consensus`, `Detectors`, `Clusters`, `Rewards`, `Reputation`,
  `Words`): median consensus, two outlier detectors, the Newton square root, rewards and reputation, all in
  the source's 64-bit arithmetic: unsigned words wrap, casts cut, signed division truncates.
- **Audit log** (`AuditChain`): the hash-chained writer and its verifier. The hash function and what a JSON
  round trip does to an entry are parameters; no theorem assumes that there are no collisions.
- **Traffic** (`NetFlow`): greedy allocation over lossy tunnels, over exact reals.
- **Failover** (`Failover`, `FailoverHistory`, `FailoverRecovery`, `FailoverManager`, `FailoverThreads`): the endpoint
  manager with its circuit breaker, alone and under concurrent callers; replies, latencies and clock readings are
  parameters.

Each class method is proved to do what a function on values says, and the theorems are about those functions:
invariants of every step, whole runs, refinements and round trips.

## What the proofs found

Where a promise does not hold of the code, the model keeps the code, gives an input on which the promise fails
and says exactly when it holds.

- A promise registered after `stop` has swept the map has no value when `stop` returns; only a further start and
  stop can give it one. A promise that a second registration displaces from the map, under the same task id and
  before it is answered, never gets a value: whoever waits for it gets the exception of a broken promise. With
  distinct ids a worker's outcome reaches a future exactly when the promise is registered by the time the worker
  looks for it; a task completed before that reports a cancellation if its promise is registered before the sweep.
- Stopping shuts the queue down for good: an engine that has been stopped runs no task, however often it is started
  again.
- `finalizeProposal` takes a proposal out of the active set even when it is too early to finalize it, so an open
  proposal can go missing from the set. A clock that steps back during an execution lets an effect repeat.
  Finalizing through the proposal itself weighs the quorum against whatever the caller says, which keeps the
  network's quorum exactly when that is no less than the network's weight. Any number of proposals can be active at
  once, although ten is the limit: it is tested when drafts are submitted.
- A proposal whose allocation the treasury refuses ends executed all the same; its amount is on the book exactly when
  the treasury can afford it.
- An allocation under the id of an open one strands the old amount for good; funds that wrap the balance are
  missing from it, a 64-bit range each time, and can break solvency.
- The median lies within the bounds of every majority of the values exactly when the sum of the two middle values
  does not wrap; when it wraps, the median falls below some majority's bounds. The median-deviation detector
  divides by zero on one shape of peer list. The mean-deviation detector computes the true mean exactly when the sum
  of deviations fits in a word, which is enough for its Markov bound; on a wrapped sum the bound can fail, but the
  flagged peers still carry their share of the true total.
- An uptime of minus six minutes or less earns the whole bonus. A success can cost a unit of reputation.
- Reopening a log that is not empty starts the chain afresh, after which verification fails. Verifying some
  other, broken file writes a complaint into the logger's own log and breaks that too. A log cut short passes.
- An unhealthy endpoint is skipped for its status, expired circuit or not, unless it is the last: without health
  checks exactly the last one can be used, and recover, again.
- A caller that is answered after another one's failure has opened the circuit leaves a healthy endpoint with an
  open circuit; no other step does.
- A negative traffic request raises a tunnel's bandwidth.

Where code and documentation differ the model follows the code: the quorum is a tenth of the square root of the
total stake (`include/ailee_dao_governance.h:646`), documented as a tenth of the stake (line 42);
`increaseStake` changes no holder's stake or power.
`supportingDocuments.+= documentHash)` (line 295) is read as appending, `consensusConfidence`
(`src/AmbientAI-Core.cpp:238`) as `consensusConfidenceFp`, `agreementCount` as starting at 0, and indexing the
constant parameter map as a lookup that gives an empty string for a missing key.

## Model

| member | source | states |
|---|---|---|
| `ExprLexer.LexIsTheOnlyReading` | src/expr.cpp:10-30 | a token list is one that the lexing rules allow for a string (operators or operator-free words, blanks between, two-character operators and words taken as long as possible) if and only if it is what the lexer returns |
| `ExprLexer.LexKeepsText` | src/expr.cpp:10-30 | for every string, the tokens joined together are the string without its white space |
| `ExprLexer.RelexSpaced` | src/expr.cpp:10-30 | any list of tokens, written out with blanks between, is lexed into exactly that list |
| `ExprLexer.RelexIsStable` | src/expr.cpp:10-30 | lexing the tokens of a string joined by blanks gives the same tokens again |
| `ExprLexer.OneCharacterIsAToken` | src/expr.cpp:10-30 | a single character is a token unless it is one of the six blanks, and then it is none |
| `ExprLexer.TwoCharactersAreOneToken` | src/expr.cpp:10-30 | two characters are one token if and only if they are one of six named operators or no operator character is among them, and otherwise two |
| `ExprLexer.Tokenize` | src/expr.cpp:10-30 | the loop with its buffer and its flushes returns the lexing of the whole string |
| `ExprGrammar.TextIsReadBack` | src/expr.cpp:63-83 | reading back the tokens of any derivation gives that derivation, with nothing left over |
| `ExprGrammar.Unambiguous` | src/expr.cpp:63-83 | no token list has two derivations under parentheses over comparison over and over or |
| `ExprRoundTrip.CompareAnswersTheSixRelations` | src/expr.cpp:37-46 | a comparison has an answer exactly when both operands have a value and the token is one of the six relations, and then it is that relation |
| `ExprParser.ParseComparison` | src/expr.cpp:50-61 | answers what a comparison read at the index means, leaving the index right behind it |
| `ExprParser.ParseAtom` | src/expr.cpp:63-71 | the same for a comparison or a parenthesised expression; the recursion terminates and the index never passes the end |
| `ExprParser.ParseAnd` | src/expr.cpp:73-77 | the same for a conjunction: the loop over the shared index answers the truth of the longest conjunction that starts at it |
| `ExprParser.ParseOr` | src/expr.cpp:79-83 | the same for a disjunction |
| `ExprParser.EvalBoolExpr` | src/expr.cpp:85-91 | returns the value of the expression string and sets the error text as the source does in every case |
| `ExprParser.EvaluateIsTheDerivationsTruth` | src/expr.cpp:50-91 | soundness and completeness: an answer comes from a derivation of all the tokens and is its truth value, and every string that has a derivation is answered with its truth, none if any operand anywhere has no value |
| `ExprRoundTrip.PrintIsDerived` | src/expr.cpp:48-83 | a formula printed with the fewest parentheses has a derivation whose truth is the formula's |
| `ExprRoundTrip.PrintedFormulaEvaluatesToItsTruth` | src/expr.cpp:10-91 | round trip: any formula printed as a string, then lexed and evaluated, gives the truth value of the formula |
| `ExprValues.VariableAgainstNumber` | src/expr.cpp:50-61 | a comparison of a variable in the table with a number is answered by the relation between its value and the number |
| `ExprValues.NumberAgainstVariable` | src/expr.cpp:50-61 | the same with the variable on the right |
| `ExprValues.PrintedFormulaIsAnsweredWithItsPlainTruth` | src/expr.cpp:10-91 | a printed formula whose operands stand for values, as numbers or as variables that are not numbers, is answered with its two-valued truth on them |
| `ExprValues.AnsweredExactlyWhenEveryOperandHasAValue` | src/expr.cpp:37-91 | a printed formula is answered if and only if there is a table and every operand in it is a number or a variable with a value |
| `ExprValues.EntryUnderANumberChangesNothing` | src/expr.cpp:50-61 | for every string, an entry of the table under a name that is a number changes no answer |
| `TaskQueues.TaskQueue.Enqueue` | include/Orchestrator.h:619-631 | the task goes to the end of the queue of its level and nothing else changes |
| `TaskQueues.TaskQueue.Dequeue` | include/Orchestrator.h:633-664 | returns and removes the front of the highest level that is not empty, and nothing after a shutdown |
| `TaskQueues.TaskQueue.Size` | include/Orchestrator.h:666-670 | the number of tasks over the four levels |
| `TaskQueues.TaskQueue.Snapshot` | include/Orchestrator.h:672-688 | the tasks in the order of the levels, changing nothing |
| `TaskQueues.EnqueueRefinesList` | include/Orchestrator.h:619-631 | on one priority list, enqueueing is stable insertion |
| `TaskQueues.DequeueRefinesList` | include/Orchestrator.h:633-664 | on that list, dequeueing takes the head, and nothing when the list is empty or the queue is shut down |
| `TaskQueues.SnapshotIsDrain` | include/Orchestrator.h:633-688 | a snapshot is the sequence that dequeueing until empty would return |
| `TaskQueues.ReadyExactlyWhenAnswered` | include/Orchestrator.h:633-664 | a caller of dequeue is let through if and only if there is a task for it or the queue is shut down |
| `TaskQueues.RunIsFifoPerLevel` | include/Orchestrator.h:619-664 | over every run and for every level: what was there and what was put there is what came out of it followed by what is still there, in this order |
| `TaskQueues.NextOutIsOldestOfHighest` | include/Orchestrator.h:633-664 | in every run of a new queue the next task out is the oldest of its level that has not come out, and all tasks of higher levels have come out |
| `Engines.Engine.SubmitTask` | include/Orchestrator.h:785-796 | enqueues the task, then maps its id to a new promise |
| `Engines.Engine.ResolvePromise` | include/Orchestrator.h:1025-1044 | takes the promise of the id out of the map and sets its value, or does nothing when there is none |
| `Engines.Engine.Dispatch` | include/Orchestrator.h:997-1014 | counts the task as completed and resolves its promise |
| `Engines.Engine.RunTask` | include/Orchestrator.h:798-823 | the three outcomes of a task, no node, an assignment that was or was not made, or an exception, with counter and promise updated accordingly |
| `Engines.Engine.WorkerTurn` | include/Orchestrator.h:918-934 | one turn of the worker loop: stops when the engine stops or the queue is shut down, otherwise counts, runs and resolves one task, an exception included |
| `Engines.Engine.FailAllPending` | include/Orchestrator.h:1046-1068 | empties the map and settles every promise in it once with the cancellation of its id, in some order |
| `EngineProtocol.RunKeepsInv` | include/Orchestrator.h:732-1068 | every interleaving of submitters, workers and stop keeps the invariant of promises, counters and tasks |
| `EngineProtocol.NoPromiseSettledTwice` | include/Orchestrator.h:1025-1068 | in every interleaving, even with repeated task ids, no promise gets a value twice |
| `EngineProtocol.TasksAreAccountedFor` | include/Orchestrator.h:785-823 | at every moment tasks taken are completed, failed or in a worker's hands, and every submitted task is queued, carried or taken |
| `EngineProtocol.StopSettlesWhatWasRegistered` | include/Orchestrator.h:751-796 | with distinct ids, when stop returns a submitted promise has a value if and only if it was registered before the map was swapped out, even if a worker finished its task first |
| `EngineProtocol.StopSettlesEverything` | include/Orchestrator.h:751-796 | with distinct ids and all submissions finished by then, every promise has its value when stop returns |
| `EngineProtocol.WorkersAnswerTheirOwnPromise` | include/Orchestrator.h:918-1044 | with distinct ids a value set by a worker is set on the promise of the task that the worker ran |
| `EngineProtocol.SubmissionIsSubmitTask` | include/Orchestrator.h:785-796 | undisturbed, the two steps of a submission do what the method does |
| `EngineProtocol.TurnIsWorkerTurn` | include/Orchestrator.h:918-1044 | undisturbed, a worker's six steps do what one turn of its loop does |
| `EngineProtocol.FinishedBeforeRegistration` | include/Orchestrator.h:785-796 | a run in which a worker completes a task before its promise is registered |
| `EngineProtocol.CompletedTaskCanReportCancelled` | include/Orchestrator.h:751-796 | its continuation in which the promise is registered before the sweep, and the future of the completed task reports a cancellation |
| `EngineProtocol.LateRegistrationIsLeftUnset` | include/Orchestrator.h:751-796 | its continuation in which the promise is registered after the sweep and has no value when stop returns |
| `EngineProtocol.RepeatedIdIsLeftUnset` | include/Orchestrator.h:785-796 | two submissions under one id, the second before the first is answered: the first promise has no value when stop returns |
| `EngineOutcomes.StopSettlesExactly` | include/Orchestrator.h:751-796 | for every interleaving, repeated ids included: when stop returns a promise has a value if and only if it was registered before the map was swapped out and no later registration met it in the map under the same id |
| `EngineOutcomes.DisplacedNeverGetsAValue` | include/Orchestrator.h:785-796 | a promise that a registration has displaced gets no value in any continuation, later starts and stops included |
| `EngineOutcomes.WhoAnswers` | include/Orchestrator.h:1025-1068 | when stop returns, a worker has set the value if and only if some worker found the promise in the map, and stop has set it if and only if it was registered in time for the sweep, not displaced and not found |
| `EngineOutcomes.WorkersReportWhatTheyRan` | include/Orchestrator.h:798-934 | every value that a worker sets is, for a chosen assignment, that assignment itself, and otherwise a failure that names the task and the reason, for the choice that the same worker ran the task with at some step |
| `EngineOutcomes.StopReportsCancellation` | include/Orchestrator.h:1046-1068 | every value that stop sets is not placed and names the promise's own task as cancelled |
| `EngineOutcomes.PlacedExactlyWhenChosenPlaced` | include/Orchestrator.h:798-1044 | a future reports a placed task if and only if a worker answered it and ran it with a placed assignment |
| `EngineOutcomes.CountersCountRuns` | include/Orchestrator.h:798-934 | in every interleaving the completed are the runs with a placed assignment, the failed all other runs, and the submitted the tasks counted as taken |
| `EngineOutcomes.AnsweredExactlyWhenInTime` | include/Orchestrator.h:785-1044 | with distinct ids, some worker finds the promise if and only if it is registered by the time that the worker with the outcome of its task looks for it |
| `EngineOutcomes.WhatTheFutureReports` | include/Orchestrator.h:751-1068 | so with distinct ids, and registered before the sweep, a future reports an outcome of its own task that a worker ran if it was registered in that time, and otherwise a cancellation |
| `EngineOutcomes.NoValueWithoutAnotherStart` | include/Orchestrator.h:732-777 | after stop no promise gets a value in any continuation without a start |
| `EngineOutcomes.AnotherStopSettlesLateRegistrations` | include/Orchestrator.h:732-777 | a promise registered after the sweep and not displaced can still get its value: by a further start and stop |
| `EngineOutcomes.StoppedEngineRunsNothing` | include/Orchestrator.h:690-796 | after stop no task is taken, completed or failed in any continuation, later starts included, and what is submitted stays in the queue |
| `EngineOutcomes.NoWorkerBlocks` | include/Orchestrator.h:751-764 | while stop joins, every worker that has not exited can take its next step, whatever its task comes to |
| `EngineOutcomes.JoinIsBounded` | include/Orchestrator.h:751-764 | while stop joins, however submissions interleave, the workers together take no more steps than were left at its beginning |
| `EngineOutcomes.SweepWhenNoStepsAreLeft` | include/Orchestrator.h:758-776 | and the join is over exactly when none are left |
| `Proposals.Proposal.Activate` | include/ailee_dao_governance.h:187-196 | only a draft opens; its voting window is fourteen days from now |
| `Proposals.Proposal.RecordVote` | include/ailee_dao_governance.h:198-225 | a vote counts when the proposal is open, the time is in the window and the voter is new, and then raises the tally of its choice and the total by its power |
| `Proposals.Proposal.FinalizeVoting` | include/ailee_dao_governance.h:227-264 | nothing before the end of the window; then expired without quorum, defeated without votes or below the threshold, otherwise succeeded with a time lock of seven days |
| `Proposals.Proposal.QueueForExecution` | include/ailee_dao_governance.h:266-270 | only a succeeded proposal is queued |
| `Proposals.Proposal.Execute` | include/ailee_dao_governance.h:272-282 | only a queued proposal whose time lock has passed is executed |
| `Proposals.Proposal.Cancel` | include/ailee_dao_governance.h:284-288 | everything but an executed proposal can be cancelled |
| `Proposals.ThresholdIsASupermajority` | include/ailee_dao_governance.h:240-256 | passing is equivalent to 6667 votes for to 3333 against, which is more than two to one, and for an emergency or a constitution amendment to four to one, with at least one vote for |
| `Proposals.HowFinalizingEnds` | include/ailee_dao_governance.h:227-264 | an open proposal after its window expires if and only if ten times its power is below the weight, and otherwise succeeds if and only if it has those votes, and is defeated if not |
| `Proposals.HowActivated` | include/ailee_dao_governance.h:187-196 | every open proposal was activated by one call that set its window |
| `Proposals.HowPassed` | include/ailee_dao_governance.h:198-264 | every succeeded proposal was finalized at least fourteen days after activation, with quorum, over the threshold of its type, on the tallies it still has |
| `Proposals.HowQueued` | include/ailee_dao_governance.h:266-270 | every queued proposal passed before it was queued, with the tallies and times it still has |
| `Proposals.HowExecuted` | include/ailee_dao_governance.h:187-282 | for every sequence of calls and any clock, an executed proposal was activated, passed, queued and executed in this order, with 14 and 7 days between |
| `Proposals.FinalStatusesAreFinal` | include/ailee_dao_governance.h:277-288 | executed and cancelled are the statuses that no call ever changes, and the only ones |
| `Proposals.VotersAreThoseInTheWindow` | include/ailee_dao_governance.h:187-225 | for every sequence of calls, a voter is counted if and only if some call recorded its vote while the proposal was open and within fourteen days of the call that opened it |
| `Proposals.ExecutedExactlyAfterTheTimelock` | include/ailee_dao_governance.h:272-282 | a queued proposal is executed by a call if and only if it comes at least seven days after the call that finalized it |
| `Proposals.ParametersAreAsSet` | include/ailee_dao_governance.h:290-292 | a parameter has a value if and only if the latest call that set it gave that value |
| `Proposals.DocumentsAreAsAdded` | include/ailee_dao_governance.h:294-296 | a proposal keeps its documents in the order in which they were added |
| `Proposals.AnswersTellWhatHappened` | include/ailee_dao_governance.h:187-288 | each call answers success if and only if it has done what it asks for |
| `Treasuries.Treasury.CreateAllocation` | include/ailee_dao_governance.h:350-374 | refused beyond the available balance; otherwise files the allocation with a release time thirty days on and reserves its amount |
| `Treasuries.Treasury.ReleaseAllocation` | include/ailee_dao_governance.h:376-395 | pays out once, after the release time and with half of the milestones completed |
| `Treasuries.Treasury.CompleteMilestone` | include/ailee_dao_governance.h:397-407 | counts a milestone whose index exists |
| `Treasuries.Treasury.AddFunds` | include/ailee_dao_governance.h:409-411 | adds to the balance in 64-bit arithmetic |
| `Treasuries.NothingWraps` | include/ailee_dao_governance.h:350-411 | on a solvent treasury whose new funds fit, no addition or subtraction wraps: balance and reserved total change by exactly what is added, promised and paid |
| `Treasuries.StepKeepsSolvency` | include/ailee_dao_governance.h:350-411 | open allocations stay covered by the reserved total and that by the balance |
| `Treasuries.StepKeepsExactness` | include/ailee_dao_governance.h:350-411 | with fresh ids the reserved total stays exactly the sum of the open allocations, and the released entries the sum of what was paid |
| `Treasuries.TreasuryStaysSolvent` | include/ailee_dao_governance.h:350-411 | in every run whose funds fit, the treasury is solvent and the initial balance plus what was added is the balance plus what was paid |
| `Treasuries.FreshIdsMakeTheBookExact` | include/ailee_dao_governance.h:350-411 | with fresh ids besides, the reserved total equals the open allocations and the book alone tells what came in |
| `Treasuries.ReusedIdStrandsMoney` | include/ailee_dao_governance.h:368-371 | an allocation created under the id of an open one widens the gap between the reserved total and the open allocations by exactly the old amount |
| `TreasuryGaps.GapsAfterStep` | include/ailee_dao_governance.h:350-411 | every operation widens the gap between reserved and open money by what it hides of open allocations, and that between paid and recorded money by what it erases of released ones |
| `TreasuryGaps.StepIsExactExactlyWhen` | include/ailee_dao_governance.h:350-411 | an exact book stays exact if and only if the operation overwrites neither open nor released money |
| `TreasuryGaps.GapsOverRun` | include/ailee_dao_governance.h:350-411 | in every run whose funds fit the gaps are the sums of what its operations have hidden and erased |
| `TreasuryGaps.RunIsExactExactlyWhen` | include/ailee_dao_governance.h:350-411 | so the book is exact after a run if and only if those sums are zero |
| `TreasuryGaps.StrandedForGood` | include/ailee_dao_governance.h:350-411 | money that is stranded at some point of a run stays stranded: the gap never narrows |
| `TreasuryGaps.ConservedExactlyWhenNothingWrapped` | include/ailee_dao_governance.h:350-411 | in every run that stays solvent all money is accounted for if and only if no funds wrapped the balance |
| `TreasuryGaps.MissingIsWhatWrapped` | include/ailee_dao_governance.h:409-411 | in such a run the money missing is a 64-bit range for each time that funds wrapped |
| `Treasuries.FundsArriveExactlyWhenTheyFit` | include/ailee_dao_governance.h:409-411 | funds arrive in full if and only if the sum fits in 64 bits; otherwise the treasury stays solvent if and only if what is left of the balance covers the reserved total |
| `Treasuries.WrappedFundsBreakSolvency` | include/ailee_dao_governance.h:376-411 | a run in which wrapping funds break solvency and a release underflows |
| `TreasuryReleases.ReleasedExactlyWhenAskedInTime` | include/ailee_dao_governance.h:350-407 | in every run whose funds fit, an allocation is as it was made, with as many milestones completed as calls completed since, and released if and only if some call asked for it at least thirty days after it was made and with half of the milestones, rounded down, completed |
| `TreasuryReleases.AllocatedExactlyWhenMade` | include/ailee_dao_governance.h:350-374 | in every run whose funds fit there is an allocation under an id if and only if a call created one when what was not promised yet covered it |
| `TreasuryReleases.AnswersTellWhatHappened` | include/ailee_dao_governance.h:350-407 | on a solvent treasury, a creation answers with the id if and only if it is covered, and releases and milestones answer success if and only if they change the entry |
| `Governance.StakeHolder.IncreaseReputation` | include/ailee_dao_governance.h:115-117 | reputation grows, up to 1.0 |
| `Governance.ValidatorRegistry.AddValidator` | include/ailee_dao_governance.h:467-486 | adds an address that is not there yet, with a clean record |
| `Governance.ValidatorRegistry.RemoveValidator` | include/ailee_dao_governance.h:488-494 | marks a known validator inactive and keeps its entry |
| `Governance.DAOGovernance.RegisterStakeHolder` | include/ailee_dao_governance.h:560-568 | adds a new holder and its stake to the network's total |
| `Governance.DAOGovernance.IncreaseStake` | include/ailee_dao_governance.h:570-577 | raises the network's total and nothing of the holder's |
| `Governance.DAOGovernance.SubmitProposal` | include/ailee_dao_governance.h:580-606 | needs a holder with the minimum stake and fewer than ten active proposals; files a draft and credits the proposer |
| `Governance.DAOGovernance.ActivateProposal` | include/ailee_dao_governance.h:608-617 | opens a draft and puts it into the active set |
| `Governance.DAOGovernance.Vote` | include/ailee_dao_governance.h:619-639 | a vote that counts changes the proposal's tallies and credits the voter, both or neither |
| `Governance.DAOGovernance.FinalizeProposal` | include/ailee_dao_governance.h:641-655 | finalizes against the square root of the total stake, queues what succeeded, and in any case takes the proposal out of the active set |
| `Governance.DAOGovernance.ExecuteProposalLogic` | include/ailee_dao_governance.h:703-741 | the effect by type on treasury or validators; a number that does not parse is an exception and changes nothing |
| `Governance.DAOGovernance.ExecuteProposal` | include/ailee_dao_governance.h:657-678 | only an executable proposal takes effect; afterwards it is marked and its proposer credited |
| `GovernanceRuns.RunKeepsLives` | include/ailee_dao_governance.h:560-741 | in every run each proposal's state is the outcome of the recorded calls on it |
| `GovernanceRuns.ExecutedProposalTookTheWholePath` | include/ailee_dao_governance.h:187-282 | in every run, whatever the clock does, an executed proposal went through the whole path with at least 21 days from activation to execution, and met a quorum of the weight that its finalization was called with |
| `GovernanceQuorum.FinalizationsAreSteps` | include/ailee_dao_governance.h:227-264 | in every run, every finalization on a proposal's record is a step of the run, through the DAO or through the object it hands out, on the proposal as that step met it |
| `GovernanceQuorum.FinalizationsAreWeighed` | include/ailee_dao_governance.h:641-655 | in every run that finalizes through the DAO, every finalization was called with the square root of the total stake at that point of the run, on the proposal as it was there |
| `GovernanceQuorum.ExecutedMetTheNetworksQuorum` | include/ailee_dao_governance.h:227-264 | so in such a run an executed proposal met the quorum of the network's stake and its threshold when it was finalized, on the tallies it still has |
| `GovernanceQuorum.SafeExactlyWhenNoLess` | include/ailee_dao_governance.h:227-264 | finalized on a weight that the caller names, every proposal that passes has met the network's quorum if and only if the named weight is no less than the network's |
| `GovernanceQuorum.SafeForVotesExactlyWhen` | include/ailee_dao_governance.h:227-264 | for tallies that votes can produce, if and only if it is no less or the network has no weight |
| `GovernanceQuorum.SafeWeightsKeepTheQuorum` | include/ailee_dao_governance.h:227-264 | in every run whose direct finalizations name no less than the network's weight at that point, an executed proposal met the network's quorum and its threshold |
| `GovernanceWitnesses.DirectFinalizationSkipsTheQuorum` | include/ailee_dao_governance.h:227-264 | a run from the founding on in which a proposal passes this way without the quorum of the network's stake |
| `GovernanceRuns.EffectsHappenOnce` | include/ailee_dao_governance.h:657-741 | in every run with fresh ids and a clock that does not step back within an execution, no proposal takes effect twice, and one that took effect is executed |
| `GovernanceValidators.ExecutionAnswers` | include/ailee_dao_governance.h:657-741 | an execution answers success and takes effect if and only if the proposal is queued, its time has come and its numbers parse; it throws if only they do not |
| `GovernanceValidators.RegisteredExactlyWhenAdded` | include/ailee_dao_governance.h:467-494 | in every run, an address is in the registry if and only if the execution of a proposal has added it |
| `GovernanceValidators.EntriesAreAsVoted` | include/ailee_dao_governance.h:467-494 | its entry has the identity, the stake and the time of the first such execution, and is active if and only if no execution has removed it since |
| `GovernanceValidators.RegistryAnswers` | include/ailee_dao_governance.h:467-494 | the registry answers success if and only if it has added the address, or knows the one to remove |
| `GovernanceRuns.EffectCanRepeatWhenTheClockStepsBack` | include/ailee_dao_governance.h:657-678 | after an effect the proposal can be executed again if and only if the clock had stepped back below its execution time before the mark |
| `GovernanceWitnesses.SteppingClockRepeatsAnEffect` | include/ailee_dao_governance.h:657-678 | a run from the founding on in which a proposal takes effect twice |
| `GovernanceRuns.VotesAgree` | include/ailee_dao_governance.h:198-225 | in every run with fresh ids and votes through the DAO, total power is for plus against plus abstain and the sum of the voters' powers when they voted, and each holder's count of votes is the number of proposals it has voted on |
| `GovernanceStanding.StandingIsEarned` | include/ailee_dao_governance.h:98-126 | in every run, a holder has the stake of its first registration and a reputation of a half plus a hundredth for each submission, half a hundredth for each ballot and a twentieth for each execution of a proposal of its own, up to 1.0 |
| `GovernanceStanding.NetworkStakeIsWhatWasStaked` | include/ailee_dao_governance.h:560-577 | in every run, the network's stake is all that was staked by first registrations and raises, in 64 bits |
| `GovernanceStanding.BallotCountsByStanding` | include/ailee_dao_governance.h:110-113 | a vote that counts adds to its own choice and to the total the root of the registered stake times that reputation, and nothing to the other choices |
| `GovernanceStanding.FiledExactlyWhen` | include/ailee_dao_governance.h:580-606 | a submission is filed if and only if the proposer registered at least 1000 and fewer than ten proposals are active |
| `GovernanceStanding.CountsExactlyWhen` | include/ailee_dao_governance.h:619-639 | a vote counts if and only if the voter is registered and has not voted on the proposal, and this is open and in its window |
| `GovernanceStanding.AnswersTellWhatHappened` | include/ailee_dao_governance.h:560-655 | each call on the DAO answers success if and only if it has done what it asks for |
| `GovernanceStanding.SubmissionAnswers` | include/ailee_dao_governance.h:580-606 | a submission answers with the id if and only if it files the proposal, as a draft with what was submitted and without votes; otherwise nothing changes |
| `GovernanceRuns.ActiveStaysExactUnlessSpoiled` | include/ailee_dao_governance.h:580-655 | from an exact active set, one call keeps it exact if and only if it does not finalize an open proposal early, file over an open one, or open or close one behind the DAO's back |
| `GovernanceRuns.ActiveIsExact` | include/ailee_dao_governance.h:608-655 | in every run without such calls the active set is the set of proposals open for voting |
| `GovernanceRuns.AlwaysExactExactlyWhen` | include/ailee_dao_governance.h:580-655 | the active set is exact after every step of a run if and only if the run has no such call |
| `GovernanceWitnesses.EarlyFinalizationLosesAnOpenProposal` | include/ailee_dao_governance.h:641-655 | a run from the founding on that leaves an open proposal outside the active set |
| `GovernanceWitnesses.LimitIsKeptExactlyUnlessOverfilled` | include/ailee_dao_governance.h:580-655 | from at most ten active proposals, a call leaves more than ten if and only if it activates a further draft while there are ten |
| `GovernanceWitnesses.WithinLimitExactlyWhen` | include/ailee_dao_governance.h:580-655 | a run never has more than ten active proposals if and only if no call of it is of that kind |
| `GovernanceWitnesses.AnyNumberCanBeActive` | include/ailee_dao_governance.h:593-617 | for every number there is a run with that many active proposals, eleven included |
| `GovernanceRuns.DaoTreasuryStaysSolvent` | include/ailee_dao_governance.h:350-411 | in every run of the DAO, executed treasury proposals included, the treasury stays solvent and all money is accounted for |
| `GovernanceMoney.DaoRunsItsTreasury` | include/ailee_dao_governance.h:657-741 | refinement: what a run of the DAO does to its treasury is the run of its payments |
| `GovernanceMoney.DaoBookIsExact` | include/ailee_dao_governance.h:350-411 | in every run of the DAO with fresh allocation ids and fitting funds the reserved total is the sum of the open allocations and the released ones are what was paid |
| `GovernanceMoney.DaoBookIsExactExactlyWhen` | include/ailee_dao_governance.h:350-411 | and it is exact at all if and only if no payment of the run has overwritten open or released money |
| `GovernanceMoney.AllocatedExactlyWhenAffordable` | include/ailee_dao_governance.h:657-741 | a proposal for an allocation under a fresh id, when it takes effect, puts its amount on the book if and only if the treasury can afford it; it ends executed either way, if the clock has not stepped back |
| `GovernanceWitnesses.RefusedAllocationCountsAsExecuted` | include/ailee_dao_governance.h:657-741 | a run from the founding on in which the treasury refuses an allocation and its proposal ends executed |
| `Counting.SortRearranges` | src/AmbientAI-Core.cpp:338 | sorting rearranges its input |
| `Counting.SortOfPermutation` | src/AmbientAI-Core.cpp:626 | lists with the same elements sort to the same list |
| `Consensus.CalculateMedianFp` | src/AmbientAI-Core.cpp:336-344 | returns the median: 0 for no values, the middle of an odd number, the wrapped average of the middle two of an even number |
| `Consensus.MedianIsRobustExactlyWhenMiddleFits` | src/AmbientAI-Core.cpp:336-344 | the median lies within the bounds of every majority of the values if and only if the two middle values add up in 64 bits |
| `Consensus.HonestMajorityHoldsTheMedian` | src/AmbientAI-Core.cpp:336-344 | if more than half of the nodes are honest, the median lies between honest values |
| `Consensus.MedianIsInTheMiddle` | src/AmbientAI-Core.cpp:336-344 | the median is a value with as many values on one side as on the other, or the rounded average of the two that share the middle, wrapped or not |
| `Consensus.GenuineInOrder` | src/AmbientAI-Core.cpp:238-252 | the samples that are aggregated are those with good signatures, all of them and no others, in their order |
| `Consensus.AggregateWithConsensus` | src/AmbientAI-Core.cpp:230-288 | fewer than three samples, or none whose signature verifies, agree on nothing; otherwise the medians of the verified samples, the agreeing count and the others' keys over all samples, which partition them, and the confidence |
| `Consensus.ConsensusIsByzantineRobust` | src/AmbientAI-Core.cpp:230-265 | if the honest positions are more than half of the positions whose samples have good signatures, each consensus metric lies within the bounds of the honest samples of that metric, for odd and even numbers of samples whose middle pairs fit |
| `Consensus.AgreesExactlyWhenClose` | src/AmbientAI-Core.cpp:346-362 | a node agrees if and only if it is within three tenths of the consensus latency and within 3000 of the processor load |
| `Consensus.FaultyAreTheOthers` | src/AmbientAI-Core.cpp:267-286 | the keys named are those of the nodes that do not agree, each once, in the order of the samples |
| `Consensus.ConfidenceIsASupermajority` | src/AmbientAI-Core.cpp:277-286 | a confidence of 6700 means more than two thirds of all nodes; when nothing wraps the confidence is the agreeing share in ten thousandths, rounded down, and 6700 is equivalent to 67 percent |
| `Consensus.ConfidentRoundsOverlap` | src/AmbientAI-Core.cpp:267-286 | two rounds over the same nodes that both reach 6700 have more than a third of the nodes agreeing in both |
| `Consensus.AgreeingNodesAreClose` | src/AmbientAI-Core.cpp:346-362 | two nodes that agree with one consensus differ by at most twice the latency threshold, and by at most 6000 in processor load |
| `Detectors.DetectByzantineNodeFp` | src/AmbientAI-Core.cpp:613-644 | computes the verdict from the median and the median deviation of the peers, or none where the source divides by zero |
| `Detectors.MajorityPasses` | src/AmbientAI-Core.cpp:619-643 | for at least three peers and a threshold of at least 6744, at least n/2+1 of the peers pass when tested against the list |
| `Detectors.MajorityPassesExactlyFrom6744` | src/AmbientAI-Core.cpp:619-643 | 6744 is the exact bound: a threshold is safe for every peer list if and only if it is at least that |
| `Detectors.MajorityCanBeFlagged` | src/AmbientAI-Core.cpp:619-643 | below it, two of the three peers 0, 10000, 20000 are flagged |
| `Detectors.NoVerdictExactlyOnExtremes` | src/AmbientAI-Core.cpp:638-641 | the denominator wraps to zero if and only if half of at least three peers report 0 and the other half the largest word |
| `Detectors.FlaggedExactlyWhenFar` | src/AmbientAI-Core.cpp:613-644 | as long as nothing wraps, a value is flagged if and only if 0.6745 times its distance from the median exceeds the threshold in units of the median deviation; none among fewer than three peers |
| `Detectors.VerdictIgnoresOrder` | src/AmbientAI-Core.cpp:621-635 | the verdict depends only on the multiset of the peers' values |
| `Detectors.VerdictIsShiftInvariant` | src/AmbientAI-Core.cpp:621-643 | adding one constant to all values, the tested one included, changes no verdict as long as the sums are words |
| `Detectors.DetectByzantineNode` | src/AmbientAI.cpp:197-225 | the verdict from the median and the mean deviation of the peers that have a sample, summed in 64 bits; no verdict against a node without a sample or with fewer than three such peers |
| `Detectors.PresentInOrder` | src/AmbientAI.cpp:199-206 | the values are the samples of the nodes that have one, in the order of the nodes |
| `Detectors.FlaggedExactlyWhenFarFromMost` | src/AmbientAI.cpp:197-225 | as long as nothing wraps, a node is flagged if and only if it has a sample, at least three peers have one, and 0.6745 times its distance from the median exceeds the threshold in units of the mean deviation |
| `Detectors.TotalAfterSort` | src/AmbientAI.cpp:212-215 | the sum of deviations does not depend on the order |
| `Detectors.MarkovBound` | src/AmbientAI.cpp:212-224 | if the sum of deviations fits, the number of values a threshold T flags times T+1 is below 6745 times their number |
| `Detectors.FewPeersAreFlagged` | src/AmbientAI.cpp:197-225 | the same bound on the peers that are flagged when each is tested against the whole list |
| `Detectors.FewPeersAreFlaggedWhenValuesAreSmall` | src/AmbientAI.cpp:197-225 | the bound under a condition on the values alone: their number times their largest fits in 64 bits |
| `Detectors.FlaggedWeigh` | src/AmbientAI.cpp:212-224 | each value that a threshold flags takes its share of the total deviation from any centre |
| `Detectors.FlaggedPeersCarryTheirShare` | src/AmbientAI.cpp:197-225 | whether the sum wraps or not, the number of flagged peers times the threshold's share is at most the true total deviation, scaled |
| `Detectors.MeanIsExactExactlyWhenTheSumFits` | src/AmbientAI.cpp:212-216 | the mean that the source computes is the true one if and only if the sum of deviations fits in 64 bits |
| `Detectors.MarkovBoundFailsWhenTheSumWraps` | src/AmbientAI.cpp:212-224 | values 0, 0, 2^63, 2^63: the sum wraps to zero and two of four nodes are flagged at the default threshold |
| `Clusters.StepIsNotBelow` | include/AmbientAI-Core.h:44-47 | a Newton step never goes below the integer square root |
| `Clusters.IntegerSquareRoot` | include/AmbientAI-Core.h:42-47 | the loop terminates and its result r satisfies r*r <= n < (r+1)*(r+1) |
| `Clusters.SquareRootIsUnique` | include/AmbientAI-Core.h:42-47 | there is only one such number |
| `Clusters.EvaluateCluster` | include/AmbientAI-Core.h:22-54 | sums and averages as the source computes them in 64 bits, and a hundred times the integer square root of the scaled size, or the fallback |
| `Clusters.DispersionIsTheRootOfTheSize` | include/AmbientAI-Core.h:36-51 | for a cluster of k nodes whose scaled size fits, the dispersion d satisfies d*d <= k*10^8 < (d+100)*(d+100) |
| `Clusters.AverageIsWithin` | include/AmbientAI-Core.h:26-34 | an average lies between the bounds of the values unless the sum can wrap |
| `Clusters.TotalsAdd` | include/AmbientAI-Core.h:26-34 | the sums before wrapping are additive over parts of the cluster, from the values of single nodes |
| `Rewards.ScalingStaysBelow` | src/AmbientAI-Core.cpp:170-177 | one scaled multiplication never exceeds its exact value, and keeps any gap when the factor is at least 1.0 |
| `Rewards.RoundingLosesLittle` | src/AmbientAI-Core.cpp:170-177 | without a cut it loses less than one unit beyond what was lost before, times the factor |
| `Rewards.EnergyRewardIsAtMostExact` | src/AmbientAI-Core.cpp:163-186 | on all inputs the energy reward is at most the cap, and before the cap at most the exact rational value |
| `Rewards.EnergyRewardIsNearExactlyWhenItFits` | src/AmbientAI-Core.cpp:163-186 | for an efficiency of at most 1.0 the reward before the cap is less than three units below the exact value if and only if no cast cuts anything |
| `Rewards.EnergyRewardIsTheCappedExactAmount` | src/AmbientAI-Core.cpp:163-186 | when no cast cuts anything, what is paid is the smaller of the exact amount and 100 million tokens, to within three units |
| `Rewards.EnergyRewardIsMonotone` | src/AmbientAI-Core.cpp:163-186 | more energy and more efficiency never earn less if the larger reward is not cut |
| `Rewards.CutRewardCanDrop` | src/AmbientAI-Core.cpp:170-184 | with a cut, one more unit of energy can take the reward from the cap to zero |
| `Rewards.TokenRewardIsAtMostExact` | src/AmbientAI.cpp:267-291 | on all inputs the node reward is at most the cap, and before the cap at most the exact product |
| `Rewards.TokenRewardIsNear` | src/AmbientAI.cpp:275-285 | with factors of at most 1.0 and a first product that fits, it is less than four units below it |
| `Rewards.TokenRewardIsTheCappedExactAmount` | src/AmbientAI.cpp:267-291 | with such factors, what is paid is the smaller of the exact amount and 100 million tokens, to within four units |
| `Reputation.WhoEarnsTheWholeBonus` | src/AmbientAI.cpp:245-250 | the bonus is 100 if and only if the uptime is at least ten hours or at most minus six minutes; for uptimes that are not negative it is their tenths of an hour, capped |
| `Reputation.AverageInClosedForm` | src/AmbientAI.cpp:254-260 | the moving average in closed form, with the unit that rounding down twice can cost |
| `Reputation.FailureLowers` | src/AmbientAI.cpp:235-265 | a failure strictly lowers every score but zero, for any uptime |
| `Reputation.SuccessRaisesLittle` | src/AmbientAI.cpp:235-265 | a success with a service level of at most 1.0 raises a score by at most 10 |
| `Reputation.SuccessKeepsTheScoreExactlyWhen` | src/AmbientAI.cpp:235-265 | a success does not lower a score if and only if the score is a multiple of 20 or its change reaches the next one; it never costs more than one unit |
| `Reputation.FailureCosts` | src/AmbientAI.cpp:235-265 | a failure without a bonus costs 25 units, 26 from 500 on unless the score is a multiple of 20, down to 0 |
| `Reputation.SuccessEarns` | src/AmbientAI.cpp:235-265 | what a success earns in closed form, for every score, service level and uptime that is not negative |
| `Reputation.HugeScores` | src/AmbientAI.cpp:235-265 | a score far above 1.0 comes back to 1.0, and one well above 2^63 reads as negative and ends below ten units |
| `Reputation.ScoreAfter` | src/AmbientAI.cpp:260-264 | over every run of updates the score stays in the range from 0 to 10000 |
| `Reputation.PerfectRunClimbs` | src/AmbientAI.cpp:235-265 | every run of perfect successes gains at least nine units an update until 10000 |
| `Reputation.FailingRunFalls` | src/AmbientAI.cpp:235-265 | every run of failures loses at least one unit an update until 0 |
| `Reputation.RunClimbsSlowly` | src/AmbientAI.cpp:235-265 | no run with service levels of at most 1.0 gains more than ten units an update |
| `AuditChain.SecurityAuditLogger.constructor` | api/security_audit.py:96-157 | opens the file in append mode, starts the chain at the initial hash and logs its own start |
| `AuditChain.SecurityAuditLogger.LogEvent` | api/security_audit.py:159-209 | appends the entry with the previous hash and its own and remembers the latter; without the chain, with neither |
| `AuditChain.SecurityAuditLogger.VerifyIntegrity` | api/security_audit.py:223-275 | answers as the chain of the file demands, with the exceptions of the source, and writes a complaint to the logger's own log exactly when it answers that the chain is broken |
| `AuditChain.CheckGrows` | api/security_audit.py:246-275 | checking a log with one more line is checking the log and then that line against its last hash |
| `AuditChain.AcceptedExactlyWhenChained` | api/security_audit.py:241-275 | a log is accepted if and only if every line is an entry that carries its own digest and names the hash of the line before it, or the initial hash |
| `AuditChain.FirstBadLineDecides` | api/security_audit.py:241-275 | the first line that is not so chained decides: an exception if it is a JSON value that is no object, and otherwise a no |
| `AuditChain.GenesisIsZeros` | api/security_audit.py:132-157 | the initial hash is 64 zeros |
| `AuditChain.AcceptanceIsPrefixClosed` | api/security_audit.py:246-275 | every beginning of an accepted log is accepted |
| `AuditChain.SameLastHashSameLog` | api/security_audit.py:241-275 | binding: two accepted logs with the same last hash are equal entry by entry, or contain a collision of the hash function or an entry that hashes to the initial value |
| `AuditChain.RunIsAcceptedExactlyWhenHarmless` | api/security_audit.py:159-275 | from an accepted log, a run of one logger leaves an accepted log if and only if every body it logs survives being reloaded and no verification of another file fails |
| `AuditChain.LogHoldsWhatWasLogged` | api/security_audit.py:159-275 | for every run, the entries in the file are those that were there followed by those logged, as they read back, in their order |
| `AuditChain.FreshLogPasses` | api/security_audit.py:148-275 | so every log written to a fresh file passes, in exactly these runs |
| `AuditChain.ReopenedLogPassesExactlyWhen` | api/security_audit.py:132-157 | a logger opened on an existing log leaves it acceptable if and only if that log was accepted and ended in the initial hash |
| `AuditChain.RestartBreaksTheLog` | api/security_audit.py:148-157 | so a restart breaks every accepted log that is not empty, unless an entry hashes to the initial value |
| `AuditChain.ReplacedLogIsTheSame` | api/security_audit.py:190-275 | an accepted log put in place of the one a logger wrote, with the last hash it remembers, is the same log, or the hash is broken |
| `AuditChain.TruncationIsAccepted` | api/security_audit.py:241-275 | the verifier accepts every log cut short |
| `NetFlow.NetFlowTunnel.RelayBandwidth` | src/AILEE_NetFlow.cpp:28-44 | an active tunnel with bandwidth relays the portion of its mode of what it is given and loses exactly that; others relay nothing |
| `NetFlow.HybridNetFlow.AddTunnel` | include/ailee_netflow.h:181-184 | appends a copy of the tunnel |
| `NetFlow.HybridNetFlow.PushTraffic` | src/AILEE_NetFlow.cpp:82-95 | the loop over the tunnels, skipping inactive ones and stopping when nothing is left, returns what was delivered and leaves each tunnel as its share of the request demands |
| `NetFlow.DeliveredIsTheDropInBandwidth` | src/AILEE_NetFlow.cpp:28-95 | conservation, for every request: what is delivered is what the tunnels lost |
| `NetFlow.DeliveredIsBounded` | src/AILEE_NetFlow.cpp:28-95 | for a request that is not negative, delivered is between 0 and the smaller of request and active capacity |
| `NetFlow.TunnelsAfterwards` | src/AILEE_NetFlow.cpp:28-95 | inactive tunnels are unchanged, modes and activity always, no bandwidth rises for such a request and none falls below zero |
| `NetFlow.DeliveredIsAtLeastThePortion` | src/AILEE_NetFlow.cpp:28-95 | delivered is at least the portion that the worst active mode leaves of the smaller of request and active capacity |
| `NetFlow.AnyMixDelivers85Percent` | src/AILEE_NetFlow.cpp:28-95 | so at least 85 percent of it for any mix of modes |
| `NetFlow.WithoutOnion95Percent` | src/AILEE_NetFlow.cpp:28-95 | and 95 percent when no active tunnel is an onion tunnel |
| `NetFlow.WireGuardDeliversEverything` | src/AILEE_NetFlow.cpp:28-95 | and all of it when every active tunnel is a WireGuard tunnel |
| `NetFlow.WireGuardDrainsInOrder` | src/AILEE_NetFlow.cpp:82-95 | each active tunnel then gives exactly what the tunnels before it could not, as far as it can |
| `NetFlow.OneTunnelDeliversItsPortion` | src/AILEE_NetFlow.cpp:28-95 | one tunnel delivers all, 85 or 95 percent of the smaller of request and bandwidth, depending on its mode, so the bounds are tight |
| `NetFlow.NoneRisesExactlyUnlessNegative` | src/AILEE_NetFlow.cpp:28-95 | a request leaves every bandwidth of every tunnel list where it is or lower if and only if it is not negative |
| `NetFlow.NegativeRequestReachesOneTunnel` | src/AILEE_NetFlow.cpp:82-95 | a request of nothing or less changes no tunnel but the first active one |
| `Failover.EveryInterleavingIsConsistent` | api/bitcoin_rpc_failover.py:135-258 | for every interleaving of the locked updates, a status is unhealthy if and only if the failures in a row reach the threshold, degraded if and only if there are fewer but some, and successes never exceed requests |
| `Failover.FailuresAreMarksInARow` | api/bitcoin_rpc_failover.py:135-258 | the failures in a row are the marks since the last answer, so the history since then decides the status |
| `Failover.CallReturnsTheFirstAnswer` | api/bitcoin_rpc_failover.py:202-273 | with distinct URLs a call returns the answer of the first eligible endpoint in priority order that gives one; each eligible one before it is charged one request and one failure, all others are unchanged |
| `Failover.SequentialRunsAreSound` | api/bitcoin_rpc_failover.py:135-273 | in every sequential run with distinct URLs a circuit belongs to an unhealthy endpoint, and statuses stay consistent |
| `Failover.NewManagerIsSound` | api/bitcoin_rpc_failover.py:40-98 | a manager whose endpoints have not been tried and that has no open circuit satisfies what sequential runs keep |
| `FailoverThreads.CircuitsStayUnhealthyExactlyUnless` | api/bitcoin_rpc_failover.py:135-258 | from a sound state every possible update keeps circuits with unhealthy endpoints, if and only if it does not record an answer for an endpoint whose circuit is in the dictionary |
| `FailoverThreads.SoundThroughoutExactlyUnless` | api/bitcoin_rpc_failover.py:135-258 | for every interleaving of updates: the rule holds after every one if and only if none of them is of that kind |
| `FailoverThreads.NextIsSoundExactlyUnless` | api/bitcoin_rpc_failover.py:135-267 | the same for the steps of callers in the failover loop and of health checks: the one that breaks it is a caller answered after another thread has opened the circuit |
| `FailoverThreads.AlwaysSoundExactlyUnlessLate` | api/bitcoin_rpc_failover.py:135-267 | and for every run of any number of callers and health checks |
| `FailoverThreads.LoneCallerKeepsTheRule` | api/bitcoin_rpc_failover.py:202-267 | a caller alone keeps the rule with every step |
| `FailoverThreads.TwoCallersBreakTheRule` | api/bitcoin_rpc_failover.py:202-267 | two callers do not: a run from any sound state one failure below the threshold, in which an endpoint ends up healthy with its circuit open |
| `FailoverThreads.StepsAreTheCall` | api/bitcoin_rpc_failover.py:202-267 | undisturbed, the steps of a caller are the call |
| `Failover.CallPassesOver` | api/bitcoin_rpc_failover.py:218-231 | a call leaves an unhealthy endpoint that is not the last alone, whether or not its circuit has expired |
| `FailoverRecovery.UnhealthyIsEligibleExactlyWhenLast` | api/bitcoin_rpc_failover.py:218-231 | an unhealthy endpoint whose circuit is not open may be called if and only if it is the last |
| `FailoverRecovery.UsedAgainExactlyWhenLast` | api/bitcoin_rpc_failover.py:202-273 | some behaviour of clock and network makes a call use an unhealthy endpoint if and only if it is the last |
| `FailoverRecovery.RecoversExactlyWhenLast` | api/bitcoin_rpc_failover.py:202-273 | a run of calls, without health checks, can leave an unhealthy endpoint healthy again if and only if it is the last |
| `FailoverHistory.HistoryDecides` | api/bitcoin_rpc_failover.py:135-258 | for every interleaving of the locked updates, each field of an endpoint's record and the time until which its circuit is open are what the history of its marks, answers and counted failures says |
| `FailoverHistory.HistoryOfNewEndpoint` | api/bitcoin_rpc_failover.py:40-50 | for an endpoint that starts untried the history is all there is to its record |
| `FailoverHistory.EligibleExactlyWhen` | api/bitcoin_rpc_failover.py:190-231 | an endpoint may be called if and only if no unexpired circuit is open for it and it is not unhealthy or is the last |
| `FailoverHistory.TwinOfTheLastIsEligible` | api/bitcoin_rpc_failover.py:223-231 | the comparison with the last endpoint is one of values: an unhealthy endpoint is called if and only if it equals the last in every field |
| `FailoverHistory.AnswerIsTheFirst` | api/bitcoin_rpc_failover.py:303-333 | the answer is that of the first of the allowed attempts that is answered, and there is none if and only if they all fail |
| `FailoverHistory.ClosedOutForTheTimeout` | api/bitcoin_rpc_failover.py:171-231 | after a call in which an endpoint fails for the last time allowed, it may be called if and only if it is the last and the time-out has passed |
| `FailoverHistory.RoundChecksEveryEndpoint` | api/bitcoin_rpc_failover.py:135-169 | a round of checks makes every endpoint that answers healthy, with its circuit closed and its latency averaged, and marks every other one |
| `FailoverManagers.EndpointsAreInPriorityOrder` | api/bitcoin_rpc_failover.py:87 | the endpoints are rearranged in priority order, keeping the given order within each priority |
| `FailoverManagers.BitcoinRpcFailoverManager.Create` | api/bitcoin_rpc_failover.py:62-102 | the three argument errors, or a manager with the sorted endpoints and no circuits |
| `FailoverManagers.BitcoinRpcFailoverManager.MarkEndpointUnhealthy` | api/bitcoin_rpc_failover.py:171-188 | counts the failure, sets the status and opens the circuit at the threshold |
| `FailoverManagers.BitcoinRpcFailoverManager.IsCircuitOpen` | api/bitcoin_rpc_failover.py:190-200 | answers whether the circuit is open and drops it when it has expired |
| `FailoverManagers.BitcoinRpcFailoverManager.Post` | api/bitcoin_rpc_failover.py:303-333 | the retry loop returns the first answer among the allowed attempts |
| `FailoverManagers.BitcoinRpcFailoverManager.Try` | api/bitcoin_rpc_failover.py:218-267 | the body of the failover loop: skip, or call and record the answer or the failure |
| `FailoverManagers.BitcoinRpcFailoverManager.RpcCall` | api/bitcoin_rpc_failover.py:202-273 | the loop over the endpoint objects does what the call on values does |
| `FailoverManagers.BitcoinRpcFailoverManager.CheckHealth` | api/bitcoin_rpc_failover.py:139-169 | one health check: recovery with latency average and closed circuit, or a mark |
| `FailoverManagers.BitcoinRpcFailoverManager.PerformHealthChecks` | api/bitcoin_rpc_failover.py:135-169 | the loop over all endpoints does what the round of checks on values does |

## Left out

- HTTP, database, console, dashboard, logging output, sleeps and the live network: plumbing around the logic.
- Signature checks, SHA-256, `std::stod`, `std::stoull` and `std::sqrt`: outcomes are parameters.
- Floating-point rounding and infinities in expressions, governance, traffic and latency averages: these compute over reals, so an operand that `std::stod` reads as an infinity has no counterpart.
- Discovery and monitoring threads and the scoring in `assignBestWorker`: the engine takes any result or an exception.
- A second `start` while `stop` is still joining, and exceptions for want of memory: the protocol lets starts and stops follow each other.
- The 64-bit wrap of the engine's counters and of counts of votes, proposals and milestones: they are unbounded here.
- `slashValidator`, `recordValidation` and `decreaseReputation`: no modelled operation calls them, and each is one update.
- Activating and deactivating tunnels, selecting and refilling nodes: one field or one comparison each; a tunnel's constructor takes its activity.
- Several audit loggers in one process, which share one `logging` logger and its handlers: one logger is modelled, with one file at a time.
- An audit complaint that contains a line break counts as one line of the log.
- The lookup and the deletion of a circuit by two threads between each other, which raises `KeyError`: dropping a circuit is one step.
- An endpoint object listed twice: the manager's endpoints are different objects.
- `clusterObjectiveFunctionFp`, system health and Nash thresholds: straight-line arithmetic without a promise of their own.
- FewPeersAreFlagged: only that a fitting sum is enough for the bound, because a sum that wraps may still leave the bound true by accident; the exact condition proved is the one for the mean itself.
- NewScore: inputs on which the signed arithmetic of the source overflows are excluded, since C++ leaves them undefined.
- EnergyRewardIsNearExactlyWhenItFits: efficiencies above 1.0 lose more than three units; for them the upper bound and monotonicity are stated.
