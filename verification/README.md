# Agent platform: verified model of the orchestration and state core

This project models, in Dafny, the parts of the agent platform whose correctness depends on how several pieces of
shared state move together, and proves properties of every run of them:

- **Multi-agent runs.** A submitted run is a manager task and child tasks linked by `depends_on`. Workers pick tasks
  up, retry them and recover stale ones; a reconcile pass releases, cancels or parks children and settles the run; users
  stop, cancel and approve at any moment. `WorkflowDag` is the definition validator, `WorkflowRun` one task row,
  `TaskPhases` the small automaton that a task row follows, `Reconcile` one pass, `WorkflowEngine` the transition
  system and its invariant, `WorkflowProgress` the measure, `WorkflowTheorems`, `CancellationCascade`,
  `CancellationCauses` and `ApprovalGate` the results about runs, `WorkflowOutcomes` what each step comes to and where
  outputs come from, `AgentDeletion` what becomes of runs whose agents are deleted meanwhile, `WorkflowSubmission` the
  rows a submission creates, `QueueHint` the Redis queue beside the rows, `RunStore` the code that updates the rows,
  and `TaskQueue` the sorted set itself.
- **The capability bridge.** `CapabilityBridge` and `CapabilityHost`: two shared dictionaries and a tool registry that
  must agree over every interleaving of starting and ending runs.
- **Agent versions, rate limit and metrics.** `AgentVersions`, `VersionOutcomes`, `AgentStore`, `RateLimiter`,
  `CallMetrics`.
- **Database scopes.** `DatabaseScopes`, `ScopeLifecycle`, `ScopeTheorems`, `ScopeBindings`, `ScopeRequests`,
  `ScopeRows`: append-only revisions with a current revision that moves on, and the bindings that name old revisions.
- **Conversation memory.** `MemoryKeys`, `ConversationMemory`: a bounded window behind flat keys.

Each area has a pure specification (functions on values), lemmas about that specification, and, where the source
updates rows or dictionaries in place, a class whose methods are proved to do exactly what the specification says.
`dafny verify dfyconfig.toml` checks the whole project.

## How the steps are cut

The claims about runs rest on this granularity:

- A step is one transaction up to its commit, and what it has read since the commit before still holds when it writes.
  In particular a review is one step and the pass it owes its run a later one; a worker's pickup is one step and
  looking for the agent version a later one. Everything else may come in between. A queue entry written after a commit
  belongs to its step; losing it is a disturbance of the queue.
- Four steps join several commits and rely on nothing coming in between: a submission; listing the active runs and
  reconciling one of them; the two commits inside a pass; and the bookkeeping after the commit of a completed
  execution, which is taken not to fail.
- A worker whose lease has expired is dead: it writes nothing any more.
- One run is modelled at a time, with its own tasks; tasks created outside a run go through the same worker steps.
- No agent of a run is deleted before the run ends, except in `AgentDeletion`: deleting an agent takes its task rows out
  of every run, in whatever state they are. Only the owner of the team is protected. The results about runs in the
  other modules speak of runs that have lost no rows; `AgentDeletion` says which of them survive a deletion.
- Every `append_turn` is one step. The rate limiter has one clock, and the requests of all clients reach it in the
  order of their times on that clock.
- Entering a tool in the registry and starting the renewal thread do not raise, except where it is said below.
- A request that raises leaves the database as it was.

A Runtime attempt is a nondeterministic success, failure, cancellation or crash. Capability profiles are brought into
normal form by an arbitrary function of the profile and the runtime type, so the version results hold for any.

## What is not always true

Some expected laws hold only under a condition; the project gives the condition and what happens without it.

- After a tool-name conflict the bridge rolls back the whole list, also tools it never counted. It is restored exactly
  when no tool after the conflicting one is held by an active run (`RollbackRestoresIff`); otherwise a run can lose a
  tool it still holds (`RollbackLosesATool`). The same holds when the registry raises instead of taking a new tool
  (`RolledBackRestoresIff`). If the renewal thread cannot be started, the tools are given back but both keys stay
  bound, so the run cannot be registered again (`FailedRenewerLeavesRunBound`).
- Ending a run by its session id, which the function accepts but the service never does, would leave a dead binding
  under its run id until the run is ended by run id as well (`UnregisterBySessionLeavesRunKey`).
- A final status is not always final. A finished task keeps its status for good exactly when it was not stopped
  between its worker's pickup commit and the check of its agent version; otherwise a missing version turns `cancelled`
  into `failed` (`TaskFinalIff`, `LateVersionCheckFailsStoppedTask`). A finished run that loses no rows keeps its
  status for good exactly when no review's pass is still to come after a cancellation; that pass does not look at the
  run status and never leaves a cancelled run alone (`RunFinalIff`, `UnguardedPassRevivesCancelledRun`, `LatePassRevivesRun`).
- An active run that has lost no rows and in which nothing is in flight stays as it is exactly when a child or the
  manager is cancelled for good (`StuckIffCancelled`). Such a run has seen a task cancelled, an execution stopped, a
  cancellation by the Runtime or the cancellation of the whole run (`StuckRunWasCancelled`), and only cancelling the
  run ends it (`StuckUntilRunIsCancelled`).
- Deleting an agent in the middle of a run has three effects that no step of the run has. A run that has lost rows is
  also left alone when its manager waits and no child is left (`UnmovedIff`), which a deletion brings about exactly when
  every child ran on that agent (`DeletionStrandsIff`, `DeletedMemberStrandsRun`); only cancelling the run ends that
  (`StrandedUntilRunIsCancelled`). A poll fails a run that nothing else has failed exactly when a waiting child has lost
  a dependency (`PollFailsIff`), which a deletion brings about exactly when a waiting child of another agent depends on
  a child of the deleted one (`DeletionOrphansIff`, `DeletedDependencyFailsRun`). And a failed run is taken back by a
  pass exactly when no failed child and no lost dependency is left and the manager did not fail or a child is parked
  (`FailedRunTakenBackIff`); deleting the agent of the failed child makes that possible (`DeletionRevivesFailedRun`).
  What survives every deletion: a remaining child is released only after its remaining dependencies, and the manager runs after all
  remaining children (`RemainingRowsStaySafe`); only finitely many changes have an effect (`FinitelyManyChanges`).
- Recovery puts a run's lost queue entries back exactly when none of its queueable tasks stands behind the first 500
  queueable tasks of the whole platform (`RecoveryRequeuesIff`); behind 500 more urgent tasks of other runs it gets none
  of them back (`OtherRunsFillTheLimit`).
- What a rollback restores depends on the snapshot alone exactly when the snapshot leaves nothing open
  (`DeterminedIffComplete`). Snapshots built from an agent with non-empty texts are complete; a snapshot that merely
  passed validation may lack a role, a runtime type, a runtime reference, a runtime configuration or a profile
  (`ValidatedIsCompleteIff`).
- The lifecycle table makes an archived agent final, but the console does not look at the agent's status. Its
  publication request takes the newest draft, or makes one, and turns it into a release candidate by itself, so it
  needs no release candidate to start from: it brings the agent back exactly when the preflight is content and the
  snapshot's schema exists, schema and API are not disabled, skills and MCP servers exist and are listed once, and the
  profile is acceptable (`ConsoleRequestRevivesIff`). No other step ends the archive (`ArchivedEndsIff`,
  `ArchivedAgentComesBack`).
- A rollback serves the contract of its snapshot, whatever has become of schemas and APIs, exactly when the snapshot
  names a schema (`ContractFixedIff`), which validation does not ask for. Rolling back to a snapshot that names none
  leaves schemas and APIs as they are, although its publication bound an API (`RollbackIsHistoryIndependent`).
- A scope carried forward says what its predecessor said exactly when the predecessor spelled out every permission and
  a non-zero value for every limit, because a limit of zero reads as the default (`CarriedKeepsMeaningIff`).
- A fixed window lets twice the limit through around a change of minute (`TwiceTheLimitIsReached`), and never more
  (`AtMostTwiceTheLimit`).

## Model

| member | source | states |
|---|---|---|
| WorkflowDag.ValidateWorkflowDag | backend/app/schemas/multi_agent.py:189-213 | a definition is accepted exactly when its keys are unique, every dependency is known and no dependency path returns to its start; the error reported is the first of the three checks that fails |
| WorkflowDag.CycleFinder.Search | backend/app/schemas/multi_agent.py:198-210 | the recursive visit over the shared visiting and visited sets does what the search on values does |
| WorkflowDag.VisitFinishes | backend/app/schemas/multi_agent.py:201-210 | a visit that ends normally leaves its visited nodes in dependency order |
| WorkflowDag.VisitFailureIsCycle | backend/app/schemas/multi_agent.py:204-205 | a visit that reports a cycle has found one |
| WorkflowDag.AcyclicIffRanked | backend/app/schemas/multi_agent.py:212-213 | a closed dependency graph has no cycle if and only if its nodes can be ranked so that every dependency ranks lower |
| WorkflowRun.EventKeepsCoherence | backend/app/worker.py:78-205 | whatever happens to a task, its task, session and execution columns stay coherent, attempts stay within bounds (none while pending, fewer than the maximum while retrying, at least one while running), and the task never regresses |
| WorkflowRun.FinalStatusChangesIff | backend/app/worker.py:128-145 | an event changes the status of a finished task if and only if it is the check that finds the version of a task missing that was stopped after its pickup was committed |
| WorkflowRun.EventMoves | backend/app/api/executions.py:228-244 | outside of a pass no event releases a waiting task, parks one for review or hands out one that was not released |
| TaskPhases.RowsFollowAutomaton | backend/app/worker.py:78-236 | the six columns of a task with its session and execution follow an automaton of eleven phases: for every coherent row and every transaction, the phase afterwards depends on the phase before and on whether it was the last attempt, and on nothing else |
| TaskPhases.RecoveryFollowsAutomaton | backend/app/worker.py:257-288 | recovery keeps a saved result, gives up any other running attempt and leaves every other row |
| TaskPhases.AttemptsAndOutput | backend/app/api/agents.py:1274-1278 | an attempt is counted exactly when a worker starts one, and an output is written exactly by the Runtime's result of an attempt at work and by a review |
| TaskPhases.EndingsAreRecorded | backend/app/api/executions.py:225-241 | a transaction that ends a task says so in the session and the execution as well |
| TaskPhases.BreakingIsRecorded | backend/app/api/agents.py:1178-1300 | an attempt that breaks leaves its session and execution failed, cancelled or running according to what broke it |
| TaskPhases.PickupHeals | backend/app/worker.py:83-89 | whoever takes a row whose session has succeeded marks it succeeded, with an active agent or not |
| TaskPhases.ResultIsStored | backend/app/api/agents.py:1274-1278 | a task at work that is completed and finalized succeeds and says exactly what the Runtime returned |
| TaskPhases.EveryAttemptIsMade | backend/app/worker.py:178-195 | after any number of failed or abandoned attempts the task is queued again as long as one is left, and failed after exactly the allowed number |
| TaskPhases.OneGoodAttemptSuffices | backend/app/worker.py:196-205 | one allowed attempt that ends well makes the task succeed with exactly the result of that attempt, whatever went wrong before |
| TaskPhases.StopTakesEffectIff | backend/app/api/executions.py:219-241 | a stop cancels task, session and execution if and only if the execution is running, whatever its worker is doing |
| TaskPhases.CancelTakesEffectIff | backend/app/api/orchestration.py:112-140 | cancelling a task takes effect if and only if it is pending or retrying |
| Reconcile.DecideMeaning | backend/app/orchestrator.py:205-219 | with unique keys and a row for each of its dependencies, a waiting child is blocked, released or held exactly according to the statuses of the children its edges lead to |
| Reconcile.PassEffect | backend/app/orchestrator.py:201-219 | after a pass every waiting child is either released with all its dependencies succeeded, or cancelled with a dependency failed or cancelled, or still waiting with neither, and no other child has moved |
| Reconcile.PassMissingIff | backend/app/orchestrator.py:204-208 | a pass gives up if and only if it comes to a waiting child one of whose dependencies has no row |
| Reconcile.PassPointwise | backend/app/orchestrator.py:201-219 | a pass in list order treats each child by what the earlier decisions of the same pass left behind |
| WorkflowEngine.StepKeepsInv | backend/app/orchestrator.py:184-262 | every step of workers, orchestrator and users keeps the whole-run invariant: dependency safety, the manager last, statuses that agree with the tasks |
| WorkflowEngine.ExecutionKeepsInv | backend/app/worker.py:78-291 | the invariant holds in every state that any interleaving of steps reaches, also between a review and its pass and between a pickup and its version check |
| WorkflowEngine.ReconcileKeepsInv | backend/app/orchestrator.py:184-262 | a pass with its settling keeps the invariant whatever the status of the run |
| WorkflowEngine.CancelRowsKeepInv | backend/app/api/multi_agent.py:486-520 | cancelling a run leaves every task in a final status and the invariant intact |
| WorkflowProgress.StepLowersMeasure | backend/app/worker.py:178-195 | a step either changes nothing at all or lowers one number made of the work left in the tasks, the passes still owed to reviews and the lag of the run row |
| WorkflowProgress.FinitelyManyEffects | backend/app/worker.py:267-270 | however the steps interleave, at most as many of them ever have an effect as the measure says at the start |
| WorkflowProgress.EffectsBound | backend/app/worker.py:94-95 | that bound, in terms of the number of tasks, the maximum number of attempts and the passes owed at the start |
| WorkflowProgress.ReviewIsSafe | backend/app/api/multi_agent.py:541-566 | a task waits for review only in a run that is active or failed, so a pass with nothing between it and the review keeps every outcome |
| WorkflowProgress.PassKeepsOutcomeIff | backend/app/orchestrator.py:184-262 | a pass keeps the outcome of a finished run if and only if the run was not cancelled |
| WorkflowProgress.StepKeepsOutcomeIff | backend/app/api/multi_agent.py:562-566 | a step takes a finished run's outcome back if and only if it is the pass owed to a review and arrives after a cancellation |
| WorkflowTheorems.StartOrderIsLinearExtension | backend/app/orchestrator.py:205-219 | in every run the order in which attempts begin, retries included, never puts a child before one it depends on |
| WorkflowTheorems.TerminalIsFinal | backend/app/orchestrator.py:196-199 | under any further steps a settled task and a closed run keep status and output, where settled leaves out only a task stopped before its version check and closed only a cancelled run with a pass still owed |
| WorkflowTheorems.TaskFinalIff | backend/app/worker.py:107-136 | no run of the system changes a finished task's status again if and only if the task was not stopped between its pickup and its version check |
| WorkflowTheorems.RunFinalIff | backend/app/api/multi_agent.py:562-566 | no run of the system changes a finished run's status again if and only if no pass is owed to it after a cancellation |
| WorkflowTheorems.UnguardedPassRevivesCancelledRun | backend/app/orchestrator.py:184-262 | a pass leaves no cancelled run alone, and makes it active exactly when no child failed and the manager was cancelled |
| CancellationCauses.LatePassRevivesRun | backend/app/api/multi_agent.py:486-566 | from a submission: review, cancellation of the run, and then the review's pass leave the run running and stuck |
| CancellationCauses.LateVersionCheckFailsStoppedTask | backend/app/worker.py:107-136 | from a submission: pickup, stop, and then a missing version leave the stopped task failed |
| CancellationCauses.StuckRunWasCancelled | backend/app/api/executions.py:197-244 | from submission on and with no agent deleted, a stuck run has seen a cancelled task, a stopped execution, a cancellation by the Runtime or the cancellation of the run |
| WorkflowOutcomes.FailedChildFailsRun | backend/app/orchestrator.py:196-199 | a poll of an active run with a failed child fails the run and a manager that is waiting or pending, and touches no child |
| WorkflowOutcomes.PollOutcome | backend/app/orchestrator.py:184-262 | which of its four statuses a poll gives an active run, and what it does to the manager and the output, in terms of the rows before it |
| WorkflowOutcomes.HandoverIff | backend/app/orchestrator.py:233-253 | a poll hands a waiting manager over if and only if every child has succeeded, and gives it their outputs in order |
| WorkflowOutcomes.OwedPassIsPoll | backend/app/api/multi_agent.py:562-566 | on an active run the pass owed to a review does what a poll does |
| WorkflowOutcomes.RowStepFollowsAutomaton | backend/app/worker.py:78-236 | in a run, every transaction on a task moves that task's automaton and leaves every other row and the run row alone, except that a review owes the run one pass |
| WorkflowOutcomes.RecoveryStepFollowsAutomaton | backend/app/worker.py:257-288 | recovery moves the automata of the stale tasks and nothing else |
| WorkflowOutcomes.CancelRunOutcome | backend/app/api/multi_agent.py:486-520 | a run can be cancelled if and only if it is active and no task is running; every unfinished task is then cancelled with session and execution, and every finished one stays |
| WorkflowOutcomes.StoppedNeverSucceeds | backend/app/api/executions.py:219-241 | after a stop of a running execution, whatever happens, neither the task nor the run ever succeeds |
| WorkflowOutcomes.OutputIsLastAnswer | backend/app/api/agents.py:1274-1278 | at the end of every history the output of a task is exactly the last answer it was given: the result of an attempt at work, or the review of a parked task |
| WorkflowOutcomes.ChildOutputHasSource | backend/app/api/multi_agent.py:541-562 | from submission on, the output of a child is a result its Runtime returned in the history, and that of an approval node what its approver left, or "approved" or "rejected" |
| WorkflowOutcomes.HandedResultsHaveSources | backend/app/orchestrator.py:233-253 | from submission on, every result handed to the manager is such an output of its child |
| WorkflowOutcomes.RunOutputIsManagersResult | backend/app/orchestrator.py:254-258 | from submission on, the output of a succeeded run is a result that the manager's Runtime returned in its history |
| WorkflowTheorems.CrashHealing | backend/app/worker.py:257-266 | once a session has succeeded, the next recovery that finds the task stale leaves it succeeded with the same attempt and output, whatever stops, cancellations and recoveries came in between |
| WorkflowTheorems.SessionDoneIsKept | backend/app/worker.py:83-89 | a session that has succeeded stays so, and its task is running or succeeded from then on |
| WorkflowTheorems.ManagerRunsLast | backend/app/orchestrator.py:234-253 | in a run that loses no rows: once the manager is released every child has succeeded, now and in all later states, and the results it was given stay the children's outputs in order |
| WorkflowTheorems.SucceededRunIsComplete | backend/app/orchestrator.py:254-258 | a succeeded run has a succeeded manager, succeeded children and the manager's output |
| WorkflowTheorems.NoDeadlock | backend/app/orchestrator.py:201-253 | with nothing in flight, failed or cancelled and a waiting manager, one pass releases a child, or the manager because every child has succeeded |
| WorkflowTheorems.StuckIffCancelled | backend/app/orchestrator.py:233-262 | an active run that has lost no rows and has nothing in flight is left alone by a pass if and only if no child failed or waits and a child or the manager is cancelled for good |
| WorkflowTheorems.QuietRunIsFinishedOrStuck | backend/app/orchestrator_worker.py:30-48 | a run without pending review for which neither polls, owed passes, pickups, version checks nor recoveries do anything is finished or stuck |
| WorkflowTheorems.EveryRunCanEnd | backend/app/orchestrator_worker.py:30-48 | from every state of a run the platform's own steps and answered reviews alone, no more of them than the measure, lead to a state in which the platform has nothing more to do, and that run is finished or stuck |
| WorkflowTheorems.StuckUntilRunIsCancelled | backend/app/api/multi_agent.py:486-520 | such a run stays as it is until the whole run is cancelled |
| WorkflowTheorems.CancelledTaskRulesOutSuccess | backend/app/api/orchestration.py:112-140 | a run with a cancelled task never succeeds afterwards |
| WorkflowTheorems.DefinitionHasRank | backend/app/schemas/multi_agent.py:189-213 | an accepted definition gives its nodes ranks that fall along every edge |
| CancellationCascade.CascadeIsExact | backend/app/orchestrator.py:201-219 | with no failed child, as many passes as there are children cancel exactly the waiting children from which a dependency path leads to a cancelled one |
| CancellationCascade.CascadeInOnePoll | backend/app/orchestrator.py:209-213 | one pass is enough when the list is in dependency order |
| CancellationCascade.CascadeIgnoresOrder | backend/app/repositories/orchestration.py:190-197 | the set of children that end up cancelled does not depend on the order in which they are listed |
| CancellationCascade.DoomedIsInvariant | backend/app/orchestrator.py:201-219 | a pass neither adds to nor takes from the children condemned by a cancelled one |
| AgentDeletion.RemainingRowsStaySafe | backend/app/db/models.py:631 | whatever agents are deleted between the steps, a released child has all its remaining dependencies succeeded, and the manager is handed over only when every remaining child has succeeded |
| AgentDeletion.FinitelyManyChanges | backend/app/api/agents.py:197-214 | also with deletions the number of changes that have an effect is bounded by a measure of the run at the start |
| AgentDeletion.PollFailsIff | backend/app/orchestrator.py:204-208 | with no failed child and no failed manager, a poll fails an active run if and only if a waiting child has lost a dependency |
| AgentDeletion.DeletionOrphansIff | backend/app/db/models.py:114 | a deletion leaves such a child behind if and only if a waiting child of another agent depends on a child of the deleted one |
| AgentDeletion.UnmovedIff | backend/app/orchestrator.py:233-262 | whatever rows are gone, an active run in which nothing is in flight is left alone by a pass if and only if it is stuck after a cancellation or its manager waits for no children at all |
| AgentDeletion.DeletionStrandsIff | backend/app/orchestrator.py:234-235 | deleting an agent strands a run whose manager waits if and only if every child ran on that agent |
| AgentDeletion.StrandedUntilRunIsCancelled | backend/app/api/multi_agent.py:486-520 | a stranded run stays so through all further steps and deletions until the whole run is cancelled |
| AgentDeletion.UnmovedRunHasCause | backend/app/api/agents.py:197-214 | from submission on, a run that polls leave alone with nothing in flight is stuck and has seen a cancellation, or is stranded and has seen a deletion |
| AgentDeletion.FailedRunTakenBackIff | backend/app/orchestrator.py:184-262 | a pass takes a failed run back if and only if no failed child or lost dependency is left and the manager did not fail or a child is parked for review |
| AgentDeletion.DeletedMemberStrandsRun | backend/app/api/agents.py:197-214 | from a team submission: the only member is deleted, the run stays running and unmoved, and nothing was cancelled |
| AgentDeletion.DeletedDependencyFailsRun | backend/app/orchestrator.py:204-208 | from a submission: the agent of a dependency is deleted and the next poll fails the run |
| AgentDeletion.DeletionRevivesFailedRun | backend/app/api/multi_agent.py:562-566 | from a submission: a rejected review fails the run, its agent is deleted, and the pass of another review makes the run wait for review again |
| ApprovalGate.NothingPassesTheGate | backend/app/orchestrator.py:214-219 | from submission on, a child that has been released has had every approval node it depends on approved by some step of the run |
| ApprovalGate.ApprovalNeedsReview | backend/app/api/multi_agent.py:534-567 | an approval node is never queued or run, and it succeeds only through an approving review |
| ApprovalGate.StepIsGated | backend/app/orchestrator.py:214-219 | no step queues an approval node, parks any other node, or lets an approval succeed without approving it |
| WorkflowSubmission.SubmittedWorkflowIsSound | backend/app/orchestrator.py:109-182 | a workflow is accepted exactly when it has nodes and each runs on an active team agent, and its rows satisfy the invariant |
| WorkflowSubmission.SubmittedTeamIsSound | backend/app/orchestrator.py:55-107 | the rows of a team run satisfy the invariant, also when no member takes part |
| WorkflowSubmission.SubmissionOutcome | backend/app/orchestrator.py:109-182 | a workflow is started exactly when every node has an active team member, its own or else the owner; each node then has its task on that agent, waiting for its dependencies, its approver or a worker as its definition says; a refusal names the first node without one |
| WorkflowSubmission.TeamOutcome | backend/app/orchestrator.py:55-107 | a team run has a queued task for every active member but the owner, and the manager waits for them or is queued itself if there is none |
| WorkflowSubmission.ParticipantsInOrder | backend/app/orchestrator.py:64-72 | the participants of a list are those of its parts, one after the other, so their order is that of the members |
| QueueHint.QueueIsOnlyAHint | backend/app/worker.py:80-82 | the rows under any queue content follow a run of the system without a queue; that the code behaves so is the content of the methods of `RunStore` |
| QueueHint.QueueFollowsRows | backend/app/orchestrator.py:220-223 | every transaction enters exactly the tasks it makes queueable and drops exactly those it takes out, and touches no other entry |
| QueueHint.RecoveryRequeuesIff | backend/app/worker.py:289-291 | recovery puts back exactly the queueable tasks of the run if and only if none of them stands behind the first 500 of the whole platform |
| QueueHint.FewTasksAreRequeued | backend/app/repositories/orchestration.py:172-179 | with at most 500 queueable tasks on the platform, every one of the run's is queued after recovery, whatever was lost |
| QueueHint.OtherRunsFillTheLimit | backend/app/repositories/orchestration.py:172-179 | behind 500 more urgent tasks of other runs a run gets none of its lost entries back |
| QueueHint.QueueCoversStep | backend/app/orchestrator.py:220-223 | undisturbed, no step leaves a queueable task without its entry, except that a recovery does so exactly when a task behind the limit has no entry yet |
| QueueHint.QueueAlwaysCovers | backend/app/repositories/orchestration.py:172-179 | over every undisturbed run in which each recovery finds room for the tasks it makes queueable, the queue holds every queueable task |
| RunStore.RunRows.Workflow | backend/app/orchestrator.py:129-182 | creating the rows node by node gives the submitted run with every pending task queued |
| RunStore.RunRows.Team | backend/app/orchestrator.py:62-107 | creating a team's rows gives the submitted team run with every pending task queued |
| RunStore.RunRows.Execute | backend/app/worker.py:78-107 | taking a queue entry is the pickup step, with every refusal it has |
| RunStore.RunRows.LookForVersion | backend/app/worker.py:128-145 | the version check after that commit writes a failure over whatever the row says meanwhile |
| RunStore.RunRows.CompleteExecution | backend/app/api/agents.py:1179-1278 | completion re-reads the execution and is refused when that was cancelled; otherwise the row says what the Runtime returned |
| RunStore.RunRows.FailExecution | backend/app/api/agents.py:1377-1395 | a failed attempt is recorded unless the execution was cancelled |
| RunStore.RunRows.HandleError | backend/app/worker.py:157-196 | the exception handler stops, retries or gives up as the transition system says, and queues every retry |
| RunStore.RunRows.Finalize | backend/app/worker.py:197-204 | the last write of a worker is refused for a cancelled task |
| RunStore.RunRows.Recover | backend/app/worker.py:257-291 | the loop over the stale tasks and the loop over what the query lists of the whole platform are the recovery step |
| RunStore.RunRows.StopExecution | backend/app/api/executions.py:197-244 | stopping is the stop transaction, and a running execution is cancelled with its session and its running task whatever the worker is doing |
| RunStore.RunRows.CancelTask | backend/app/api/orchestration.py:112-140 | cancelling a queued task is the cancel transaction and drops its queue entry |
| RunStore.RunRows.ReviewTask | backend/app/api/multi_agent.py:541-562 | a review is refused for a task that does not wait for one and otherwise commits its outcome before any pass |
| RunStore.RunRows.ReconcileAfterReview | backend/app/api/multi_agent.py:563-566 | the pass after a review is a pass whatever the run has become |
| RunStore.RunRows.CancelWorkflowRun | backend/app/api/multi_agent.py:486-520 | refused while a task runs or the run is over, and otherwise the cancellation of all unfinished tasks with their queue entries |
| RunStore.RunRows.ReconcileOnce | backend/app/orchestrator.py:184-262 | one pass over the rows in place is the pass of the transition system, and queues exactly what it released; with a failed child it fails the run and a manager that has not started, and leaves the children alone |
| RunStore.RunRows.PassOverChildren | backend/app/orchestrator.py:201-219 | the loop over waiting children decides them as the specification does and collects exactly those that became pending |
| RunStore.RunRows.SettleRun | backend/app/orchestrator.py:225-262 | settling releases the manager with the collected results or closes the run |
| TaskQueue.ScoreOrder | backend/app/task_queue.py:40-42 | on a clock that stays inside one band, scores order requests by priority, then by time, then by id |
| TaskQueue.PriorityDominates | backend/app/task_queue.py:40-42 | a higher priority pops first exactly when its request came less than a band per level later |
| TaskQueue.Queue.Enqueue | backend/app/task_queue.py:37-46 | a task that is already queued keeps its place |
| TaskQueue.Queue.Dequeue | backend/app/task_queue.py:48-58 | pops the entry that comes first, or nothing from an empty queue |
| CapabilityBridge.RegistrationOutcome | services/hermes-runtime/platform_capabilities.py:91-142 | a run is registered if and only if it brings tools, both its keys are free and no tool has the name of a foreign one; each of the other three answers has its own exact condition, and a conflict names the first tool that has one |
| CapabilityBridge.RegisterKeepsSound | services/hermes-runtime/platform_capabilities.py:98-133 | registering a run keeps reference counts, registry and key ownership in agreement, also when its identity is already active |
| CapabilityBridge.UnregisterKeepsSound | services/hermes-runtime/platform_capabilities.py:185-203 | ending a run by its run id keeps that agreement and frees the key |
| CapabilityBridge.UnregisterUndoesRegister | services/hermes-runtime/platform_capabilities.py:185-203 | ending a run right after it was registered restores bindings, counts and registry exactly |
| CapabilityBridge.DispatchIsIsolated | services/hermes-runtime/platform_capabilities.py:206-213 | for every task id and session id: where a key of the new run decides, exactly its tools are let through, and everywhere else what was let through before |
| CapabilityBridge.AuthorizedIffHeld | services/hermes-runtime/platform_capabilities.py:207-213 | a call is let through if and only if the run that owns its key holds the tool |
| CapabilityBridge.EndIsIsolated | services/hermes-runtime/platform_capabilities.py:185-203 | when a run ends, every other run keeps its keys, its binding and its tools in the registry |
| CapabilityBridge.ForeignToolsStay | services/hermes-runtime/platform_capabilities.py:91-203 | no history of starts and ends touches a tool of the host |
| CapabilityBridge.ReferenceCountsAgree | services/hermes-runtime/platform_capabilities.py:91-203 | over every history of starts and ends, including starts that a name conflict turns away without a held tool after it, each tool is counted once per active run that holds it and is registered exactly while that count is positive |
| CapabilityBridge.RollbackRestoresIff | services/hermes-runtime/platform_capabilities.py:134-142 | after a name conflict the bridge is as before if and only if no tool after the conflicting one is held by an active run; otherwise each such tool has lost a reference |
| CapabilityBridge.RollbackLosesATool | services/hermes-runtime/platform_capabilities.py:134-142 | a history from a fresh host in which that lost reference takes a tool out of the registry while a run still holds it |
| CapabilityBridge.RolledBackRestoresIff | services/hermes-runtime/platform_capabilities.py:135-142 | after a tool that could not be entered, for a conflict or because the registry raised, the rollback restores the bridge if and only if no later tool is counted |
| CapabilityBridge.FailedRenewerLeavesRunBound | services/hermes-runtime/platform_capabilities.py:131-142 | when the renewal thread cannot be started, counts and registry are restored, but the run stays bound with tools nobody counts for it and cannot be registered again |
| CapabilityBridge.UnregisterBySessionLeavesRunKey | services/hermes-runtime/platform_capabilities.py:189-193 | ending a run by its session id leaves the run id taken by a dead binding until it is ended by run id too |
| CapabilityHost.ToolNames | services/hermes-runtime/platform_capabilities.py:98 | the tool dictionary holds each listed name once |
| CapabilityHost.ToolNamesInOrder | services/hermes-runtime/platform_capabilities.py:98 | and in the order in which the names first occur |
| CapabilityHost.Host.RegisterRun | services/hermes-runtime/platform_capabilities.py:91-142 | the loop over the tools, the conflict and its rollback are the registration, outcome and state; it succeeds exactly when there are tools, both keys are free and no listed name is foreign |
| CapabilityHost.Host.UnregisterRun | services/hermes-runtime/platform_capabilities.py:185-203 | the loop over the tools of the binding is the end of the run |
| CapabilityHost.Host.Dispatch | services/hermes-runtime/platform_capabilities.py:207-213 | while the dictionaries agree, a call is let through exactly when the run that owns its key holds the tool |
| AgentVersions.LifecycleOverRuns | backend/app/repositories/production.py:675-718 | in every reachable state at most one version is published, it is the current one, the API is on exactly while an active agent has one, and a version once published stays published or deprecated with the snapshot it had |
| AgentVersions.ReleasedOnlyFromCandidate | backend/app/repositories/production.py:898-905 | a version is released only by being published as a release candidate |
| VersionOutcomes.MoveOutcome | backend/app/repositories/production.py:702-718 | a version moves exactly one stage up or down at a time, or stays, and nothing else changes |
| VersionOutcomes.EveryRungIsClimbed | backend/app/repositories/production.py:702-718 | over every history, a version that is released in the end stood in testing and as a release candidate before |
| VersionOutcomes.TransitionOutcome | backend/app/repositories/production.py:527-539 | every transition of an agent is accepted but one out of the archive, and the API answers exactly while an active agent has a version |
| VersionOutcomes.RewriteOutcome | backend/app/repositories/production.py:675-699 | a version is rewritten exactly if it was never released and the new snapshot is valid |
| VersionOutcomes.CreateOutcome | backend/app/repositories/production.py:610-629 | a version is created exactly under a new name, in development, and no other version changes |
| VersionOutcomes.RecordedSchema | backend/app/repositories/production.py:557-597 | a snapshot records the schema that the "v1" API serves, without one a published schema if there is any, and none only if the agent has none |
| VersionOutcomes.OwnSnapshotKeepsContract | backend/app/repositories/production.py:898-982 | publishing a recorded snapshot leaves schema and binding of the "v1" API as they were when it was recorded |
| VersionOutcomes.PublishOutcome | backend/app/repositories/production.py:898-982 | a publication serves its version, deprecates the one served before and touches no other version, and no schema or API that its snapshot does not name |
| VersionOutcomes.RollbackOutcome | backend/app/repositories/production.py:985-1021 | the same for a rollback |
| VersionOutcomes.RestoreOutcome | backend/app/repositories/production.py:1024-1135 | a restored configuration takes everything the snapshot states and keeps what it leaves open |
| AgentVersions.ArchivedEndsIff | backend/app/repositories/production.py:898-982 | a transaction takes an agent out of the archive if and only if it is a publication from the console of a release candidate whose contract and dependencies are available |
| AgentVersions.ConsoleRequestRevivesIff | backend/app/api/console.py:695-722 | the console's whole request, which makes and promotes its draft, ends the archive if and only if the preflight is content and contract and dependencies of the snapshot are available, whatever state the draft was in and also without one |
| AgentVersions.ArchivedAgentComesBack | backend/app/api/console.py:695-722 | from a new agent: a release candidate is made, the agent is archived, the console publishes it and the agent is active, while the version route refuses |
| AgentVersions.DeterminedIffComplete | backend/app/repositories/production.py:1056-1082 | the configuration after a restore is a function of the snapshot alone if and only if the snapshot leaves no field open |
| AgentVersions.BuiltIsComplete | backend/app/repositories/production.py:542-607 | a snapshot built from a stored agent leaves no field open if and only if its texts are not empty |
| AgentVersions.RestoreInvertsBuild | backend/app/repositories/production.py:1024-1082 | restoring a built snapshot over any configuration gives the one it was built from, with the recorded schema and the profile in normal form |
| AgentVersions.ValidatedIsCompleteIff | backend/app/repositories/production.py:721-784 | which fields a validated snapshot may still leave open |
| AgentVersions.RollbackIsHistoryIndependent | backend/app/repositories/production.py:985-1021 | publish a version with a complete snapshot, do anything, roll back to it: configuration and version served are those that followed the publication, and so is the contract if the snapshot names a schema, while otherwise schemas and APIs are left as they have become |
| AgentVersions.ContractFixedIff | backend/app/repositories/production.py:985-1021 | a rollback serves the contract of its snapshot over every content of schemas and APIs if and only if the snapshot names a schema |
| AgentVersions.IncompleteRollbackCarriesHistory | backend/app/repositories/production.py:1056-1082 | for a snapshot that leaves a field open, one write to the live configuration changes what rolling back to it gives |
| AgentStore.AgentRow.Lifecycle | backend/app/repositories/production.py:527-539 | a lifecycle change keeps the API on exactly while an active agent has a current version, and never leaves the archive |
| AgentStore.AgentRow.CreateVersion | backend/app/repositories/production.py:542-629 | version names stay unique and every other version stays as it was |
| AgentStore.AgentRow.UpdateVersion | backend/app/repositories/production.py:675-699 | no released version changes, no status or name changes, and every snapshot that changes is a valid one |
| AgentStore.AgentRow.TransitionVersion | backend/app/repositories/production.py:702-718 | no version is released or taken back, released versions stay as they were, and snapshots and names are untouched |
| AgentStore.AgentRow.RestoreVersion | backend/app/repositories/production.py:1024-1135 | the restore written field by field and row by row is the restore of the specification |
| AgentStore.AgentRow.PublishAgent | backend/app/repositories/production.py:898-982 | publishing opens the contract, restores, supersedes the published version and serves the new one, or changes nothing |
| AgentStore.AgentRow.RollbackAgent | backend/app/repositories/production.py:985-1021 | rolling back restores and serves a deprecated version, or changes nothing |
| RateLimiter.Limiter.Enforce | backend/app/repositories/production.py:1160-1189 | a request is allowed exactly when it is among the first `limit` of its client and minute, on any history in order of time |
| RateLimiter.Limiter.Expire | backend/app/repositories/production.py:1178-1179 | dropping expired counters never makes a minute that is still open forget its requests |
| RateLimiter.RankCounts | backend/app/repositories/production.py:1174-1186 | the rank of a request is the number of requests of its client in its minute |
| RateLimiter.FirstOnesAllowed | backend/app/repositories/production.py:1189 | of the requests of a minute exactly the first `limit` pass |
| RateLimiter.AtMostTwiceTheLimit | backend/app/repositories/production.py:1174-1189 | no 60 seconds, wherever they start, let more than twice the limit through |
| RateLimiter.TwiceTheLimitIsReached | backend/app/repositories/production.py:1174-1189 | that bound is reached within one second, for every limit |
| RateLimiter.RetryAfterIsTight | backend/app/repositories/production.py:1188 | waiting the announced seconds leads into the next minute, and one second less does not |
| CallMetrics.RecordKeepsExact | backend/app/repositories/production.py:332-389 | recording a call keeps every row of totals equal to the fold of its part of the audit log |
| CallMetrics.MetricsEqualLog | backend/app/repositories/production.py:451-470 | after any sequence of calls and deletions an agent's figures and the overall figures are those of the audit log, however the rows are listed |
| CallMetrics.SummaryEqualsLog | backend/app/repositories/production.py:487-524 | the summary, counts added up over the agents and everything else summed over all rows, reads off the part of the audit log that names an agent |
| CallMetrics.SummaryAgrees | backend/app/repositories/production.py:487-505 | the logs of the listed agents add up to the part of the log that names an agent |
| CallMetrics.RowsCount | backend/app/repositories/production.py:366-389 | after any events a row of totals holds the number of calls, successes and failures and the sums of latencies, tokens and MCP calls that the audit log holds for its agent and day |
| CallMetrics.RecordOutcome | backend/app/repositories/production.py:332-403 | a call is recorded exactly when its request is new, its token count is not negative and it increments a publication only as an attributed success, with one audit row and at most one counter moved by one |
| CallMetrics.PublicationCountsCalls | backend/app/repositories/production.py:390-400 | a publication's counter grows by exactly the recorded calls that increment it, until its agent is deleted |
| CallMetrics.DeletionDetaches | backend/app/db/models.py:801-802 | deleting an agent takes calls away from nobody else and none out of the audit log |
| CallMetrics.FiguresAreHonest | backend/app/repositories/production.py:429-448 | a token total is shown exactly when there was a call and every call reported its tokens, and then it is their sum; calls are successes and failures |
| CallMetrics.FiguresAreShares | backend/app/repositories/production.py:429-448 | the figures shown are the counts of the log, the rate is its share of successes and the mean that of its latencies, and both appear exactly when there was a call |
| CallMetrics.MetricStore.RecordPublicCall | backend/app/repositories/production.py:332-403 | a call that may not be counted for the publication leaves neither audit row nor totals behind |
| DatabaseScopes.CarriedKeepsMeaningIff | backend/app/database_connections.py:479-519 | a carried definition says what its predecessor said if and only if that spelled out every permission and a non-zero value for every limit |
| DatabaseScopes.SelectionRoundTrip | backend/app/database_connections.py:393-421 | an accepted selection survives being stored and read back |
| DatabaseScopes.MaxNumberIsCount | backend/app/database_connections.py:684-690 | the number after the highest is the number after the last |
| ScopeLifecycle.EndpointReplacement | backend/app/api/database_connections.py:104-163 | an endpoint is replaced exactly when the type stays, the new one is ready and every current scope is still discovered; then the scopes of the connection move on and otherwise say what they said, all others stay, and no row is lost |
| ScopeLifecycle.CarryForwardDoneIff | backend/app/database_connections.py:456-527 | carrying forward succeeds if and only if every current scope of the connection is still discovered |
| ScopeTheorems.RunKeepsInv | backend/app/database_connections.py:424-527 | in every reachable state revisions are numbered 1, 2, 3, ..., the current one is the last, current scope revisions name the current connector revision, and no stored revision has changed |
| ScopeTheorems.UpdateReplacesDatabaseBindings | backend/app/api/console.py:541-628 | a successful update replaces exactly the database bindings of the version by granted ones and keeps aliases unique |
| ScopeTheorems.BindingsNeverMismatch | backend/app/capabilities/resolver.py:178-210 | in every later state a binding resolves without any issue but that its connection is disabled or offline |
| ScopeTheorems.FlaggedIffIncoherent | backend/app/capabilities/resolver.py:178-210 | the resolver raises an issue other than the health of the connection exactly for a binding that does not name an implementation and a scope revision of one connector revision |
| ScopeTheorems.OldRevisionsStayResolvable | backend/app/api/console.py:64-84 | after a revision of the connection the old scope revision cannot be bound anew, yet bindings to it still resolve |
| ScopeTheorems.OperationsAreImplemented | backend/app/database_connections.py:575-588 | no operation of a bindable scope lacks an implementation on its connector revision |
| ScopeBindings.UpdateOutcome | backend/app/api/console.py:541-628 | an update of bindings succeeds exactly for a draft when every scope revision is the current one of its scope on an enabled and healthy connection and every operation is permitted under a free and short enough alias; it then adds one binding for each operation, in order; a refusal names a cause that is there |
| ScopeBindings.EveryOperationIsBound | backend/app/api/console.py:609-627 | after a successful update every requested operation is bound to its implementation on the connector revision served now, and every database binding of the version is one of those |
| ScopeBindings.BindableIff | backend/app/api/console.py:64-84 | a scope revision may be bound exactly when it is current and its connection is enabled and healthy |
| ScopeBindings.PermitsIff | backend/app/api/console.py:132-150 | listing is always permitted, describing, previewing and querying by the permission of the selection |
| ScopeRequests.ConnectionOutcome | backend/app/database_connections.py:591-658 | a connection is created exactly when its selections are acceptable and discovered object by object on a ready endpoint and its name is free, and then has one scope per selection that reads back as selected |
| ScopeRequests.ScopeOutcome | backend/app/api/database_connections.py:239-251 | the same for a scope that is added later |
| ScopeRequests.UpdateOutcomeOf | backend/app/api/database_connections.py:104-163 | a successful update writes the name and switch it was given and, with an endpoint, a new connector revision, and touches no other connection and no binding |
| ScopeRequests.SwitchOutcome | backend/app/api/database_connections.py:166-198 | switching a connection or recording its health decides whether its current scope revisions may be bound, and nothing else |
| ScopeRows.ValidateScope | backend/app/database_connections.py:375-390 | a selection passes exactly when every selected object was discovered in a ready database |
| ScopeRows.Rows.ReviseScopes | backend/app/database_connections.py:456-527 | the loop over the scopes in place carries them forward as specified |
| ScopeTheorems.UpdateKeepsInv | backend/app/api/database_connections.py:104-163 | a request that renames, switches and replaces at once succeeds exactly when the name is free and the endpoint may be replaced, and keeps numbering, currency and every stored row |
| ScopeRows.Rows.UpdateDatabaseConnection | backend/app/api/database_connections.py:104-163 | all parts of the request are written together, and a refusal of any leaves every row as it was |
| ScopeRows.Rows.CreateDatabaseConnection | backend/app/database_connections.py:591-658 | a connection is created with its first revisions, or nothing is |
| ScopeRows.Rows.CreateDatabaseScope | backend/app/api/database_connections.py:239-251 | a scope is added with its first revision on the current connector revision, or nothing is |
| ScopeRows.Rows.UpdateDatabaseBindings | backend/app/api/console.py:541-628 | the nested loops with the growing alias set make the bindings the specification makes, or none; after a success every requested operation is bound |
| MemoryKeys.KeyIsInjective | backend/app/memory/store.py:140-141 | two valid namespaces and keys share a flat key only if they are the same |
| MemoryKeys.PatternIsExact | backend/app/memory/store.py:121-126 | a clearing pattern matches exactly the keys of the agent, and of the session and kind when those are given |
| ConversationMemory.WindowShowsLastTurns | backend/app/memory/store.py:277-292 | what a conversation shows is its last turns in order, each as what the user said and what the assistant answered, cut to its first characters only if it is too long |
| ConversationMemory.WindowAbsorbs | backend/app/memory/store.py:301-305 | cutting before a turn is appended loses nothing the window would show |
| ConversationMemory.Memory.Load | backend/app/memory/store.py:277-292 | loads the window of that conversation's own full history |
| ConversationMemory.Memory.AppendTurn | backend/app/memory/store.py:294-305 | extends the history of that conversation and of no other |
| ConversationMemory.Memory.Set | backend/app/memory/store.py:311-313 | a value under another key or of another kind disturbs no conversation |
| ConversationMemory.Memory.ClearAgent | backend/app/memory/store.py:319-321 | forgets the agent's conversations and no other agent's |

## Left out

- HTTP routing, request models, streaming, the Runtime, model, knowledge and MCP clients and the frontend: input and output without state of their own.
- Interleavings inside the four joined steps listed above, and late writes by a worker whose lease has expired: the code does not guard them.
- The branch of a pass for a run without a manager task: every submission creates one.
- Error texts, timestamps, durations, the message bus, artifacts, workspaces and trace steps: no status depends on them.
- Prompt texts: opaque, apart from the list of child results the manager is given.
- Retrying a finished execution and submitting a single task: both create a task outside any run.
- The order of members in a team submission: `members` stands for the list already in that order.
- Queue entries of other runs: the queue beside the rows is the set of the run's own entries, the tasks of other runs appear only in the list that recovery works through, and the sorted set is `TaskQueue`.
- TaskQueue.ScoreOrder: does not model floating-point rounding of scores, which are reals here.
- CapabilityBridge.RegisterKeepsSound: says nothing about a registration that meets a name conflict, because that case is characterised exactly by RollbackRestoresIff.
- CapabilityBridge.ReferenceCountsAgree: covers histories that end runs by run id and in which no conflict comes before a held tool, because the other cases break the agreement as the lemmas about them show.
- Tokens, leases, renewal and the call to the gateway in the capability bridge: apart from a renewal thread that cannot be started, they do not touch the two dictionaries.
- The rewriting of format-2 snapshots at publication, health checks and preflight: they add keys or refuse before the repository is called.
- Snapshot texts that are not strings, modes and types outside the lists, malformed runtime references and references to deleted runtimes: a snapshot text is a string here, with "" for anything empty.
- AgentVersions.ValidatedIsCompleteIff: models the checks of the validator that decide what a restore reads, not those on schemas, templates and feature lists.
- Publication rows and their call to action, apart from the call counter in the metrics: their status follows the version.
- Direct writes of the console editor are one arbitrary write to the live configuration in the version model; their own checks are not modelled.
- Rounding of rates and means to six and two digits.
- The legacy first format of the conversation memory, its migration, expiry times as such (an expired conversation is a forgotten one), and the memory route that may write the message key directly.
- Vector embedding and similarity, encryption, hashing and JSON encoding.
- The generic connector and scope revision routes: they bypass the guards the scope results rest on.
- Quota, parameter and approval policies of a binding: they do not decide what is bound.
- Names of scopes and instances beyond uniqueness, resource inventories, timeouts and health check rows.
- AgentDeletion.RemainingRowsStaySafe: deletions are modelled on values only, because the rows are removed by the database and no method of the platform does it; deleting the team with all its runs, and the sessions and executions of a deleted agent, are not modelled.
- RunStore, AgentStore, ScopeRows: the rows of one run, one agent or one database as fields of an object; relations between several objects in memory are not modelled.
