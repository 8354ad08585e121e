/** What the steps of a run come to: the outcome of a pass, of a stop and of a cancellation, and where the outputs of
    finished tasks and runs come from. */
module WorkflowOutcomes {
  import opened Options
  import opened WorkflowDag
  import opened WorkflowRun
  import opened TaskPhases
  import opened Reconcile
  import opened WorkflowEngine
  import opened WorkflowProgress
  import opened WorkflowSubmission
  import opened WorkflowTheorems
  import opened ApprovalGate
  import opened AgentDeletion

  /* The outcome of a pass. */

  /** A failed child fails the run and a manager that has not started; nobody else is touched. It holds in every
      state, whatever rows are left. */
  lemma FailedChildFailsRun(run: Run, i: nat)
    requires Shaped(run) && ActiveRun(run.status) && i < |run.children| && run.children[i].status == Failed
    ensures var next := Next(run, Poll);
            && next.status == RunFailed && next.children == run.children
            && next.output == run.output && next.childResults == run.childResults && next.owed == run.owed
            && (if run.root.status == WaitingChild || run.root.status == Pending
                then next.root == run.root.(status := Failed, session := RowFailed)
                else next.root == run.root)
  {
  }

  ghost predicate SomeFailed(run: Run) {
    exists i | 0 <= i < |run.children| :: run.children[i].status == Failed
  }

  ghost predicate EachSucceeded(run: Run) {
    forall i | 0 <= i < |run.children| :: run.children[i].status == Succeeded
  }

  /** The status that a poll leaves an active run with. */
  ghost function PolledStatus(run: Run): RunStatus
    requires Shaped(run)
  {
    if SomeFailed(run) || run.root.status == Failed then RunFailed
    else if Parks(run) then RunHumanReview
    else if run.root.status == Succeeded then RunSucceeded
    else RunRunning
  }

  lemma NothingIsLost(run: Run)
    requires Inv(run)
    ensures !SomeOrphan(run) && !Pass(run.nodes, run.children, 0).missing
  {
    KnownIsResolvable(run.nodes, run.children);
    PassMissingIff(run.nodes, run.children, 0);
  }

  /** The children a pass leaves when no child has failed. */
  ghost predicate Settles(run: Run, passed: Run) {
    && Shaped(run) && Shaped(passed) && passed == run.(children := passed.children)
    && !SomeFailed(run) && !SomeFailed(passed)
    && (SomeChild(passed.children, HumanReview) <==> Parks(run))
    && (EachSucceeded(passed) <==> EachSucceeded(run))
    && (EachSucceeded(run) ==> passed.children == run.children)
  }

  lemma PassSettles(run: Run)
    requires Inv(run) && !SomeFailed(run)
    ensures |Pass(run.nodes, run.children, 0).children| == |run.children|
    ensures Settles(run, run.(children := Pass(run.nodes, run.children, 0).children))
  {
    NothingIsLost(run);
    ParkedAfterPass(run);
    PassShape(run.nodes, run.children, 0);
    var after := Pass(run.nodes, run.children, 0).children;
    forall i | 0 <= i < |after|
      ensures after[i].status != Failed
      ensures after[i].status == Succeeded <==> run.children[i].status == Succeeded
      ensures run.children[i].status == Succeeded ==> after[i] == run.children[i]
    {
      assert PassMoves(run.children[i], after[i]);
    }
    if EachSucceeded(run) { assert after == run.children; }
  }

  lemma ParkedIsUnfinished(run: Run)
    requires Shaped(run) && Parks(run)
    ensures !EachSucceeded(run)
  {
  }

  /** What a poll does to the run row and the manager, said in terms of the state before it. */
  lemma PollOutcome(run: Run)
    requires Inv(run) && ActiveRun(run.status)
    ensures var next := Next(run, Poll);
            && next.status == PolledStatus(run)
            && next.output == (if run.root.status == Succeeded then run.root.output else run.output)
            && next.owed == run.owed
            && next.root == (if run.root.status != WaitingChild then run.root
                             else if SomeFailed(run) then run.root.(status := Failed, session := RowFailed)
                             else if EachSucceeded(run) then run.root.(status := Pending)
                             else run.root)
  {
    if i :| 0 <= i < |run.children| && run.children[i].status == Failed {
      FailedChildFailsRun(run, i);
    } else {
      NothingIsLost(run);
      PassSettles(run);
      if Parks(run) { ParkedIsUnfinished(run); }
      SettledOutcome(run, run.(children := Pass(run.nodes, run.children, 0).children));
    }
  }

  lemma SettledOutcome(run: Run, passed: Run)
    requires Inv(run) && Settles(run, passed) && (Parks(run) ==> !EachSucceeded(run))
    ensures var next := Settle(passed);
            && next.status == PolledStatus(run)
            && next.output == (if run.root.status == Succeeded then run.root.output else run.output)
            && next.owed == run.owed
            && next.root == (if run.root.status == WaitingChild && EachSucceeded(run)
                             then run.root.(status := Pending) else run.root)
  {
    assert EachSucceeded(passed) <==> AllSucceeded(passed.children);
    assert EachSucceeded(run) <==> AllSucceeded(run.children);
  }

  /** The manager is handed over by the poll that finds every child succeeded, with their outputs in order. */
  lemma HandoverIff(run: Run)
    requires Inv(run) && ActiveRun(run.status) && run.root.status == WaitingChild
    ensures var next := Next(run, Poll);
            && (next.root.status == Pending <==> EachSucceeded(run))
            && (EachSucceeded(run) ==>
                  && next.childResults.Some? && |next.childResults.value| == |run.children|
                  && forall i | 0 <= i < |run.children| ::
                       next.childResults.value[i] ==
                       ChildResult(run.nodes[i].key, run.agents[i], run.children[i].output))
  {
    PollOutcome(run);
    if EachSucceeded(run) {
      PassSettles(run);
      NothingIsLost(run);
    }
  }

  /** The pass owed to a review does to an active run what a poll does, and is paid off. */
  lemma OwedPassIsPoll(run: Run)
    requires Shaped(run) && ActiveRun(run.status)
    ensures run.owed > 0 ==> Next(run, ReviewPass) == Next(run, Poll).(owed := run.owed - 1)
    ensures run.owed == 0 ==> Next(run, ReviewPass) == run
  {
  }

  /* The outcome of a transaction on one row. */

  /** Every transaction on a row is a move of that row's automaton and leaves the rest of the run alone, except that a
      review owes the run a pass. */
  lemma RowStepFollowsAutomaton(run: Run, ref: TaskRef, event: TaskEvent)
    requires Inv(run) && Row(run, ref).Some?
    ensures var next := Next(run, OnRow(ref, event));
            var t := Row(run, ref).value;
            && Row(next, ref).Some?
            && PhaseOf(Row(next, ref).value) == PhaseAfter(PhaseOf(t), event, t.attempt == run.maxAttempts)
            && (forall other | other != ref :: Row(next, other) == Row(run, other))
            && next == run.(root := next.root, children := next.children, owed := next.owed)
            && next.owed == run.owed + (if event.Review? && PhaseOf(t) == Parked then 1 else 0)
  {
    RowsFollowAutomaton(Row(run, ref).value, event, run.maxAttempts);
  }

  /** Recovery moves the stale rows and nothing else. */
  lemma RecoveryStepFollowsAutomaton(run: Run, stale: set<TaskRef>, ref: TaskRef)
    requires Inv(run) && Row(run, ref).Some?
    ensures var next := Next(run, RecoverStale(stale));
            var t := Row(run, ref).value;
            && Row(next, ref).Some?
            && (ref in stale ==>
                  PhaseOf(Row(next, ref).value) == PhaseRecovered(PhaseOf(t), t.attempt == run.maxAttempts))
            && (ref !in stale ==> Row(next, ref) == Row(run, ref))
            && next == run.(root := next.root, children := next.children)
  {
    RecoveryFollowsAutomaton(Row(run, ref).value, run.maxAttempts);
  }

  /** No task is running. */
  ghost predicate Resting(run: Run) {
    forall ref | Row(run, ref).Some? :: Row(run, ref).value.status != Running
  }

  /** A run can be cancelled if and only if it is active and no task is running; then every unfinished task is
      cancelled with its session and its execution, and every finished one stays as it is. */
  lemma CancelRunOutcome(run: Run)
    requires Inv(run)
    ensures var next := Next(run, CancelRun);
            && (next != run <==> ActiveRun(run.status) && Resting(run))
            && (next != run ==>
                  && next.status == RunCancelled
                  && next == run.(status := next.status, root := next.root, children := next.children)
                  && forall ref | Row(run, ref).Some? ::
                       Row(next, ref) ==
                       if Terminal(Row(run, ref).value.status) then Row(run, ref)
                       else Some(Row(run, ref).value.(status := Cancelled, session := RowCancelled,
                                                      execution := RowCancelled)))
  {
    assert Row(run, Root) == Some(run.root);
    forall i: nat | i < |run.children|
      ensures Row(run, Child(i)) == Some(run.children[i])
    {
    }
  }

  /** A stop of a running execution is final: whatever happens afterwards, the task never succeeds, and neither does
      the run. */
  lemma StoppedNeverSucceeds(run: Run, ref: TaskRef, actions: seq<Action>)
    requires Inv(run) && Row(run, ref).Some? && Row(run, ref).value.execution == RowRunning
    ensures var stopped := Next(run, OnRow(ref, Stop));
            && Row(stopped, ref) == Some(Row(run, ref).value.(status := Cancelled, session := RowCancelled,
                                                              execution := RowCancelled))
            && Row(Execute(stopped, actions), ref).Some?
            && Row(Execute(stopped, actions), ref).value.status in {Cancelled, Failed}
            && Execute(stopped, actions).status != RunSucceeded
  {
    StopTakesEffectIff(Row(run, ref).value, run.maxAttempts);
    StepKeepsInv(run, OnRow(ref, Stop));
    var stopped := Next(run, OnRow(ref, Stop));
    CancelledNeverSucceeds(stopped, actions, ref);
    CancelledTaskRulesOutSuccess(stopped, actions, ref);
  }

  /* Where outputs come from. */

  /** The event answers the task: the Runtime's result of an attempt at work, or the review of a parked task. */
  predicate Answers(t: Task, event: TaskEvent) {
    (PhaseOf(t) == Working && event.Complete?) || (PhaseOf(t) == Parked && event.Review?)
  }

  predicate IsAnswer(run: Run, action: Action, ref: TaskRef) {
    action.OnRow? && action.task == ref && Row(run, ref).Some? && Answers(Row(run, ref).value, action.event)
  }

  /** The last answer a task was given in the history that `actions` makes from `run`. */
  function LastAnswer(run: Run, actions: seq<Action>, ref: TaskRef): Option<TaskEvent>
    requires Shaped(run)
    decreases |actions|
  {
    if actions == [] then None
    else
      var later := LastAnswer(Next(run, actions[0]), actions[1..], ref);
      if later.Some? then later
      else if IsAnswer(run, actions[0], ref) then Some(actions[0].event)
      else None
  }

  /** What an answer says. */
  function Says(event: TaskEvent): Option<string> {
    match event
    case Complete(result) => Some(result)
    case Review(approved, note) => Some(ReviewText(approved, note))
    case _ => None
  }

  function OutputOf(run: Run, ref: TaskRef): Option<string> {
    if Row(run, ref).Some? then Row(run, ref).value.output else None
  }

  lemma PassKeepsOutput(run: Run, ref: TaskRef)
    requires Shaped(run)
    ensures OutputOf(ReconcileRun(run), ref) == OutputOf(run, ref)
    ensures Row(run, ref).Some? ==> Row(ReconcileRun(run), ref).Some?
  {
    PassShape(run.nodes, run.children, 0);
    var after := Pass(run.nodes, run.children, 0).children;
    forall i: nat | i < |run.children|
      ensures after[i].output == run.children[i].output
    {
      assert PassMoves(run.children[i], after[i]);
    }
  }

  lemma RowStepOutput(run: Run, ref: TaskRef, other: TaskRef, event: TaskEvent)
    requires Inv(run)
    ensures var next := Next(run, OnRow(other, event));
            OutputOf(next, ref) ==
            if IsAnswer(run, OnRow(other, event), ref) then Says(event) else OutputOf(run, ref)
  {
    if Row(run, other).Some? {
      RowStepFollowsAutomaton(run, other, event);
      AttemptsAndOutput(Row(run, other).value, event, run.maxAttempts);
    }
  }

  /** One step: the output is what the step answered, or what it was. */
  lemma StepOutput(run: Run, action: Action, ref: TaskRef)
    requires Inv(run)
    ensures OutputOf(Next(run, action), ref) ==
            if IsAnswer(run, action, ref) then Says(action.event) else OutputOf(run, ref)
  {
    match action
    case OnRow(other, event) => RowStepOutput(run, ref, other, event);
    case Poll => PassKeepsOutput(run, ref);
    case ReviewPass => PassKeepsOutput(run, ref);
    case RecoverStale(stale) =>
    case CancelRun =>
  }

  /** What a task says at the end of any history is exactly the last answer it was given. */
  lemma {:induction false} OutputIsLastAnswer(run: Run, actions: seq<Action>, ref: TaskRef)
    requires Inv(run)
    ensures var answer := LastAnswer(run, actions, ref);
            OutputOf(Execute(run, actions), ref) == if answer.Some? then Says(answer.value) else OutputOf(run, ref)
    decreases |actions|
  {
    if actions == [] {
    } else {
      StepKeepsInv(run, actions[0]);
      StepOutput(run, actions[0], ref);
      OutputIsLastAnswer(Next(run, actions[0]), actions[1..], ref);
    }
  }

  lemma {:induction false} AnswerIsInHistory(run: Run, actions: seq<Action>, ref: TaskRef)
    requires Shaped(run)
    ensures var answer := LastAnswer(run, actions, ref);
            answer.Some? ==> OnRow(ref, answer.value) in actions && (answer.value.Complete? || answer.value.Review?)
    decreases |actions|
  {
    if actions == [] {
    } else {
      AnswerIsInHistory(Next(run, actions[0]), actions[1..], ref);
    }
  }

  /** Approval nodes are answered by reviews, and every other task by its Runtime. */
  lemma {:induction false} AnswerFitsTask(run: Run, actions: seq<Action>, ref: TaskRef)
    requires Inv(run) && Gated(run) && Row(run, ref).Some?
    ensures var answer := LastAnswer(run, actions, ref);
            answer.Some? ==>
              (answer.value.Review? <==> ref.Child? && run.nodes[ref.index].nodeType == HumanApproval)
    decreases |actions|
  {
    if actions == [] {
    } else {
      StepKeepsInv(run, actions[0]);
      StepIsGated(run, actions[0]);
      AnswerFitsTask(Next(run, actions[0]), actions[1..], ref);
      if IsAnswer(run, actions[0], ref) { AnswersFit(run, actions[0], ref); }
    }
  }

  lemma AnswersFit(run: Run, action: Action, ref: TaskRef)
    requires Inv(run) && Gated(run) && IsAnswer(run, action, ref)
    ensures action.event.Review? <==> ref.Child? && run.nodes[ref.index].nodeType == HumanApproval
  {
    if ref.Child? { assert GatedChild(run.nodes[ref.index], run.children[ref.index]); }
  }

  /** The Runtime returned this text for the task in the history. */
  ghost predicate Returned(actions: seq<Action>, ref: TaskRef, text: string) {
    OnRow(ref, Complete(text)) in actions
  }

  /** An approver of the task left this text in the history. */
  ghost predicate Reviewed(actions: seq<Action>, ref: TaskRef, text: string) {
    exists approved, note :: OnRow(ref, Review(approved, note)) in actions && text == ReviewText(approved, note)
  }

  /** From submission on, the output of a child is a result its Runtime returned, or for an approval node what its
      approver left. */
  lemma ChildOutputHasSource(nodes: seq<NodeSpec>, agents: seq<string>, maxAttempts: nat, actions: seq<Action>, i: nat)
    requires |nodes| == |agents| && ValidDefinition(nodes) && maxAttempts >= 1 && i < |nodes|
    ensures var output := Execute(WorkflowRows(nodes, agents, maxAttempts), actions).children[i].output;
            output.Some? ==>
              if nodes[i].nodeType == HumanApproval then Reviewed(actions, Child(i), output.value)
              else Returned(actions, Child(i), output.value)
  {
    var run := WorkflowRows(nodes, agents, maxAttempts);
    SubmittedIsGated(nodes, agents, maxAttempts);
    OutputIsLastAnswer(run, actions, Child(i));
    AnswerIsInHistory(run, actions, Child(i));
    AnswerFitsTask(run, actions, Child(i));
    assert OutputOf(Execute(run, actions), Child(i)) == Execute(run, actions).children[i].output;
  }

  /** From submission on, a succeeded run says what the manager's Runtime returned. */
  lemma RunOutputIsManagersResult(nodes: seq<NodeSpec>, agents: seq<string>, maxAttempts: nat, actions: seq<Action>)
    requires |nodes| == |agents| && nodes != [] && ValidDefinition(nodes) && maxAttempts >= 1
    ensures var last := Execute(WorkflowRows(nodes, agents, maxAttempts), actions);
            last.status == RunSucceeded ==> last.output.Some? && Returned(actions, Root, last.output.value)
  {
    var run := WorkflowRows(nodes, agents, maxAttempts);
    SubmittedIsGated(nodes, agents, maxAttempts);
    if Execute(run, actions).status == RunSucceeded {
      SucceededRunIsComplete(run, actions);
      OutputIsLastAnswer(run, actions, Root);
      AnswerIsInHistory(run, actions, Root);
      AnswerFitsTask(run, actions, Root);
    }
  }

  /** What the manager is given are those outputs: from submission on, every result handed to it is one that the
      history of the run holds for that child. */
  lemma HandedResultsHaveSources(nodes: seq<NodeSpec>, agents: seq<string>, maxAttempts: nat, actions: seq<Action>,
                                 i: nat)
    requires |nodes| == |agents| && ValidDefinition(nodes) && maxAttempts >= 1 && i < |nodes|
    ensures var given := Execute(WorkflowRows(nodes, agents, maxAttempts), actions).childResults;
            given.Some? ==>
              && |given.value| == |nodes|
              && given.value[i].nodeKey == nodes[i].key && given.value[i].agentId == agents[i]
              && given.value[i].output.Some?
              && if nodes[i].nodeType == HumanApproval then Reviewed(actions, Child(i), given.value[i].output.value)
                 else Returned(actions, Child(i), given.value[i].output.value)
  {
    var run := WorkflowRows(nodes, agents, maxAttempts);
    SubmittedIsGated(nodes, agents, maxAttempts);
    ExecutionKeepsInv(run, actions);
    ChildOutputHasSource(nodes, agents, maxAttempts, actions, i);
    var last := Execute(run, actions);
    if last.childResults.Some? {
      assert last.children[i].status == Succeeded && CoherentTask(last.children[i], last.maxAttempts);
    }
  }
}
