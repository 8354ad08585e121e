/** The main results about runs of the orchestration system. */
module WorkflowTheorems {
  import opened Options
  import opened WorkflowDag
  import opened WorkflowRun
  import opened Reconcile
  import opened WorkflowEngine
  import opened WorkflowProgress

  /* Ranks of child indices. */

  ghost predicate IndexRank(nodes: seq<NodeSpec>, rank: seq<nat>) {
    |rank| == |nodes| && forall i, j | Edge(nodes, i, j) :: rank[j] < rank[i]
  }

  lemma DefinitionHasRank(nodes: seq<NodeSpec>) returns (rank: seq<nat>)
    requires ValidDefinition(nodes)
    ensures IndexRank(nodes, rank)
  {
    var g := GraphOf(nodes);
    KnownDependenciesClose(nodes);
    GraphKeysAreKeysOf(nodes);
    AcyclicIffRanked(g, KeysOf(nodes));
    var byKey :| Ranked(g, byKey);
    GraphOfKeys(nodes);
    rank := seq(|nodes|, i requires 0 <= i < |nodes| => byKey[nodes[i].key]);
    forall i, j | Edge(nodes, i, j)
      ensures rank[j] < rank[i]
    {
      GraphLookup(nodes, i);
    }
  }

  /** A non-empty set of children has a member that depends on none of them. */
  lemma {:induction false} MinimalMember(nodes: seq<NodeSpec>, rank: seq<nat>, members: set<nat>, start: nat)
    returns (least: nat)
    requires IndexRank(nodes, rank) && start in members && forall i | i in members :: i < |nodes|
    ensures least in members && forall j: nat | j in members :: !Edge(nodes, least, j)
    decreases rank[start]
  {
    if j: nat :| j in members && Edge(nodes, start, j) {
      least := MinimalMember(nodes, rank, members, j);
    } else {
      least := start;
    }
  }

  function WaitingSet(children: seq<Task>): set<nat> {
    set i: nat | i < |children| && children[i].status == WaitingChild
  }

  /* Order of starts. */

  /** The child whose attempt a step begins. */
  function StartedBy(run: Run, action: Action): (started: seq<nat>)
    requires Shaped(run)
    ensures |started| <= 1
  {
    if action.OnRow? && action.task.Child? && action.task.index < |run.children|
       && run.children[action.task.index].attempt < Next(run, action).children[action.task.index].attempt
    then [action.task.index] else []
  }

  function Starts(run: Run, actions: seq<Action>): (starts: seq<nat>)
    requires Shaped(run)
    ensures forall s | s in starts :: s < |run.children|
    decreases |actions|
  {
    if actions == [] then [] else StartedBy(run, actions[0]) + Starts(Next(run, actions[0]), actions[1..])
  }

  lemma OnlyPickupStarts(t: Task, event: TaskEvent, maxAttempts: nat)
    requires t.attempt < OnTask(t, event, maxAttempts).attempt
    ensures Queueable(t.status)
  {
  }

  lemma StartedWasReleased(run: Run, action: Action, i: nat)
    requires Inv(run) && i in StartedBy(run, action)
    ensures i < |run.children| && Queueable(run.children[i].status)
    ensures forall j | Edge(run.nodes, i, j) :: run.children[j].status == Succeeded
  {
    OnlyPickupStarts(run.children[i], action.event, run.maxAttempts);
    assert Released(run.children[i]);
  }

  lemma {:induction false} SucceededNeverStarts(run: Run, actions: seq<Action>, j: nat)
    requires Inv(run) && j < |run.children| && run.children[j].status == Succeeded
    ensures j !in Starts(run, actions)
    decreases |actions|
  {
    if actions != [] {
      var next := Next(run, actions[0]);
      StepKeepsInv(run, actions[0]);
      StepAdvances(run, actions[0]);
      if j in StartedBy(run, actions[0]) { StartedWasReleased(run, actions[0], j); }
      SucceededNeverStarts(next, actions[1..], j);
    }
  }

  lemma DependencyOfStartedNeverStarts(run: Run, action: Action, later: seq<Action>, i: nat, j: nat)
    requires Inv(run) && i in StartedBy(run, action) && Edge(run.nodes, i, j)
    ensures j !in Starts(Next(run, action), later)
  {
    StartedWasReleased(run, action, i);
    StepKeepsInv(run, action);
    StepAdvances(run, action);
    assert Advances(run.children[j], Next(run, action).children[j], run.maxAttempts);
    SucceededNeverStarts(Next(run, action), later, j);
  }

  lemma StartsUnfold(run: Run, actions: seq<Action>)
    requires Shaped(run) && actions != []
    ensures Starts(run, actions) == StartedBy(run, actions[0]) + Starts(Next(run, actions[0]), actions[1..])
  {
  }

  /** No child stands before one that it depends on. */
  ghost predicate InOrder(nodes: seq<NodeSpec>, starts: seq<nat>) {
    (forall s | s in starts :: s < |nodes|)
    && forall p, q | 0 <= p < q < |starts| :: !Edge(nodes, starts[p], starts[q])
  }

  lemma FirstInOrder(nodes: seq<NodeSpec>, first: seq<nat>, rest: seq<nat>)
    requires |first| <= 1 && InOrder(nodes, rest) && forall i | i in first :: i < |nodes|
    requires forall i, j | i in first && j in rest :: !Edge(nodes, i, j)
    ensures InOrder(nodes, first + rest)
  {
    var starts := first + rest;
    forall p, q | 0 <= p < q < |starts|
      ensures !Edge(nodes, starts[p], starts[q])
    {
      assert starts[q] == rest[q - |first|];
      if p >= |first| { assert starts[p] == rest[p - |first|]; }
    }
  }

  /** The order in which attempts begin, retries included, is a linear extension of the dependency graph: no
      child begins after a child that depends on it. */
  lemma {:induction false} StartOrderIsLinearExtension(run: Run, actions: seq<Action>)
    requires Inv(run)
    ensures InOrder(run.nodes, Starts(run, actions))
    decreases |actions|
  {
    if actions == [] {
    } else {
      var next := Next(run, actions[0]);
      var first, rest := StartedBy(run, actions[0]), Starts(next, actions[1..]);
      StepKeepsInv(run, actions[0]);
      StartOrderIsLinearExtension(next, actions[1..]);
      forall i, j | i in first && j in rest
        ensures !Edge(run.nodes, i, j)
      {
        if Edge(run.nodes, i, j) { DependencyOfStartedNeverStarts(run, actions[0], actions[1..], i, j); }
      }
      StartsUnfold(run, actions);
      FirstInOrder(run.nodes, first, rest);
    }
  }

  /* Final states. */

  /** Nothing can change the outcome of the run any more: it is finished, and no pass is owed to it after a
      cancellation. */
  predicate Closed(run: Run) {
    !ActiveRun(run.status) && !(run.status == RunCancelled && run.owed > 0)
  }

  lemma StepKeepsClosed(run: Run, action: Action)
    requires Inv(run) && Closed(run)
    ensures Closed(Next(run, action))
    ensures Next(run, action).status == run.status && Next(run, action).output == run.output
  {
    StepKeepsOutcomeIff(run, action);
  }

  /** Settled tasks and closed runs never change again, under any further steps. */
  lemma {:induction false} TerminalIsFinal(run: Run, actions: seq<Action>)
    requires Inv(run)
    ensures var last := Execute(run, actions);
            && (Settled(run.root) ==> last.root.status == run.root.status && last.root.output == run.root.output)
            && (forall i | 0 <= i < |run.children| && Settled(run.children[i]) ::
                  last.children[i].status == run.children[i].status
                    && last.children[i].output == run.children[i].output)
            && (Closed(run) ==> last.status == run.status && last.output == run.output)
    decreases |actions|
  {
    ExecutionAdvances(run, actions);
    if actions != [] && Closed(run) {
      StepKeepsInv(run, actions[0]);
      StepKeepsClosed(run, actions[0]);
      TerminalIsFinal(Next(run, actions[0]), actions[1..]);
    }
  }

  /** What finality means: no run of the system changes the status again. */
  ghost predicate TaskStatusFinal(run: Run, ref: TaskRef)
    requires Shaped(run) && Row(run, ref).Some?
  {
    forall actions :: Row(Execute(run, actions), ref).value.status == Row(run, ref).value.status
  }

  ghost predicate RunStatusFinal(run: Run)
    requires Shaped(run)
  {
    forall actions :: Execute(run, actions).status == run.status
  }

  lemma ExecuteOne(run: Run, action: Action)
    requires Shaped(run)
    ensures Execute(run, [action]) == Next(run, action)
  {
    assert [action][1..] == [];
  }

  /** The status of a finished task is final for good if and only if the task was not stopped before its worker
      looked for the agent version. */
  lemma TaskFinalIff(run: Run, ref: TaskRef)
    requires Inv(run) && Row(run, ref).Some? && Terminal(Row(run, ref).value.status)
    ensures TaskStatusFinal(run, ref) <==>
            !(Row(run, ref).value.status == Cancelled && Row(run, ref).value.worker == Preparing)
  {
    var t := Row(run, ref).value;
    if Settled(t) {
      forall actions
        ensures Row(Execute(run, actions), ref).value.status == t.status
      {
        TerminalIsFinal(run, actions);
      }
    } else {
      var late := OnRow(ref, VersionChecked(false));
      ExecuteOne(run, late);
      assert Row(Execute(run, [late]), ref).value.status == Failed;
    }
  }

  /** The status of a finished run is final for good if and only if no pass is owed to it after a cancellation. */
  lemma RunFinalIff(run: Run)
    requires Inv(run) && !ActiveRun(run.status)
    ensures RunStatusFinal(run) <==> !(run.status == RunCancelled && run.owed > 0)
  {
    if Closed(run) {
      forall actions
        ensures Execute(run, actions).status == run.status
      {
        TerminalIsFinal(run, actions);
      }
    } else {
      ExecuteOne(run, ReviewPass);
      StepKeepsOutcomeIff(run, ReviewPass);
      UnguardedPassRevivesCancelledRun(run);
      assert Execute(run, [ReviewPass]).status != run.status;
    }
  }

  /** A pass does not look at the run status: no cancelled run is left alone by it, and this is what it becomes. */
  lemma UnguardedPassRevivesCancelledRun(run: Run)
    requires Inv(run) && run.status == RunCancelled
    ensures ReconcileRun(run).status != RunCancelled
    ensures ActiveRun(ReconcileRun(run).status) <==>
            !SomeChild(run.children, Failed) && run.root.status == Cancelled
  {
    if !SomeChild(run.children, Failed) {
      PassKeepsInv(run);
      PassEffect(run.nodes, run.children);
      var after := Pass(run.nodes, run.children, 0).children;
      forall i | 0 <= i < |after|
        ensures after[i] == run.children[i]
      {
        assert PassedChild(run.nodes, run.children, after, i);
      }
      assert after == run.children;
    }
  }

  /* Crash healing. */

  predicate SessionDone(run: Run, ref: TaskRef) {
    Row(run, ref).Some? && Row(run, ref).value.session == RowSucceeded
  }

  lemma SessionDoneIsKept(run: Run, actions: seq<Action>, ref: TaskRef)
    requires Inv(run) && SessionDone(run, ref)
    ensures SessionDone(Execute(run, actions), ref)
    ensures var before, after := Row(run, ref).value, Row(Execute(run, actions), ref).value;
            && after.attempt == before.attempt && after.output == before.output
            && after.status in {Running, Succeeded}
  {
    ExecutionAdvances(run, actions);
    match ref
    case Root => assert Advances(run.root, Execute(run, actions).root, run.maxAttempts);
    case Child(i) => assert Advances(run.children[i], Execute(run, actions).children[i], run.maxAttempts);
  }

  /** A worker that dies between the two commits loses nothing: whatever stops, cancellations, recoveries and
      retries come in between, the next recovery that finds the task stale leaves it succeeded, with the
      same attempt and output. */
  lemma CrashHealing(run: Run, actions: seq<Action>, ref: TaskRef, stale: set<TaskRef>)
    requires Inv(run) && SessionDone(run, ref) && ref in stale
    ensures var healed := Execute(run, actions + [RecoverStale(stale)]);
            && Row(healed, ref).Some?
            && Row(healed, ref).value.status == Succeeded
            && Row(healed, ref).value.attempt == Row(run, ref).value.attempt
            && Row(healed, ref).value.output == Row(run, ref).value.output
  {
    var crashed := Execute(run, actions);
    ExecutionKeepsInv(run, actions);
    SessionDoneIsKept(run, actions, ref);
    ExecutionSplits(run, actions, [RecoverStale(stale)]);
    assert Execute(crashed, [RecoverStale(stale)]) == Next(crashed, RecoverStale(stale));
  }

  /* The manager and the outcome. */

  /** Once the manager has been handed over, every child has succeeded, now and later, and the material it
      was given is what the children's rows will always say. */
  lemma ManagerRunsLast(run: Run, actions: seq<Action>)
    requires Inv(run) && Handed(run.root) && run.children != []
    ensures var last := Execute(run, actions);
            && AllSucceeded(last.children)
            && last.childResults == Some(ChildResults(last.nodes, last.agents, last.children))
            && last.childResults == run.childResults
  {
    ExecutionKeepsInv(run, actions);
    ExecutionAdvances(run, actions);
  }

  /** A succeeded run has a succeeded manager, only succeeded children, and the manager's output. */
  lemma SucceededRunIsComplete(run: Run, actions: seq<Action>)
    requires Inv(run) && Execute(run, actions).status == RunSucceeded
    ensures var last := Execute(run, actions);
            && last.root.status == Succeeded && AllSucceeded(last.children)
            && last.output.Some? && last.output == last.root.output
  {
    ExecutionKeepsInv(run, actions);
  }

  /* Progress and deadlock. */

  /** Not queued, running or waiting for a person, and not about to be failed by its worker. */
  predicate IdleTask(t: Task) {
    t.status == WaitingChild || Settled(t)
  }

  predicate Idle(run: Run) {
    IdleTask(run.root) && forall i | 0 <= i < |run.children| :: IdleTask(run.children[i])
  }

  /** A child that waits although none of its dependencies waits is decided by the next pass. */
  lemma LeastWaitingIsDecided(run: Run) returns (i: nat)
    requires Inv(run) && Idle(run) && SomeChild(run.children, WaitingChild) && !SomeChild(run.children, Failed)
    ensures i < |run.children| == |Pass(run.nodes, run.children, 0).children|
    ensures run.children[i].status == WaitingChild
    ensures Pass(run.nodes, run.children, 0).children[i].status in {Cancelled, Pending, HumanReview}
    ensures (forall j | 0 <= j < |run.children| :: run.children[j].status != Cancelled) ==>
              Pass(run.nodes, run.children, 0).children[i].status != Cancelled
  {
    var rank := DefinitionHasRank(run.nodes);
    var start: nat :| start < |run.children| && run.children[start].status == WaitingChild;
    i := MinimalMember(run.nodes, rank, WaitingSet(run.children), start);
    PassEffect(run.nodes, run.children);
    var after := Pass(run.nodes, run.children, 0).children;
    assert PassedChild(run.nodes, run.children, after, i);
    forall j | Edge(run.nodes, i, j)
      ensures run.children[j].status in {Succeeded, Cancelled}
    {
      assert j in WaitingSet(run.children) <==> run.children[j].status == WaitingChild;
    }
    if !Blocked(run.nodes, run.children, after, i) {
      assert Ready(run.nodes, run.children, i);
    }
  }

  /** No deadlock: when nothing is in flight and nothing has failed or been cancelled, one pass releases a
      child, or the manager because every child has succeeded. */
  lemma NoDeadlock(run: Run)
    requires Inv(run) && ActiveRun(run.status) && Idle(run) && run.root.status == WaitingChild
    requires !SomeChild(run.children, Failed) && !SomeChild(run.children, Cancelled)
    ensures var next := Next(run, Poll);
            || (exists i :: 0 <= i < |run.children| && run.children[i].status == WaitingChild
                            && next.children[i].status in {Pending, HumanReview})
            || (AllSucceeded(run.children) && next.root.status == Pending)
  {
    PassKeepsInv(run);
    if SomeChild(run.children, WaitingChild) {
      var i := LeastWaitingIsDecided(run);
      assert Next(run, Poll).children == Pass(run.nodes, run.children, 0).children;
    } else {
      assert AllSucceeded(run.children);
      PassIdleOnSucceeded(run);
    }
  }

  /** The shape of a run that nobody will move again. */
  predicate Stuck(run: Run) {
    && run.status == RunRunning
    && (forall i | 0 <= i < |run.children| :: Settled(run.children[i]) && run.children[i].status != Failed)
    && ((run.root.status == Cancelled && Settled(run.root))
        || (run.root.status == WaitingChild && SomeChild(run.children, Cancelled)))
  }

  /** An active run that has lost no rows and has nothing in flight is left alone by a poll if and only if a child or
      the manager stays cancelled. */
  lemma StuckIffCancelled(run: Run)
    requires Inv(run) && ActiveRun(run.status)
    ensures Idle(run) && Next(run, Poll) == run <==> Stuck(run)
  {
    if Idle(run) && Next(run, Poll) == run { UnmovedIsStuck(run); }
    if Stuck(run) { StuckIsUnmoved(run); }
  }

  lemma UnmovedIsStuck(run: Run)
    requires Inv(run) && ActiveRun(run.status) && Idle(run) && Next(run, Poll) == run
    ensures Stuck(run)
  {
    PassKeepsInv(run);
    assert !SomeChild(run.children, Failed);
    if SomeChild(run.children, WaitingChild) {
      var i := LeastWaitingIsDecided(run);
    }
    if AllSucceeded(run.children) { PassIdleOnSucceeded(run); }
  }

  lemma StuckIsUnmoved(run: Run)
    requires Inv(run) && ActiveRun(run.status) && Stuck(run)
    ensures Idle(run) && Next(run, Poll) == run
  {
    PassKeepsInv(run);
    PassEffect(run.nodes, run.children);
    var after := Pass(run.nodes, run.children, 0).children;
    forall i | 0 <= i < |after|
      ensures after[i] == run.children[i]
    {
      assert PassedChild(run.nodes, run.children, after, i);
    }
    assert after == run.children;
  }

  /** A stuck run stays `running` until the whole run is cancelled. */
  lemma {:induction false} StuckUntilRunIsCancelled(run: Run, actions: seq<Action>)
    requires Inv(run) && Stuck(run) && CancelRun !in actions
    ensures Stuck(Execute(run, actions))
    decreases |actions|
  {
    if actions != [] {
      assert actions[0] in actions;
      StuckStep(run, actions[0]);
      StepKeepsInv(run, actions[0]);
      StuckUntilRunIsCancelled(Next(run, actions[0]), actions[1..]);
    }
  }

  lemma StuckRowsMove(run: Run, after: Run)
    requires Inv(run) && Stuck(run) && RowsMove(run, after)
    ensures Stuck(after)
  {
    forall i | 0 <= i < |run.children|
      ensures after.children[i].status == run.children[i].status
    {
      assert Moves(run.children[i], after.children[i], run.maxAttempts);
    }
    if SomeChild(run.children, Cancelled) {
      var i :| 0 <= i < |run.children| && run.children[i].status == Cancelled;
      assert after.children[i].status == Cancelled;
    }
  }

  lemma StuckStep(run: Run, action: Action)
    requires Inv(run) && Stuck(run) && action != CancelRun
    ensures Stuck(Next(run, action))
  {
    if action == Poll || action == ReviewPass {
      StuckIffCancelled(run);
    } else if action.OnRow? {
      UpdateRowMoves(run, action.task, action.event);
      StuckRowsMove(run, UpdateRow(run, action.task, action.event));
    } else {
      RecoverRowsMove(run, action.stale);
      StuckRowsMove(run, RecoverRows(run, action.stale));
    }
  }

  lemma CancelledNeverSucceeds(run: Run, actions: seq<Action>, ref: TaskRef)
    requires Inv(run) && Row(run, ref).Some? && Row(run, ref).value.status == Cancelled
    ensures Row(Execute(run, actions), ref).value.status in {Cancelled, Failed}
  {
    ExecutionAdvances(run, actions);
    match ref
    case Root => assert Advances(run.root, Execute(run, actions).root, run.maxAttempts);
    case Child(i) => assert Advances(run.children[i], Execute(run, actions).children[i], run.maxAttempts);
  }

  /** A cancelled task rules out success: the run never succeeds afterwards. */
  lemma CancelledTaskRulesOutSuccess(run: Run, actions: seq<Action>, ref: TaskRef)
    requires Inv(run) && Row(run, ref).Some? && Row(run, ref).value.status == Cancelled
    ensures Execute(run, actions).status != RunSucceeded
  {
    ExecutionKeepsInv(run, actions);
    CancelledNeverSucceeds(run, actions, ref);
  }

  /* Where every run ends. */

  /** No step of the platform itself does anything: no poll, owed pass, pickup, version check or recovery, and
      nobody is waiting for a person. */
  ghost predicate Quiet(run: Run)
    requires Shaped(run)
  {
    && Next(run, Poll) == run && Next(run, ReviewPass) == run
    && (forall ref, active :: Next(run, OnRow(ref, Pickup(active))) == run)
    && (forall ref, available :: Next(run, OnRow(ref, VersionChecked(available))) == run)
    && (forall stale :: Next(run, RecoverStale(stale)) == run)
    && !SomeChild(run.children, HumanReview) && run.root.status != HumanReview
  }

  lemma QuietTask(run: Run, ref: TaskRef)
    requires Inv(run) && Quiet(run) && Row(run, ref).Some?
    ensures IdleTask(Row(run, ref).value)
  {
    var t := Row(run, ref).value;
    assert Next(run, OnRow(ref, Pickup(true))) == run;
    assert Next(run, OnRow(ref, VersionChecked(true))) == run;
    assert Next(run, RecoverStale({ref})) == run;
    assert OnTask(t, Pickup(true), run.maxAttempts) == t && OnTask(t, VersionChecked(true), run.maxAttempts) == t;
    assert RecoverTask(t, run.maxAttempts) == t;
  }

  /** A run that the platform has nothing to do for any more is finished, or a cancellation keeps it where it is. */
  lemma QuietRunIsFinishedOrStuck(run: Run)
    requires Inv(run) && Quiet(run)
    ensures !ActiveRun(run.status) || Stuck(run)
  {
    QuietTask(run, Root);
    forall i: nat | i < |run.children|
      ensures IdleTask(run.children[i])
    {
      QuietTask(run, Child(i));
    }
    if ActiveRun(run.status) { StuckIffCancelled(run); }
  }

  /** What the platform does by itself, and the answer to a review. */
  predicate PlatformStep(action: Action) {
    match action
    case OnRow(_, event) => event.Pickup? || event.VersionChecked? || event.Review?
    case Poll => true
    case ReviewPass => true
    case RecoverStale(_) => true
    case CancelRun => false
  }

  lemma ReviewIsEffective(run: Run, i: nat)
    requires Inv(run) && i < |run.children| && run.children[i].status == HumanReview
    ensures Next(run, OnRow(Child(i), Review(true, ""))) != run
  {
    var reviewed := Next(run, OnRow(Child(i), Review(true, "")));
    assert reviewed.children[i].status == Succeeded;
  }

  lemma SomethingToDo(run: Run) returns (action: Action)
    requires Inv(run) && !Quiet(run)
    ensures PlatformStep(action) && Next(run, action) != run
  {
    if SomeChild(run.children, HumanReview) {
      var i: nat :| i < |run.children| && run.children[i].status == HumanReview;
      ReviewIsEffective(run, i);
      action := OnRow(Child(i), Review(true, ""));
    } else if Next(run, Poll) != run {
      action := Poll;
    } else if Next(run, ReviewPass) != run {
      action := ReviewPass;
    } else if ref, active :| Next(run, OnRow(ref, Pickup(active))) != run {
      action := OnRow(ref, Pickup(active));
    } else if ref, available :| Next(run, OnRow(ref, VersionChecked(available))) != run {
      action := OnRow(ref, VersionChecked(available));
    } else {
      var stale :| Next(run, RecoverStale(stale)) != run;
      action := RecoverStale(stale);
    }
  }

  /** From every state of a run the platform can bring it to such an end by its own steps and answered reviews alone,
      in no more steps than the measure allows. */
  lemma {:induction false} EveryRunCanEnd(run: Run) returns (actions: seq<Action>)
    requires Inv(run)
    ensures |actions| <= Measure(run) && forall a | a in actions :: PlatformStep(a)
    ensures Quiet(Execute(run, actions))
    ensures var last := Execute(run, actions); !ActiveRun(last.status) || Stuck(last)
    decreases Measure(run)
  {
    if Quiet(run) {
      actions := [];
      QuietRunIsFinishedOrStuck(run);
    } else {
      var action := SomethingToDo(run);
      StepLowersMeasure(run, action);
      StepKeepsInv(run, action);
      var rest := EveryRunCanEnd(Next(run, action));
      actions := [action] + rest;
      assert actions[1..] == rest;
    }
  }
}
