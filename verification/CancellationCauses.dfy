/** Where cancelled tasks come from, and two runs in which a status that was final is taken back. */
module CancellationCauses {
  import opened Options
  import opened WorkflowDag
  import opened WorkflowRun
  import opened Reconcile
  import opened WorkflowEngine
  import opened WorkflowProgress
  import opened WorkflowSubmission
  import opened WorkflowTheorems

  /** The requests and answers that cancel something. */
  predicate Cancels(action: Action) {
    action == CancelRun || (action.OnRow? && action.event in {Stop, Cancel, RuntimeCancels})
  }

  /** Neither cancelled nor about to be. */
  predicate Unharmed(t: Task) {
    t.status != Cancelled && t.execution != RowCancelled && t.worker != Raised(true)
  }

  ghost predicate AllUnharmed(run: Run) {
    Unharmed(run.root) && forall i | 0 <= i < |run.children| :: Unharmed(run.children[i])
  }

  lemma EventKeepsUnharmed(t: Task, event: TaskEvent, maxAttempts: nat)
    requires Unharmed(t) && event !in {Stop, Cancel, RuntimeCancels}
    ensures Unharmed(OnTask(t, event, maxAttempts)) && Unharmed(RecoverTask(t, maxAttempts))
  {
  }

  /** A pass cancels a child only on behalf of one that failed or was cancelled, and with a failed child it does
      not come to that. */
  lemma {:induction false} PassHarmsNobody(nodes: seq<NodeSpec>, children: seq<Task>, i: nat)
    requires |children| == |nodes| && i <= |nodes|
    requires forall j | 0 <= j < |children| :: Unharmed(children[j]) && children[j].status != Failed
    ensures |Pass(nodes, children, i).children| == |children|
    ensures forall j | 0 <= j < |children| :: Unharmed(Pass(nodes, children, i).children[j])
    decreases |nodes| - i
  {
    if i == |nodes| {
    } else if children[i].status != WaitingChild {
      PassHarmsNobody(nodes, children, i + 1);
    } else {
      var decision := Decide(nodes, children, i);
      assert decision != Block;
      if decision != Missing { PassHarmsNobody(nodes, children[i := Apply(nodes[i], children[i], decision)], i + 1); }
    }
  }

  lemma PassKeepsUnharmed(run: Run)
    requires Shaped(run) && AllUnharmed(run)
    ensures AllUnharmed(ReconcileRun(run))
  {
    if !SomeChild(run.children, Failed) { PassHarmsNobody(run.nodes, run.children, 0); }
  }

  lemma StepKeepsUnharmed(run: Run, action: Action)
    requires Shaped(run) && AllUnharmed(run) && !Cancels(action)
    ensures AllUnharmed(Next(run, action))
  {
    match action {
      case OnRow(ref, event) =>
        match ref {
          case Root => EventKeepsUnharmed(run.root, event, run.maxAttempts);
          case Child(i) => if i < |run.children| { EventKeepsUnharmed(run.children[i], event, run.maxAttempts); }
        }
      case Poll => PassKeepsUnharmed(run);
      case ReviewPass => PassKeepsUnharmed(run);
      case RecoverStale(stale) =>
        EventKeepsUnharmed(run.root, Finalize, run.maxAttempts);
        forall i | 0 <= i < |run.children|
          ensures Unharmed(RecoverRows(run, stale).children[i])
        {
          EventKeepsUnharmed(run.children[i], Finalize, run.maxAttempts);
        }
      case CancelRun => assert false;
    }
  }

  predicate SomeCause(actions: seq<Action>) {
    exists k | 0 <= k < |actions| :: Cancels(actions[k])
  }

  lemma {:induction false} UnharmedWithoutCause(run: Run, actions: seq<Action>)
    requires Inv(run) && AllUnharmed(run) && !SomeCause(actions)
    ensures AllUnharmed(Execute(run, actions))
    decreases |actions|
  {
    if actions == [] {
    } else {
      assert !Cancels(actions[0]);
      StepKeepsInv(run, actions[0]);
      StepKeepsUnharmed(run, actions[0]);
      assert forall k | 0 <= k < |actions[1..]| :: actions[1..][k] == actions[k + 1];
      UnharmedWithoutCause(Next(run, actions[0]), actions[1..]);
    }
  }

  /** From submission on: a run that is stuck has seen a task cancelled, an execution stopped, a cancellation by the
      Runtime, or the cancellation of the whole run. */
  lemma StuckRunWasCancelled(nodes: seq<NodeSpec>, agents: seq<string>, maxAttempts: nat, actions: seq<Action>)
    requires |nodes| == |agents| && nodes != [] && ValidDefinition(nodes) && maxAttempts >= 1
    requires Stuck(Execute(WorkflowRows(nodes, agents, maxAttempts), actions))
    ensures SomeCause(actions)
  {
    var run := WorkflowRows(nodes, agents, maxAttempts);
    RowsAreSound(nodes, agents, maxAttempts);
    if !SomeCause(actions) {
      UnharmedWithoutCause(run, actions);
    }
  }

  /* The two runs. */

  lemma ExecuteThree(run: Run, a: Action, b: Action, c: Action)
    requires Shaped(run)
    ensures Execute(run, [a, b]) == Next(Next(run, a), b)
    ensures Execute(run, [a, b, c]) == Next(Next(Next(run, a), b), c)
  {
    assert [a, b][1..] == [b] && [a, b, c][1..] == [b, c] && [b, c][1..] == [c];
    ExecuteOne(Next(run, a), b);
    ExecuteOne(Next(Next(run, a), b), c);
  }

  lemma OneNodeIsValid(node: NodeSpec, agent: string)
    requires node.dependsOn == []
    ensures ValidDefinition([node]) && Inv(WorkflowRows([node], [agent], 3))
  {
    IndependentNodesAreValid([node]);
    RowsAreSound([node], [agent], 3);
  }

  /** A review is committed, the run is cancelled, and then the pass the review owes arrives: the cancelled run is
      running again, and stuck. */
  lemma LatePassRevivesRun(agent: string, note: string)
    ensures var gate := NodeSpec("gate", HumanApproval, agent, []);
            var run := WorkflowRows([gate], [agent], 3);
            var review := OnRow(Child(0), Review(true, note));
            && Inv(run)
            && Execute(run, [review, CancelRun]).status == RunCancelled
            && Execute(run, [review, CancelRun, ReviewPass]).status == RunRunning
            && Stuck(Execute(run, [review, CancelRun, ReviewPass]))
  {
    var gate := NodeSpec("gate", HumanApproval, agent, []);
    var run := WorkflowRows([gate], [agent], 3);
    var review := OnRow(Child(0), Review(true, note));
    OneNodeIsValid(gate, agent);
    var reviewed := Next(run, review);
    StepKeepsInv(run, review);
    StepKeepsInv(reviewed, CancelRun);
    ReviewedGate(run, review);
    CancelledWithPassOwed(reviewed);
    LatePass(Next(reviewed, CancelRun));
    ExecuteThree(run, review, CancelRun, ReviewPass);
  }

  lemma ReviewedGate(run: Run, review: Action)
    requires Shaped(run) && |run.children| == 1 && run.children[0].status == HumanReview && run.owed == 0
    requires review.OnRow? && review.task == Child(0) && review.event.Review? && review.event.approved
    ensures var r := Next(run, review);
            && |r.children| == 1 && r.children[0].status == Succeeded && r.root == run.root && r.status == run.status
               && r.owed == 1
  {
  }

  lemma CancelledWithPassOwed(run: Run)
    requires Shaped(run) && |run.children| == 1 && run.children[0].status == Succeeded && run.owed == 1
    requires run.root.status == WaitingChild && ActiveRun(run.status)
    ensures var r := Next(run, CancelRun);
            && |r.children| == 1 && r.children[0].status == Succeeded && r.root.status == Cancelled
               && r.root.worker == run.root.worker
            && r.status == RunCancelled && r.owed == 1
  {
    assert !SomeChild(run.children, Running);
  }

  lemma LatePass(run: Run)
    requires Inv(run) && |run.children| == 1 && run.children[0].status == Succeeded && run.owed == 1
    requires run.root.status == Cancelled && run.root.worker == NoWorker && run.status == RunCancelled
    ensures Next(run, ReviewPass).status == RunRunning && Stuck(Next(run, ReviewPass))
  {
    PassIdleOnSucceeded(run);
    assert !SomeChild(run.children, Failed) && !SomeChild(run.children, HumanReview);
  }

  /** A worker picks a task up, the execution is stopped, and then the worker finds the agent version missing: the
      cancelled task has failed. */
  lemma LateVersionCheckFailsStoppedTask(agent: string)
    ensures var node := NodeSpec("work", AgentNode, agent, []);
            var run := WorkflowRows([node], [agent], 3);
            var pickup, stop := OnRow(Child(0), Pickup(true)), OnRow(Child(0), Stop);
            && Inv(run)
            && Execute(run, [pickup, stop]).children[0].status == Cancelled
            && Execute(run, [pickup, stop, OnRow(Child(0), VersionChecked(false))]).children[0].status == Failed
  {
    var node := NodeSpec("work", AgentNode, agent, []);
    OneNodeIsValid(node, agent);
    ExecuteThree(WorkflowRows([node], [agent], 3), OnRow(Child(0), Pickup(true)), OnRow(Child(0), Stop),
                 OnRow(Child(0), VersionChecked(false)));
  }
}
