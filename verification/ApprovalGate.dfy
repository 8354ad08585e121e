/** Human approval nodes: no worker runs them, and nothing that depends on one starts before a person approved it. */
module ApprovalGate {
  import opened Options
  import opened WorkflowDag
  import opened WorkflowRun
  import opened Reconcile
  import opened WorkflowEngine
  import opened WorkflowProgress
  import opened WorkflowSubmission

  /** Approval nodes are never queued or run, and only they are parked for review. */
  ghost predicate GatedChild(node: NodeSpec, t: Task) {
    && (node.nodeType == HumanApproval ==> t.status !in {Pending, Running, Retrying})
    && (t.status == HumanReview ==> node.nodeType == HumanApproval)
  }

  ghost predicate Gated(run: Run)
    requires Shaped(run)
  {
    forall i | 0 <= i < |run.children| :: GatedChild(run.nodes[i], run.children[i])
  }

  predicate Approves(action: Action, i: nat) {
    action.OnRow? && action.task == Child(i) && action.event.Review? && action.event.approved
  }

  /** What an event may do to a child: keep it gated, and let an approval succeed only by an approving review. */
  lemma EventIsGated(node: NodeSpec, t: Task, event: TaskEvent, maxAttempts: nat)
    requires CoherentTask(t, maxAttempts) && maxAttempts >= 1 && GatedChild(node, t)
    ensures var after := OnTask(t, event, maxAttempts);
            && GatedChild(node, after)
            && (node.nodeType == HumanApproval && t.status != Succeeded && after.status == Succeeded ==>
                  event.Review? && event.approved)
            && GatedChild(node, RecoverTask(t, maxAttempts))
  {
  }

  lemma PassIsGated(run: Run)
    requires Inv(run) && Gated(run)
    ensures Gated(ReconcileRun(run))
    ensures forall i | 0 <= i < |run.children| ::
              ReconcileRun(run).children[i].status == Succeeded ==> run.children[i].status == Succeeded
  {
    if !SomeChild(run.children, Failed) {
      PassEffect(run.nodes, run.children);
      var after := Pass(run.nodes, run.children, 0).children;
      forall i | 0 <= i < |after|
        ensures GatedChild(run.nodes[i], after[i])
                && (after[i].status == Succeeded ==> run.children[i].status == Succeeded)
      {
        assert PassedChild(run.nodes, run.children, after, i);
      }
    }
  }

  lemma RowIsGated(run: Run, ref: TaskRef, event: TaskEvent)
    requires Inv(run) && Gated(run)
    ensures var after := UpdateRow(run, ref, event);
            && Gated(after)
            && forall i: nat | i < |run.children| && run.nodes[i].nodeType == HumanApproval
                 && run.children[i].status != Succeeded && after.children[i].status == Succeeded ::
                 ref == Child(i) && event.Review? && event.approved
  {
    if ref.Child? && ref.index < |run.children| {
      EventIsGated(run.nodes[ref.index], run.children[ref.index], event, run.maxAttempts);
    }
  }

  /** A step keeps the gates, and an approval node succeeds in a step only when that step approves it. */
  lemma StepIsGated(run: Run, action: Action)
    requires Inv(run) && Gated(run)
    ensures Gated(Next(run, action))
    ensures forall i: nat | i < |run.children| && run.nodes[i].nodeType == HumanApproval
              && run.children[i].status != Succeeded && Next(run, action).children[i].status == Succeeded ::
                   Approves(action, i)
  {
    match action {
      case OnRow(ref, event) =>
        RowIsGated(run, ref, event);
      case Poll => PassIsGated(run);
      case ReviewPass => PassIsGated(run);
      case RecoverStale(stale) =>
        forall i | 0 <= i < |run.children|
          ensures GatedChild(run.nodes[i], RecoverRows(run, stale).children[i])
        {
          assert GatedChild(run.nodes[i], run.children[i]);
        }
      case CancelRun =>
        forall i | 0 <= i < |run.children|
          ensures GatedChild(run.nodes[i], CancelRows(run).children[i])
        {
          assert GatedChild(run.nodes[i], run.children[i]);
        }
    }
  }

  predicate SomeApproval(actions: seq<Action>, i: nat) {
    exists k | 0 <= k < |actions| :: Approves(actions[k], i)
  }

  /** Over whole runs: no worker ever gets an approval node, and one that has succeeded was approved. */
  lemma {:induction false} ApprovalNeedsReview(run: Run, actions: seq<Action>, i: nat)
    requires Inv(run) && Gated(run) && i < |run.children| && run.nodes[i].nodeType == HumanApproval
    requires run.children[i].status != Succeeded
    ensures Gated(Execute(run, actions))
    ensures Execute(run, actions).children[i].status == Succeeded ==> SomeApproval(actions, i)
    decreases |actions|
  {
    if actions == [] {
    } else {
      var next := Next(run, actions[0]);
      StepKeepsInv(run, actions[0]);
      StepIsGated(run, actions[0]);
      if next.children[i].status == Succeeded {
        assert Approves(actions[0], i);
        GatedThroughout(next, actions[1..]);
      } else {
        ApprovalNeedsReview(next, actions[1..], i);
        if SomeApproval(actions[1..], i) {
          var k :| 0 <= k < |actions[1..]| && Approves(actions[1..][k], i);
          assert Approves(actions[k + 1], i);
        }
      }
    }
  }

  lemma {:induction false} GatedThroughout(run: Run, actions: seq<Action>)
    requires Inv(run) && Gated(run)
    ensures Gated(Execute(run, actions))
    decreases |actions|
  {
    if actions == [] {
    } else {
      StepKeepsInv(run, actions[0]);
      StepIsGated(run, actions[0]);
      GatedThroughout(Next(run, actions[0]), actions[1..]);
    }
  }

  /** A submitted workflow starts gated, with no approval given. */
  lemma SubmittedIsGated(nodes: seq<NodeSpec>, agents: seq<string>, maxAttempts: nat)
    requires |nodes| == |agents| && nodes != [] && ValidDefinition(nodes) && maxAttempts >= 1
    ensures var run := WorkflowRows(nodes, agents, maxAttempts);
            Inv(run) && Gated(run) && forall i | 0 <= i < |nodes| :: run.children[i].status != Succeeded
  {
    RowsAreSound(nodes, agents, maxAttempts);
  }

  /** From submission on: whenever a child has been released, every approval node it depends on was approved by
      some step of the run. */
  lemma NothingPassesTheGate(nodes: seq<NodeSpec>, agents: seq<string>, maxAttempts: nat, actions: seq<Action>, i: nat,
                             gate: nat)
    requires |nodes| == |agents| && ValidDefinition(nodes) && maxAttempts >= 1
    requires Edge(nodes, i, gate) && nodes[gate].nodeType == HumanApproval
    ensures var last := Execute(WorkflowRows(nodes, agents, maxAttempts), actions);
            Released(last.children[i]) ==> SomeApproval(actions, gate)
  {
    var run := WorkflowRows(nodes, agents, maxAttempts);
    SubmittedIsGated(nodes, agents, maxAttempts);
    ExecutionKeepsInv(run, actions);
    ApprovalNeedsReview(run, actions, gate);
    var last := Execute(run, actions);
    assert DependencySafe(last.nodes, last.children);
  }
}
