/** The stored rows of one run with its queue entries, and the code that updates them step by step. Every
    method is proved to do exactly the transaction of the transition system. */
module RunStore {
  import opened Options
  import opened WorkflowDag
  import opened WorkflowRun
  import opened Reconcile
  import opened WorkflowEngine
  import opened WorkflowSubmission
  import opened QueueHint

  class RunRows {
    const nodes: seq<NodeSpec>
    const agents: seq<string>
    const maxAttempts: nat
    var root: Task
    var children: seq<Task>
    var status: RunStatus
    var output: Option<string>
    var childResults: Option<seq<ChildResult>>
    var owed: nat
    var queue: set<TaskRef>

    ghost predicate Valid()
      reads this
    {
      |nodes| == |agents| == |children|
    }

    ghost function Rows(): (run: Run)
      reads this
      requires Valid()
      ensures Shaped(run)
    {
      Run(nodes, agents, maxAttempts, root, children, status, output, childResults, owed)
    }

    ghost function View(): (h: Hinted)
      reads this
      requires Valid()
      ensures Shaped(h.run)
    {
      Hinted(Rows(), queue)
    }

    /** `submit_workflow_run` after its checks: the manager first, then one row per node. */
    constructor Workflow(nodes: seq<NodeSpec>, agents: seq<string>, maxAttempts: nat)
      requires |nodes| == |agents|
      ensures Valid() && Rows() == WorkflowRows(nodes, agents, maxAttempts)
      ensures Covered(View())
    {
      this.nodes, this.agents, this.maxAttempts := nodes, agents, maxAttempts;
      root := NewTask(WaitingChild);
      var created: seq<Task> := [];
      var ready: set<TaskRef> := {};
      for i := 0 to |nodes|
        invariant |created| == i
        invariant forall j | 0 <= j < i :: created[j] == NewTask(InitialStatus(nodes[j]))
        invariant forall j: nat | j < i && InitialStatus(nodes[j]) == Pending :: Child(j) in ready
      {
        var initial: TaskStatus;
        if nodes[i].nodeType == HumanApproval && nodes[i].dependsOn == [] {
          initial := HumanReview;
        } else if nodes[i].dependsOn != [] {
          initial := WaitingChild;
        } else {
          initial := Pending;
        }
        created := created + [NewTask(initial)];
        if initial == Pending { ready := ready + {Child(i)}; }
      }
      children := created;
      status := if exists i | 0 <= i < |nodes| :: nodes[i].nodeType == HumanApproval && nodes[i].dependsOn == []
                then RunHumanReview else RunRunning;
      output, childResults, owed := None, None, 0;
      queue := ready;
    }

    /** `submit_team_run` with the members that take part. */
    constructor Team(members: seq<Member>, owner: string, maxAttempts: nat)
      ensures Valid() && Rows() == SubmitTeam(members, owner, maxAttempts)
      ensures Covered(View())
    {
      var agents := Participants(members, owner);
      var nodes := TeamNodes(agents);
      this.nodes, this.agents, this.maxAttempts := nodes, agents, maxAttempts;
      children := seq(|agents|, _ => NewTask(Pending));
      queue := set i: nat | i < |agents| :: Child(i);
      root := NewTask(WaitingChild);
      status, output, childResults, owed := RunRunning, None, None, 0;
      if agents == [] {
        root := NewTask(Pending);
        queue := {Root};
      }
    }

    method Load(ref: TaskRef) returns (task: Option<Task>)
      requires Valid()
      ensures task == Row(Rows(), ref)
    {
      match ref
      case Root => task := Some(root);
      case Child(i) => task := if i < |children| then Some(children[i]) else None;
    }

    method Save(ref: TaskRef, task: Task)
      requires Valid() && Row(Rows(), ref).Some?
      modifies this`root, this`children
      ensures Valid()
      ensures ref == Root ==> Rows() == old(Rows()).(root := task)
      ensures ref.Child? ==> Rows() == old(Rows()).(children := old(children)[ref.index := task])
    {
      match ref
      case Root => root := task;
      case Child(i) => children := children[i := task];
    }

    /* The worker. */

    /** A worker takes a queue entry and commits the pickup, unless the row says it is not to be run. */
    method Execute(ref: TaskRef, agentActive: bool)
      requires Valid()
      modifies this
      ensures Valid() && View() == HintedNext(old(View()), Take(ref, agentActive))
    {
      if ref !in queue { return; }
      queue := queue - {ref};
      var loaded := Load(ref);
      if loaded.None? || loaded.value.status !in {Pending, Retrying} { return; }
      var task := loaded.value;
      if task.session == RowSucceeded {
        task := task.(status := Succeeded);
        task := task.(worker := NoWorker);
        Save(ref, task);
        return;
      }
      if !agentActive {
        Save(ref, TerminalFailure(task));
        return;
      }
      task := task.(status := Running);
      task := task.(attempt := task.attempt + 1);
      task := task.(session := RowRunning);
      task := task.(execution := RowRunning);
      task := task.(worker := Preparing);
      Save(ref, task);
    }

    /** The same worker, after that commit: without its agent version the task fails, and the row is not read
        again before that is written. */
    method LookForVersion(ref: TaskRef, available: bool)
      requires Valid()
      modifies this
      ensures Valid() && View() == HintedNext(old(View()), Plain(OnRow(ref, VersionChecked(available))))
    {
      var loaded := Load(ref);
      if loaded.None? || loaded.value.worker != Preparing { return; }
      if !available {
        Save(ref, TerminalFailure(loaded.value));
        return;
      }
      Save(ref, loaded.value.(worker := Attempting));
    }

    /** The Runtime has answered; the execution status is read again before anything is written. */
    method CompleteExecution(ref: TaskRef, result: string)
      requires Valid()
      modifies this
      ensures Valid() && View() == HintedNext(old(View()), Plain(OnRow(ref, Complete(result))))
      ensures old(AtWork(ref)) ==>
                Row(Rows(), ref).value.output == Some(result) && Row(Rows(), ref).value.worker == Completed
    {
      var loaded := Load(ref);
      if loaded.None? || loaded.value.worker != Attempting { return; }
      var task := loaded.value;
      if task.execution == RowCancelled {
        task := task.(session := RowCancelled, worker := Raised(true));
        Save(ref, task);
        return;
      }
      task := task.(execution := RowSucceeded);
      task := task.(session := RowSucceeded);
      task := task.(output := Some(result));
      task := task.(worker := Completed);
      Save(ref, task);
    }

    /** A worker is waiting for the Runtime's answer and nobody has stopped the execution. */
    ghost predicate AtWork(ref: TaskRef)
      reads this
      requires Valid()
    {
      Row(Rows(), ref).Some? && Row(Rows(), ref).value.worker == Attempting
      && Row(Rows(), ref).value.execution != RowCancelled
    }

    method FailExecution(ref: TaskRef)
      requires Valid()
      modifies this
      ensures Valid() && View() == HintedNext(old(View()), Plain(OnRow(ref, RuntimeFails)))
    {
      var loaded := Load(ref);
      if loaded.None? || loaded.value.worker != Attempting { return; }
      var task := loaded.value;
      if task.execution != RowCancelled {
        task := task.(execution := RowFailed);
        task := task.(session := RowFailed);
      }
      task := task.(worker := Raised(false));
      Save(ref, task);
    }

    /** The worker's exception handler: stop, give up, or go back to the queue. */
    method HandleError(ref: TaskRef)
      requires Valid()
      modifies this
      ensures Valid() && View() == HintedNext(old(View()), Plain(OnRow(ref, TaskEvent.HandleError)))
    {
      var loaded := Load(ref);
      if loaded.None? || !loaded.value.worker.Raised? { return; }
      var task := loaded.value;
      if task.status == Cancelled || task.worker.cancellation {
        if task.status != Cancelled {
          task := task.(status := Cancelled);
          task := task.(session := RowCancelled);
        }
        task := task.(worker := NoWorker);
        Save(ref, task);
        return;
      }
      if task.attempt < maxAttempts {
        task := task.(status := Retrying);
        task := task.(session := RowQueued);
        task := task.(execution := RowQueued);
        task := task.(worker := NoWorker);
        Save(ref, task);
        queue := queue + {ref};
        return;
      }
      Save(ref, TerminalFailure(task));
    }

    method Finalize(ref: TaskRef)
      requires Valid()
      modifies this
      ensures Valid() && View() == HintedNext(old(View()), Plain(OnRow(ref, TaskEvent.Finalize)))
    {
      var loaded := Load(ref);
      if loaded.None? || loaded.value.worker != Completed { return; }
      var task := loaded.value;
      if task.status != Cancelled { task := task.(status := Succeeded); }
      Save(ref, task.(worker := NoWorker));
    }

    method RecoverOne(task: Task) returns (recovered: Task)
      ensures recovered == RecoverTask(task, maxAttempts)
    {
      recovered := task;
      if task.status != Running { return; }
      recovered := recovered.(worker := NoWorker);
      if task.session == RowSucceeded {
        recovered := recovered.(status := Succeeded);
        return;
      }
      recovered := recovered.(status := if task.attempt < maxAttempts then Retrying else Failed);
      recovered := recovered.(session := if recovered.status == Retrying then RowQueued else RowFailed);
      recovered := recovered.(execution := if recovered.status == Retrying then RowQueued else RowFailed);
    }

    /** The recovery loop over stale tasks, then over what the query lists of the whole platform. */
    method Recover(stale: set<TaskRef>, order: seq<Listed>)
      requires Valid()
      modifies this
      ensures Valid() && View() == HintedNext(old(View()), HintedAction.Recover(stale, order))
    {
      RecoverEach(stale);
      Requeue(order);
    }

    method RecoverEach(stale: set<TaskRef>)
      requires Valid()
      modifies this`root, this`children
      ensures Valid() && Rows() == RecoverRows(old(Rows()), stale)
    {
      ghost var before := Rows();
      if Root in stale { root := RecoverOne(root); }
      for i := 0 to |children|
        invariant Valid()
        invariant root == RecoverRows(before, stale).root
        invariant forall j: nat | j < |children| :: children[j] ==
                    if j < i && Child(j) in stale then RecoverTask(before.children[j], maxAttempts)
                    else before.children[j]
      {
        var task := children[i];
        if Child(i) in stale { task := RecoverOne(task); }
        children := children[i := task];
      }
    }

    method Requeue(order: seq<Listed>)
      modifies this`queue
      ensures queue == old(queue) + Requeued(order)
    {
      var listed := if |order| <= RECOVERY_LIMIT then order else order[..RECOVERY_LIMIT];
      for i := 0 to |listed|
        invariant queue == old(queue) + OwnAmong(order, i)
      {
        OwnAmongGrows(order, i);
        if listed[i].Own? { queue := queue + {listed[i].task}; }
      }
      assert OwnAmong(order, |listed|) == Requeued(order);
    }

    static lemma OwnAmongGrows(order: seq<Listed>, n: nat)
      requires n < |order|
      ensures OwnAmong(order, n + 1) == OwnAmong(order, n) + if order[n].Own? then {order[n].task} else {}
    {
    }

    /* The users. */

    method StopExecution(ref: TaskRef)
      requires Valid()
      modifies this
      ensures Valid() && View() == HintedNext(old(View()), Plain(OnRow(ref, Stop)))
      ensures old(Row(Rows(), ref)).Some? && old(Row(Rows(), ref)).value.execution == RowRunning ==>
                && Row(Rows(), ref).value.execution == Row(Rows(), ref).value.session == RowCancelled
                && (old(Row(Rows(), ref)).value.status == Running ==> Row(Rows(), ref).value.status == Cancelled)
    {
      var loaded := Load(ref);
      if loaded.None? || loaded.value.execution != RowRunning { return; }
      var task := loaded.value;
      task := task.(execution := RowCancelled);
      task := task.(session := RowCancelled);
      if task.status in {Pending, Retrying, Running} { task := task.(status := Cancelled); }
      Save(ref, task);
    }

    method CancelTask(ref: TaskRef)
      requires Valid()
      modifies this
      ensures Valid() && View() == HintedNext(old(View()), Plain(OnRow(ref, Cancel)))
    {
      var loaded := Load(ref);
      if loaded.None? || loaded.value.status !in {Pending, Retrying} { return; }
      queue := queue - {ref};
      var task := loaded.value;
      task := task.(status := Cancelled);
      task := task.(session := RowCancelled);
      task := task.(execution := RowCancelled);
      Save(ref, task);
    }

    /** An approval or rejection, committed before the pass it owes the run. */
    method ReviewTask(ref: TaskRef, approved: bool, note: string)
      requires Valid()
      modifies this
      ensures Valid() && View() == HintedNext(old(View()), Plain(OnRow(ref, Review(approved, note))))
    {
      var loaded := Load(ref);
      if loaded.None? || loaded.value.status != HumanReview { return; }
      var task := loaded.value;
      task := task.(status := if approved then Succeeded else Failed);
      task := task.(session := if approved then RowSucceeded else RowFailed);
      task := task.(execution := if approved then RowSucceeded else RowFailed);
      task := task.(output := Some(if note != "" then note else if approved then "approved" else "rejected"));
      Save(ref, task);
      owed := owed + 1;
    }

    /** The pass after a review, whatever the status of the run has become meanwhile. */
    method ReconcileAfterReview()
      requires Valid()
      modifies this
      ensures Valid() && View() == HintedNext(old(View()), Plain(ReviewPass))
    {
      if owed == 0 { return; }
      ReconcileOnce();
      owed := owed - 1;
    }

    /** Cancelling the whole run is refused while a task is running. */
    method CancelWorkflowRun() returns (accepted: bool)
      requires Valid()
      modifies this
      ensures Valid() && View() == HintedNext(old(View()), Plain(CancelRun))
      ensures accepted <==> View() != old(View())
    {
      if status !in {RunPending, RunRunning, RunHumanReview} { return false; }
      if root.status == Running || exists i | 0 <= i < |children| :: children[i].status == Running { return false; }
      ghost var before := Rows();
      CancelEach();
      status := RunCancelled;
      assert children == CancelRows(before).children;
      return true;
    }

    /** The tasks of the run in order: off the queue and cancelled. */
    method CancelEach()
      requires Valid()
      modifies this`root, this`children, this`queue
      ensures Valid() && root == CancelIfUnfinished(old(root))
      ensures forall i: nat | i < |children| :: children[i] == CancelIfUnfinished(old(children)[i])
      ensures queue == old(queue) - old(QueueableRows(Rows()))
    {
      ghost var dropped := QueueableRows(Rows());
      if Queueable(root.status) { queue := queue - {Root}; }
      root := CancelIfUnfinished(root);
      for i := 0 to |children|
        invariant Valid() && root == CancelIfUnfinished(old(root))
        invariant forall j: nat | j < |children| ::
                    children[j] == if j < i then CancelIfUnfinished(old(children)[j]) else old(children)[j]
        invariant queue == old(queue) - UpTo(dropped, i)
      {
        var task := children[i];
        assert UpTo(dropped, i + 1) == UpTo(dropped, i) + if Queueable(task.status) then {Child(i)} else {};
        if Queueable(task.status) { queue := queue - {Child(i)}; }
        children := children[i := CancelIfUnfinished(task)];
      }
      assert UpTo(dropped, |children|) == dropped;
    }

    static function UpTo(refs: set<TaskRef>, n: nat): set<TaskRef> {
      set ref | ref in refs && (ref == Root || ref.index < n)
    }

    /* The orchestrator. */

    /** One reconcile pass over the stored rows. */
    method ReconcileOnce()
      requires Valid()
      modifies this
      ensures Valid() && Rows() == ReconcileRun(old(Rows()))
      ensures (exists i | 0 <= i < |old(children)| :: old(children)[i].status == Failed) ==>
                && status == RunFailed && children == old(children)
                && (old(root).status in {WaitingChild, Pending} ==> root.status == Failed && root.session == RowFailed)
      ensures queue == old(queue) + EnqueuedByPass(old(Rows()))
    {
      ghost var before := Rows();
      if exists i | 0 <= i < |children| :: children[i].status == Failed {
        FailWorkflowRun();
        return;
      }
      var missing, changed := PassOverChildren();
      ghost var passed := Rows();
      if missing {
        FailWorkflowRun();
        return;
      }
      queue := queue + changed;
      SettleRun();
      ReleasedSplit(before, Rows(), changed);
    }

    static lemma PassAtWaiting(nodes: seq<NodeSpec>, children: seq<Task>, i: nat)
      requires |children| == |nodes| && i < |nodes| && children[i].status == WaitingChild
      ensures var decision := Decide(nodes, children, i);
              Pass(nodes, children, i) ==
              if decision == Missing then PassResult(children, true)
              else Pass(nodes, children[i := Apply(nodes[i], children[i], decision)], i + 1)
    {
    }

    /** What the loop does with one waiting child. */
    method VisitWaiting(byKey: map<string, nat>, i: nat) returns (missing: bool, released: bool)
      requires Valid() && i < |children| && children[i].status == WaitingChild && byKey == ByKey(nodes)
      modifies this`children
      ensures Valid()
      ensures missing ==> children == old(children) && Pass(nodes, children, i) == PassResult(children, true)
      ensures !missing ==> Pass(nodes, old(children), i) == Pass(nodes, children, i + 1)
      ensures children == old(children)[i := children[i]]
      ensures released <==> children[i].status == Pending
    {
      ghost var decision := Decide(nodes, children, i);
      PassAtWaiting(nodes, children, i);
      var task := children[i];
      var deps := nodes[i].dependsOn;
      released := false;
      if exists d | d in deps :: d !in byKey { return true, false; }
      if exists d | d in deps :: children[byKey[d]].status in {Failed, Cancelled} {
        task := task.(status := Cancelled);
      } else if deps != [] && forall d | d in deps :: children[byKey[d]].status == Succeeded {
        if nodes[i].nodeType == HumanApproval {
          task := task.(status := HumanReview);
        } else {
          task := task.(status := Pending);
          released := true;
        }
      }
      assert task == Apply(nodes[i], children[i], decision) && decision != Missing;
      children := children[i := task];
      return false, released;
    }

    /** Among the first `n` children, the pass made this waiting one pending. */
    static predicate BecamePending(before: seq<Task>, now: seq<Task>, n: nat, ref: TaskRef) {
      ref.Child? && ref.index < n && n <= |before| && n <= |now|
      && before[ref.index].status == WaitingChild && now[ref.index].status == Pending
    }

    /** `changed` is what the pass made pending so far; the children from `i` on are as before. */
    static ghost predicate Collected(before: seq<Task>, now: seq<Task>, i: nat, changed: set<TaskRef>) {
      && |now| == |before| && i <= |now| && now[i..] == before[i..]
      && forall ref :: ref in changed <==> BecamePending(before, now, i, ref)
    }

    static lemma CollectedStep(before: seq<Task>, now: seq<Task>, next: seq<Task>, i: nat, changed: set<TaskRef>)
      requires Collected(before, now, i, changed) && i < |now| == |next| && next == now[i := next[i]]
      ensures Collected(before, next, i + 1,
                changed + if now[i].status == WaitingChild && next[i].status == Pending then {Child(i)} else {})
    {
      assert now[i] == now[i..][0] == before[i..][0] == before[i];
      assert next[i + 1..] == now[i..][1..] == before[i..][1..] == before[i + 1..];
    }

    static lemma CollectedAll(before: seq<Task>, now: seq<Task>, i: nat, changed: set<TaskRef>)
      requires Collected(before, now, i, changed)
      ensures Collected(before, now, |now|, changed)
    {
      forall j: nat | i <= j < |now|
        ensures now[j] == before[j]
      {
        assert now[j] == now[i..][j - i] == before[i..][j - i];
      }
    }

    static lemma ReleasedSplit(before: Run, after: Run, changed: set<TaskRef>)
      requires Collected(before.children, after.children, |after.children|, changed)
      ensures ReleasedRows(before, after) ==
              changed + if before.root.status == WaitingChild && after.root.status == Pending then {Root} else {}
    {
      var released := before.root.status == WaitingChild && after.root.status == Pending;
      var expected := changed + if released then {Root} else {};
      forall ref
        ensures ref in ReleasedRows(before, after) <==> ref in expected
      {
        assert ref in changed <==> BecamePending(before.children, after.children, |after.children|, ref);
      }
    }

    /** The loop over the waiting children; `changed` collects the ones to queue. */
    method PassOverChildren() returns (missing: bool, changed: set<TaskRef>)
      requires Valid()
      modifies this`children
      ensures Valid()
      ensures Pass(nodes, old(children), 0) == PassResult(children, missing)
      ensures Collected(old(children), children, |children|, changed)
    {
      ghost var before := children;
      var byKey := ByKey(nodes);
      changed, missing := {}, false;
      for i := 0 to |children|
        invariant Valid() && !missing
        invariant Pass(nodes, before, 0) == Pass(nodes, children, i)
        invariant Collected(before, children, i, changed)
      {
        ghost var now := children;
        ghost var soFar := changed;
        if children[i].status == WaitingChild {
          var released;
          missing, released := VisitWaiting(byKey, i);
          if missing {
            CollectedAll(before, children, i, changed);
            return;
          }
          if released { changed := changed + {Child(i)}; }
        }
        CollectedStep(before, now, children, i, soFar);
      }
    }

    method FailWorkflowRun()
      requires Valid()
      modifies this`root, this`status
      ensures Valid() && Rows() == FailRun(old(Rows()))
    {
      status := RunFailed;
      if root.status in {WaitingChild, Pending} {
        root := root.(status := Failed);
        root := root.(session := RowFailed);
      }
    }

    /** The end of a pass. */
    method SettleRun()
      requires Valid()
      modifies this
      ensures Valid() && Rows() == Settle(old(Rows()))
      ensures queue == old(queue) + (if old(root).status == WaitingChild && root.status == Pending then {Root} else {})
    {
      if exists i | 0 <= i < |children| :: children[i].status == HumanReview {
        status := RunHumanReview;
        return;
      }
      status := RunRunning;
      if children != [] && forall i | 0 <= i < |children| :: children[i].status == Succeeded {
        if root.status == WaitingChild {
          var results: seq<ChildResult> := [];
          for i := 0 to |children|
            invariant results == ChildResults(nodes, agents, children)[..i]
          {
            results := results + [ChildResult(nodes[i].key, agents[i], children[i].output)];
          }
          assert results == ChildResults(nodes, agents, children);
          childResults := Some(results);
          root := root.(status := Pending);
          queue := queue + {Root};
          return;
        }
      }
      if root.status == Succeeded {
        status := RunSucceeded;
        output := root.output;
      } else if root.status == Failed {
        FailWorkflowRun();
      }
    }
  }
}
