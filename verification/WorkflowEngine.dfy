/** The transition system of one run: the orchestrator, its workers and its users, one transaction a step. */
module WorkflowEngine {
  import opened Options
  import opened WorkflowDag
  import opened WorkflowRun
  import opened Reconcile

  datatype TaskRef = Root | Child(index: nat)

  datatype Action =
    | OnRow(task: TaskRef, event: TaskEvent)
    | Poll
    | ReviewPass
    | RecoverStale(stale: set<TaskRef>)
    | CancelRun

  function Row(run: Run, ref: TaskRef): Option<Task> {
    match ref
    case Root => Some(run.root)
    case Child(i) => if i < |run.children| then Some(run.children[i]) else None
  }

  function UpdateRow(run: Run, ref: TaskRef, event: TaskEvent): Run {
    match ref
    case Root => run.(root := OnTask(run.root, event, run.maxAttempts))
    case Child(i) =>
      if i < |run.children| then
        run.(children := run.children[i := OnTask(run.children[i], event, run.maxAttempts)])
      else run
  }

  /** Every stale running task is healed, retried or failed. */
  function RecoverRows(run: Run, stale: set<TaskRef>): Run {
    run.(root := if Root in stale then RecoverTask(run.root, run.maxAttempts) else run.root,
         children := seq(|run.children|, i requires 0 <= i < |run.children| =>
           if Child(i) in stale then RecoverTask(run.children[i], run.maxAttempts) else run.children[i]))
  }

  function CancelIfUnfinished(t: Task): Task {
    if t.status in {Pending, Retrying, WaitingChild, HumanReview} then CancelRow(t) else t
  }

  function CancelRows(run: Run): Run
    requires Shaped(run)
  {
    if !ActiveRun(run.status) || run.root.status == Running || SomeChild(run.children, Running) then run
    else
      run.(status := RunCancelled,
           root := CancelIfUnfinished(run.root),
           children := seq(|run.children|, i requires 0 <= i < |run.children| => CancelIfUnfinished(run.children[i])))
  }

  predicate UnderReview(run: Run, ref: TaskRef) {
    Row(run, ref).Some? && Row(run, ref).value.status == HumanReview
  }

  /** What happens to a row; a review also owes the run a pass. */
  function OnRowOf(run: Run, ref: TaskRef, event: TaskEvent): Run {
    var updated := UpdateRow(run, ref, event);
    if event.Review? && UnderReview(run, ref) then updated.(owed := run.owed + 1) else updated
  }

  /** The pass a review owes: it does not look at the status of the run. */
  function PassOwed(run: Run): (result: Run)
    requires Shaped(run)
    ensures Shaped(result)
  {
    if run.owed == 0 then run else ReconcileRun(run).(owed := run.owed - 1)
  }

  /** One transaction. A request that the platform refuses leaves the run as it is. */
  function Next(run: Run, action: Action): (next: Run)
    requires Shaped(run)
    ensures Shaped(next)
    ensures next.nodes == run.nodes && next.agents == run.agents && next.maxAttempts == run.maxAttempts
  {
    match action
    case OnRow(ref, event) => OnRowOf(run, ref, event)
    case Poll => if ActiveRun(run.status) then ReconcileRun(run) else run
    case ReviewPass => PassOwed(run)
    case RecoverStale(stale) => RecoverRows(run, stale)
    case CancelRun => CancelRows(run)
  }

  function Execute(run: Run, actions: seq<Action>): (last: Run)
    requires Shaped(run)
    ensures Shaped(last)
    ensures last.nodes == run.nodes && last.agents == run.agents && last.maxAttempts == run.maxAttempts
    decreases |actions|
  {
    if actions == [] then run else Execute(Next(run, actions[0]), actions[1..])
  }

  /* The invariant. */

  /** A child is released only after everything it depends on has succeeded. */
  ghost predicate DependencySafe(nodes: seq<NodeSpec>, children: seq<Task>)
    requires |nodes| == |children|
  {
    forall i, j | Edge(nodes, i, j) && Released(children[i]) :: children[j].status == Succeeded
  }

  /** What holds of the rows a run still has, whichever of them were deleted with their agents. */
  ghost predicate RowsInv(run: Run) {
    && Shaped(run)
    && run.maxAttempts >= 1
    && UniqueKeys(run.nodes)
    && CoherentTask(run.root, run.maxAttempts)
    && (forall i | 0 <= i < |run.children| :: CoherentTask(run.children[i], run.maxAttempts))
    && DependencySafe(run.nodes, run.children)
    && (forall i | 0 <= i < |run.children| && run.children[i].status == WaitingChild :: run.nodes[i].dependsOn != [])
    && run.root.status != HumanReview
    && (Handed(run.root) ==> AllSucceeded(run.children))
  }

  /** What holds of a run that has lost none. */
  ghost predicate Inv(run: Run) {
    RowsInv(run) && ValidDefinition(run.nodes) && ManagerInv(run) && StatusInv(run)
  }

  /** The manager runs last and works on the children's final outputs. */
  ghost predicate ManagerInv(run: Run)
    requires Shaped(run)
  {
    && (run.root.status == WaitingChild ==> run.children != [])
    && (Handed(run.root) ==> run.childResults.Some? || run.children == [])
    && (run.root.status == Failed ==> SomeChild(run.children, Failed) || AllSucceeded(run.children))
    && (run.childResults.Some? ==>
          && AllSucceeded(run.children)
          && run.childResults.value == ChildResults(run.nodes, run.agents, run.children))
  }

  ghost predicate StatusInv(run: Run) {
    && (run.status == RunSucceeded ==> run.root.status == Succeeded && run.output == run.root.output)
    && (run.status == RunFailed ==>
          SomeChild(run.children, Failed) || (run.root.status == Failed && AllSucceeded(run.children)))
    && (run.status == RunCancelled ==>
          Terminal(run.root.status) && forall i | 0 <= i < |run.children| :: Terminal(run.children[i].status))
  }

  /** Rows moved; the run row did not. */
  ghost predicate RowsMove(before: Run, after: Run) {
    && Shaped(before) && Shaped(after)
    && after == before.(root := after.root, children := after.children)
    && Moves(before.root, after.root, before.maxAttempts)
    && forall i | 0 <= i < |before.children| :: Moves(before.children[i], after.children[i], before.maxAttempts)
  }

  lemma RowsMoveKeepRows(before: Run, after: Run)
    requires RowsInv(before) && RowsMove(before, after)
    ensures RowsInv(after)
  {
    forall i, j | Edge(before.nodes, i, j) && Released(after.children[i])
      ensures after.children[j].status == Succeeded
    {
      assert Released(before.children[i]) && before.children[j].status == Succeeded;
    }
    if AllSucceeded(before.children) {
      forall i | 0 <= i < |before.children|
        ensures after.children[i].status == Succeeded
      {
        assert Moves(before.children[i], after.children[i], before.maxAttempts);
      }
    }
  }

  lemma RowsMoveKeepInv(before: Run, after: Run)
    requires Inv(before) && RowsMove(before, after)
    ensures Inv(after)
  {
    RowsMoveKeepRows(before, after);
    if AllSucceeded(before.children) {
      forall i | 0 <= i < |before.children|
        ensures after.children[i].status == Succeeded && after.children[i].output == before.children[i].output
      {
        assert Moves(before.children[i], after.children[i], before.maxAttempts);
      }
    }
    if SomeChild(before.children, Failed) {
      var i :| 0 <= i < |before.children| && before.children[i].status == Failed;
      assert after.children[i].status == Failed;
    }
  }

  lemma UpdateRowMoves(run: Run, ref: TaskRef, event: TaskEvent)
    requires RowsInv(run)
    ensures RowsMove(run, UpdateRow(run, ref, event))
  {
    forall t | t == run.root || t in run.children
      ensures Moves(t, OnTask(t, event, run.maxAttempts), run.maxAttempts)
    {
      EventMoves(t, event, run.maxAttempts);
    }
  }

  lemma RecoverRowsMove(run: Run, stale: set<TaskRef>)
    requires RowsInv(run)
    ensures RowsMove(run, RecoverRows(run, stale))
  {
    forall t | t == run.root || t in run.children
      ensures Moves(t, RecoverTask(t, run.maxAttempts), run.maxAttempts)
    {
      RecoveryMoves(t, run.maxAttempts);
    }
  }

  lemma CancelledRowFacts(t: Task, maxAttempts: nat)
    requires CoherentTask(t, maxAttempts) && t.status != Running
    ensures CoherentTask(CancelIfUnfinished(t), maxAttempts)
    ensures Terminal(CancelIfUnfinished(t).status)
    ensures Advances(t, CancelIfUnfinished(t), maxAttempts)
    ensures Terminal(t.status) ==> CancelIfUnfinished(t) == t
    ensures !Terminal(t.status) ==>
            CancelIfUnfinished(t).status == Cancelled && CancelIfUnfinished(t).worker == NoWorker
  {
  }

  lemma CancelRowsKeepRows(run: Run)
    requires RowsInv(run)
    ensures RowsInv(CancelRows(run))
  {
    var after := CancelRows(run);
    CancelledRowFactsAll(run);
    if after != run {
      forall i, j | Edge(run.nodes, i, j) && Released(after.children[i])
        ensures after.children[j].status == Succeeded
      {
        assert after.children[i] == run.children[i] && run.children[j].status == Succeeded;
      }
      if Handed(after.root) { assert after.root == run.root; }
    }
  }

  lemma CancelledRowFactsAll(run: Run)
    requires RowsInv(run)
    ensures var after := CancelRows(run);
            after != run ==>
              && CoherentTask(after.root, run.maxAttempts) && (Handed(after.root) ==> after.root == run.root)
              && after.root.status != HumanReview
              && forall i | 0 <= i < |run.children| ::
                   && CoherentTask(after.children[i], run.maxAttempts) && after.children[i].status != WaitingChild
                   && (Released(after.children[i]) ==> after.children[i] == run.children[i])
                   && (run.children[i].status == Succeeded ==> after.children[i] == run.children[i])
  {
    if CancelRows(run) != run {
      CancelledRowFacts(run.root, run.maxAttempts);
      forall i | 0 <= i < |run.children|
        ensures var t := CancelIfUnfinished(run.children[i]);
                && CoherentTask(t, run.maxAttempts) && t.status != WaitingChild
                && (Released(t) ==> t == run.children[i])
                   && (run.children[i].status == Succeeded ==> t == run.children[i])
      {
        CancelledRowFacts(run.children[i], run.maxAttempts);
      }
    }
  }

  /** However far a pass comes, it releases only children all of whose dependencies have rows that succeeded. */
  lemma {:induction false} PassKeepsDependencySafe(nodes: seq<NodeSpec>, children: seq<Task>, i: nat)
    requires |children| == |nodes| && i <= |nodes| && UniqueKeys(nodes) && DependencySafe(nodes, children)
    requires forall j | 0 <= j < |children| && children[j].status == WaitingChild :: children[j].worker == NoWorker
    ensures |Pass(nodes, children, i).children| == |children|
    ensures DependencySafe(nodes, Pass(nodes, children, i).children)
    decreases |nodes| - i
  {
    if i == |nodes| {
    } else if children[i].status != WaitingChild {
      PassKeepsDependencySafe(nodes, children, i + 1);
    } else {
      var decision := Decide(nodes, children, i);
      MissingIffUnknown(nodes, children, i);
      if decision != Missing {
        DecideMeaning(nodes, children, i);
        var next := children[i := Apply(nodes[i], children[i], decision)];
        forall k, j | Edge(nodes, k, j) && Released(next[k])
          ensures next[j].status == Succeeded
        {
          if k != i { assert Released(children[k]); }
          assert children[j].status == Succeeded;
        }
        PassKeepsDependencySafe(nodes, next, i + 1);
      }
    }
  }

  lemma ReconcileKeepsRows(run: Run)
    requires RowsInv(run)
    ensures RowsInv(ReconcileRun(run))
  {
    if !SomeChild(run.children, Failed) {
      PassShape(run.nodes, run.children, 0);
      PassKeepsDependencySafe(run.nodes, run.children, 0);
      var passed := run.(children := Pass(run.nodes, run.children, 0).children);
      PassedKeepsRows(run, passed);
      SettleKeepsRows(passed);
    }
  }

  lemma PassedKeepsRows(run: Run, passed: Run)
    requires RowsInv(run) && |passed.children| == |run.children| && passed == run.(children := passed.children)
    requires DependencySafe(run.nodes, passed.children)
    requires forall i | 0 <= i < |run.children| :: PassMoves(run.children[i], passed.children[i])
    ensures RowsInv(passed)
  {
    forall i | 0 <= i < |passed.children|
      ensures CoherentTask(passed.children[i], run.maxAttempts)
      ensures passed.children[i].status == WaitingChild ==> run.nodes[i].dependsOn != []
      ensures run.children[i].status == Succeeded ==> passed.children[i] == run.children[i]
    {
      assert PassMoves(run.children[i], passed.children[i]) && CoherentTask(run.children[i], run.maxAttempts);
    }
  }

  lemma SettleKeepsRows(run: Run)
    requires RowsInv(run)
    ensures RowsInv(Settle(run)) && RowsInv(FailRun(run))
  {
  }

  /** Every step keeps what holds of the rows, whichever were deleted before. */
  lemma StepKeepsRows(run: Run, action: Action)
    requires RowsInv(run)
    ensures RowsInv(Next(run, action))
  {
    match action
    case OnRow(ref, event) =>
      UpdateRowMoves(run, ref, event);
      RowsMoveKeepRows(run, UpdateRow(run, ref, event));
    case Poll => ReconcileKeepsRows(run);
    case ReviewPass => ReconcileKeepsRows(run);
    case RecoverStale(stale) =>
      RecoverRowsMove(run, stale);
      RowsMoveKeepRows(run, RecoverRows(run, stale));
    case CancelRun => CancelRowsKeepRows(run);
  }

  lemma CancelRowsKeepInv(run: Run)
    requires Inv(run)
    ensures Inv(CancelRows(run))
  {
    var after := CancelRows(run);
    if ActiveRun(run.status) && run.root.status != Running && !SomeChild(run.children, Running) {
      CancelledRowFacts(run.root, run.maxAttempts);
      forall i | 0 <= i < |run.children|
        ensures CoherentTask(after.children[i], run.maxAttempts) && Terminal(after.children[i].status)
        ensures Terminal(run.children[i].status) ==> after.children[i] == run.children[i]
        ensures !Terminal(run.children[i].status) ==>
                after.children[i].status == Cancelled && after.children[i].worker == NoWorker
      {
        CancelledRowFacts(run.children[i], run.maxAttempts);
      }
      CancelledRunInv(run, after);
    }
  }

  lemma CancelledRunInv(run: Run, after: Run)
    requires Inv(run) && Shaped(after)
    requires after == run.(root := after.root, children := after.children, status := RunCancelled)
    requires CoherentTask(after.root, run.maxAttempts) && Terminal(after.root.status)
    requires Terminal(run.root.status) ==> after.root == run.root
    requires !Terminal(run.root.status) ==> after.root.status == Cancelled && after.root.worker == NoWorker
    requires forall i | 0 <= i < |run.children| ::
               && CoherentTask(after.children[i], run.maxAttempts) && Terminal(after.children[i].status)
               && (Terminal(run.children[i].status) ==> after.children[i] == run.children[i])
               && (!Terminal(run.children[i].status) ==>
                   after.children[i].status == Cancelled && after.children[i].worker == NoWorker)
    ensures Inv(after)
  {
    forall i, j | Edge(run.nodes, i, j) && Released(after.children[i])
      ensures after.children[j].status == Succeeded
    {
      assert Released(run.children[i]) && run.children[j].status == Succeeded;
    }
    if AllSucceeded(run.children) { assert after.children == run.children; }
    if SomeChild(run.children, Failed) {
      var i :| 0 <= i < |run.children| && run.children[i].status == Failed;
      assert after.children[i].status == Failed;
    }
  }

  lemma PassKeepsSafety(run: Run, after: seq<Task>)
    requires Inv(run) && after == Pass(run.nodes, run.children, 0).children && |after| == |run.children|
    requires forall i | 0 <= i < |after| :: PassedChild(run.nodes, run.children, after, i)
    ensures DependencySafe(run.nodes, after)
    ensures forall i | 0 <= i < |after| ::
              CoherentTask(after[i], run.maxAttempts)
                && (after[i].status == WaitingChild ==> run.nodes[i].dependsOn != [])
    ensures forall i | 0 <= i < |after| && Terminal(run.children[i].status) :: after[i] == run.children[i]
  {
    forall i, j | Edge(run.nodes, i, j) && Released(after[i])
      ensures after[j].status == Succeeded
    {
      assert PassedChild(run.nodes, run.children, after, i) && PassedChild(run.nodes, run.children, after, j);
      if run.children[i].status == WaitingChild {
        assert Ready(run.nodes, run.children, i);
      } else {
        assert Released(run.children[i]);
      }
      assert run.children[j].status == Succeeded;
    }
    forall i | 0 <= i < |after|
      ensures CoherentTask(after[i], run.maxAttempts)
      ensures after[i].status == WaitingChild ==> run.nodes[i].dependsOn != []
      ensures Terminal(run.children[i].status) ==> after[i] == run.children[i]
    {
      assert PassedChild(run.nodes, run.children, after, i) && CoherentTask(run.children[i], run.maxAttempts);
    }
  }

  /** A pass on the children alone keeps the invariant. */
  lemma PassKeepsInv(run: Run)
    requires Inv(run)
    ensures !Pass(run.nodes, run.children, 0).missing
    ensures |Pass(run.nodes, run.children, 0).children| == |run.children|
    ensures Inv(run.(children := Pass(run.nodes, run.children, 0).children))
  {
    PassEffect(run.nodes, run.children);
    var after := Pass(run.nodes, run.children, 0).children;
    PassKeepsSafety(run, after);
    if AllSucceeded(run.children) { assert after == run.children; }
    if SomeChild(run.children, Failed) {
      var i :| 0 <= i < |run.children| && run.children[i].status == Failed;
      assert after[i].status == Failed;
    }
  }

  lemma SettleKeepsInv(run: Run)
    requires Inv(run) && !SomeChild(run.children, Failed)
    ensures Inv(Settle(run))
  {
    SettleKeepsRows(run);
    var settled := Settle(run);
    assert settled.children == run.children && settled.nodes == run.nodes;
    assert ManagerInv(settled);
  }

  lemma ReconcileKeepsInv(run: Run)
    requires Inv(run)
    ensures Inv(ReconcileRun(run))
  {
    if !SomeChild(run.children, Failed) {
      PassKeepsInv(run);
      var passed := run.(children := Pass(run.nodes, run.children, 0).children);
      PassEffect(run.nodes, run.children);
      forall i | 0 <= i < |passed.children|
        ensures passed.children[i].status != Failed
      {
        assert PassedChild(run.nodes, run.children, passed.children, i);
      }
      SettleKeepsInv(passed);
    }
  }

  lemma OwingKeepsInv(run: Run, owed: nat)
    requires Inv(run)
    ensures Inv(run.(owed := owed))
  {
  }

  lemma StepKeepsInv(run: Run, action: Action)
    requires Inv(run)
    ensures Inv(Next(run, action))
  {
    match action
    case OnRow(ref, event) =>
      UpdateRowMoves(run, ref, event);
      RowsMoveKeepInv(run, UpdateRow(run, ref, event));
      OwingKeepsInv(UpdateRow(run, ref, event), run.owed + 1);
    case Poll => ReconcileKeepsInv(run);
    case ReviewPass =>
      if run.owed > 0 {
        ReconcileKeepsInv(run);
        OwingKeepsInv(ReconcileRun(run), run.owed - 1);
      }
    case RecoverStale(stale) =>
      RecoverRowsMove(run, stale);
      RowsMoveKeepInv(run, RecoverRows(run, stale));
    case CancelRun => CancelRowsKeepInv(run);
  }

  /** Every run of the system keeps the invariant. */
  lemma {:induction false} ExecutionKeepsInv(run: Run, actions: seq<Action>)
    requires Inv(run)
    ensures Inv(Execute(run, actions))
    decreases |actions|
  {
    if actions != [] {
      StepKeepsInv(run, actions[0]);
      ExecutionKeepsInv(Next(run, actions[0]), actions[1..]);
    }
  }

  lemma {:induction false} ExecutionSplits(run: Run, first: seq<Action>, rest: seq<Action>)
    requires Shaped(run)
    ensures Execute(run, first + rest) == Execute(Execute(run, first), rest)
    decreases |first|
  {
    if first == [] {
      assert first + rest == rest;
    } else {
      assert (first + rest)[0] == first[0] && (first + rest)[1..] == first[1..] + rest;
      ExecutionSplits(Next(run, first[0]), first[1..], rest);
    }
  }
}
