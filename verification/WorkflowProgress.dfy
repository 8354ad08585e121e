/** Progress of a run: what one step may change, and why only finitely many steps change anything. */
module WorkflowProgress {
  import opened Options
  import opened WorkflowDag
  import opened WorkflowRun
  import opened Reconcile
  import opened WorkflowEngine

  function SumRemaining(tasks: seq<Task>, maxAttempts: nat): nat {
    if tasks == [] then 0 else Remaining(tasks[0], maxAttempts) + SumRemaining(tasks[1..], maxAttempts)
  }

  lemma {:induction false} SumRemainingMonotone(before: seq<Task>, after: seq<Task>, maxAttempts: nat)
    requires |before| == |after|
    requires forall i | 0 <= i < |before| ::
               after[i] == before[i] || Remaining(after[i], maxAttempts) < Remaining(before[i], maxAttempts)
    ensures after == before || SumRemaining(after, maxAttempts) < SumRemaining(before, maxAttempts)
    decreases |before|
  {
    if before != [] {
      SumRemainingMonotone(before[1..], after[1..], maxAttempts);
      assert before == [before[0]] + before[1..] && after == [after[0]] + after[1..];
    }
  }

  lemma {:induction false} SumRemainingBound(tasks: seq<Task>, maxAttempts: nat, bound: nat)
    requires forall i | 0 <= i < |tasks| :: Remaining(tasks[i], maxAttempts) <= bound
    ensures SumRemaining(tasks, maxAttempts) <= |tasks| * bound
    decreases |tasks|
  {
    if tasks != [] {
      SumRemainingBound(tasks[1..], maxAttempts, bound);
      assert |tasks| * bound == bound + (|tasks| - 1) * bound;
    }
  }

  function WorkLeft(run: Run): nat {
    Remaining(run.root, run.maxAttempts) + SumRemaining(run.children, run.maxAttempts)
  }

  /** 0 for a finished run, 1 when the run status agrees with the children, 2 when a pass would correct it. */
  function StatusLag(run: Run): nat {
    if !ActiveRun(run.status) then 0
    else if run.status == (if SomeChild(run.children, HumanReview) then RunHumanReview else RunRunning) then 1
    else 2
  }

  /** Work left weighs most, then the passes that reviews still owe, then the lag of the run row. */
  function Measure(run: Run): nat {
    6 * WorkLeft(run) + 3 * run.owed + StatusLag(run)
  }

  /** Rows only advance. */
  ghost predicate RowsAdvance(before: Run, after: Run) {
    && Shaped(before) && Shaped(after)
    && after.nodes == before.nodes && after.agents == before.agents && after.maxAttempts == before.maxAttempts
    && Advances(before.root, after.root, before.maxAttempts)
    && forall i | 0 <= i < |before.children| :: Advances(before.children[i], after.children[i], before.maxAttempts)
  }

  /** A finished run keeps its outcome. */
  predicate OutcomeKept(before: Run, after: Run) {
    !ActiveRun(before.status) ==> after.status == before.status && after.output == before.output
  }

  /** The manager's material stays fixed once it is handed over. */
  predicate MaterialKept(before: Run, after: Run) {
    before.childResults.Some? ==> after.childResults == before.childResults
  }

  lemma RowsAdvanceWork(before: Run, after: Run)
    requires RowsAdvance(before, after)
    ensures (after.root == before.root && after.children == before.children) || WorkLeft(after) < WorkLeft(before)
  {
    SumRemainingMonotone(before.children, after.children, before.maxAttempts);
  }

  lemma AdvancesTransitive(a: Task, b: Task, c: Task, maxAttempts: nat)
    requires Advances(a, b, maxAttempts) && Advances(b, c, maxAttempts)
    ensures Advances(a, c, maxAttempts)
  {
  }

  lemma RowsAdvanceTransitive(a: Run, b: Run, c: Run)
    requires RowsAdvance(a, b) && RowsAdvance(b, c)
    ensures RowsAdvance(a, c)
  {
    AdvancesTransitive(a.root, b.root, c.root, a.maxAttempts);
    forall i | 0 <= i < |a.children|
      ensures Advances(a.children[i], c.children[i], a.maxAttempts)
    {
      AdvancesTransitive(a.children[i], b.children[i], c.children[i], a.maxAttempts);
    }
  }

  lemma PassAdvances(run: Run)
    requires RowsInv(run)
    ensures |Pass(run.nodes, run.children, 0).children| == |run.children|
    ensures RowsAdvance(run, run.(children := Pass(run.nodes, run.children, 0).children))
  {
    PassShape(run.nodes, run.children, 0);
    var after := Pass(run.nodes, run.children, 0).children;
    forall i | 0 <= i < |after|
      ensures Advances(run.children[i], after[i], run.maxAttempts)
    {
      assert PassMoves(run.children[i], after[i]) && CoherentTask(run.children[i], run.maxAttempts);
    }
  }

  lemma PassIdleOnSucceeded(run: Run)
    requires Inv(run) && AllSucceeded(run.children)
    ensures Pass(run.nodes, run.children, 0) == PassResult(run.children, false)
  {
    PassEffect(run.nodes, run.children);
    var after := Pass(run.nodes, run.children, 0).children;
    forall i | 0 <= i < |after|
      ensures after[i] == run.children[i]
    {
      assert PassedChild(run.nodes, run.children, after, i);
    }
  }

  lemma SettleAdvances(run: Run)
    requires RowsInv(run)
    ensures RowsAdvance(run, Settle(run)) && RowsAdvance(run, FailRun(run))
  {
  }

  lemma ReconcileAdvances(run: Run)
    requires RowsInv(run)
    ensures RowsAdvance(run, ReconcileRun(run))
  {
    if !SomeChild(run.children, Failed) {
      PassAdvances(run);
      PassShape(run.nodes, run.children, 0);
      PassKeepsDependencySafe(run.nodes, run.children, 0);
      var passed := run.(children := Pass(run.nodes, run.children, 0).children);
      PassedKeepsRows(run, passed);
      SettleAdvances(passed);
      RowsAdvanceTransitive(run, passed, ReconcileRun(run));
    }
  }

  lemma ReconcileKeepsMaterial(run: Run)
    requires Inv(run)
    ensures MaterialKept(run, ReconcileRun(run))
  {
    if run.childResults.Some? { PassIdleOnSucceeded(run); }
  }

  /** A pass keeps the outcome of a finished run if and only if the run was not cancelled. */
  lemma PassKeepsOutcomeIff(run: Run)
    requires Inv(run)
    ensures OutcomeKept(run, ReconcileRun(run)) <==> run.status != RunCancelled
  {
    if run.status == RunSucceeded || (run.status == RunFailed && AllSucceeded(run.children)) {
      PassIdleOnSucceeded(run);
    }
    if !SomeChild(run.children, Failed) {
      PassKeepsInv(run);
    }
  }

  lemma UpdateAdvances(run: Run, after: Run)
    requires RowsInv(run) && RowsMove(run, after)
    ensures RowsAdvance(run, after)
  {
  }

  lemma CancelRowsAdvance(run: Run)
    requires RowsInv(run)
    ensures RowsAdvance(run, CancelRows(run))
  {
    if ActiveRun(run.status) && run.root.status != Running && !SomeChild(run.children, Running) {
      CancelledRowFacts(run.root, run.maxAttempts);
      forall i | 0 <= i < |run.children|
        ensures Advances(run.children[i], CancelIfUnfinished(run.children[i]), run.maxAttempts)
      {
        CancelledRowFacts(run.children[i], run.maxAttempts);
      }
    }
  }

  /** A task waits for review only in a run that was neither cancelled nor has succeeded, so a pass that comes
      directly after the review keeps every outcome. */
  lemma ReviewIsSafe(run: Run, ref: TaskRef, approved: bool, note: string)
    requires Inv(run) && UnderReview(run, ref)
    ensures var reviewed := OnRowOf(run, ref, Review(approved, note));
            && Inv(reviewed) && (ActiveRun(reviewed.status) || reviewed.status == RunFailed)
            && OutcomeKept(run, PassOwed(reviewed))
  {
    var event := Review(approved, note);
    var updated := UpdateRow(run, ref, event);
    var i := ref.index;
    assert run.children[i].status == HumanReview;
    UpdateRowMoves(run, ref, event);
    RowsMoveKeepInv(run, updated);
    OwingKeepsInv(updated, run.owed + 1);
    PassKeepsOutcomeIff(updated.(owed := run.owed + 1));
  }

  /** The step that takes the outcome of a finished run back: the pass owed to a review arrives after the run
      was cancelled. */
  predicate Revives(run: Run, action: Action) {
    action == ReviewPass && run.status == RunCancelled && run.owed > 0
  }

  /** One step: rows advance. */
  lemma StepAdvances(run: Run, action: Action)
    requires RowsInv(run)
    ensures RowsAdvance(run, Next(run, action))
  {
    match action
    case OnRow(ref, event) =>
      UpdateRowMoves(run, ref, event);
      UpdateAdvances(run, UpdateRow(run, ref, event));
    case Poll => ReconcileAdvances(run);
    case ReviewPass => ReconcileAdvances(run);
    case RecoverStale(stale) =>
      RecoverRowsMove(run, stale);
      UpdateAdvances(run, RecoverRows(run, stale));
    case CancelRun => CancelRowsAdvance(run);
  }

  lemma StepKeepsMaterial(run: Run, action: Action)
    requires Inv(run)
    ensures MaterialKept(run, Next(run, action))
  {
    ReconcileKeepsMaterial(run);
  }

  /** A step keeps the outcome of a finished run if and only if it is not such a late pass. */
  lemma StepKeepsOutcomeIff(run: Run, action: Action)
    requires Inv(run)
    ensures OutcomeKept(run, Next(run, action)) <==> !Revives(run, action)
  {
    PassKeepsOutcomeIff(run);
  }

  /** When a pass changes no row of an active run, it only brings the run row up to date. */
  lemma IdleReconcile(run: Run)
    requires RowsInv(run) && ActiveRun(run.status)
    requires ReconcileRun(run).root == run.root && ReconcileRun(run).children == run.children
    ensures ReconcileRun(run) == run || StatusLag(ReconcileRun(run)) < StatusLag(run)
  {
    if !SomeChild(run.children, Failed) {
      PassShape(run.nodes, run.children, 0);
      var pass := Pass(run.nodes, run.children, 0);
      assert ReconcileRun(run).children == pass.children;
      assert run.(children := pass.children) == run;
    }
  }

  lemma ReconcileWork(run: Run)
    requires RowsInv(run)
    ensures WorkLeft(ReconcileRun(run)) <= WorkLeft(run)
  {
    ReconcileAdvances(run);
    RowsAdvanceWork(run, ReconcileRun(run));
  }

  /** A step changes nothing at all or lowers the measure. */
  lemma StepLowersMeasure(run: Run, action: Action)
    requires RowsInv(run)
    ensures Next(run, action) == run || Measure(Next(run, action)) < Measure(run)
  {
    match action
    case OnRow(ref, event) => EventLowersMeasure(run, ref, event);
    case Poll => if ActiveRun(run.status) { PollLowersMeasure(run); }
    case ReviewPass => ReconcileWork(run);
    case RecoverStale(stale) =>
      StepAdvances(run, action);
      RowsAdvanceWork(run, RecoverRows(run, stale));
    case CancelRun =>
      StepAdvances(run, action);
      RowsAdvanceWork(run, CancelRows(run));
  }

  lemma PollLowersMeasure(run: Run)
    requires RowsInv(run) && ActiveRun(run.status)
    ensures ReconcileRun(run) == run || Measure(ReconcileRun(run)) < Measure(run)
  {
    ReconcileAdvances(run);
    RowsAdvanceWork(run, ReconcileRun(run));
    if WorkLeft(ReconcileRun(run)) == WorkLeft(run) { IdleReconcile(run); }
  }

  /** A review lowers the work by more than the pass it owes weighs. */
  lemma EventLowersMeasure(run: Run, ref: TaskRef, event: TaskEvent)
    requires RowsInv(run)
    ensures OnRowOf(run, ref, event) == run || Measure(OnRowOf(run, ref, event)) < Measure(run)
  {
    var updated := UpdateRow(run, ref, event);
    UpdateRowMoves(run, ref, event);
    UpdateAdvances(run, updated);
    RowsAdvanceWork(run, updated);
    if event.Review? && UnderReview(run, ref) {
      ReviewMovesRow(run, ref, event);
    }
  }

  lemma ReviewMovesRow(run: Run, ref: TaskRef, event: TaskEvent)
    requires RowsInv(run) && event.Review? && UnderReview(run, ref)
    ensures UpdateRow(run, ref, event).children != run.children
  {
    var i := ref.index;
    assert UpdateRow(run, ref, event).children[i].status != run.children[i].status;
  }

  /** The number of steps that change anything. */
  function EffectiveSteps(run: Run, actions: seq<Action>): nat
    requires Shaped(run)
    decreases |actions|
  {
    if actions == [] then 0
    else
      var next := Next(run, actions[0]);
      (if next == run then 0 else 1) + EffectiveSteps(next, actions[1..])
  }

  /** Whatever the interleaving, at most `Measure(run)` steps ever have an effect. */
  lemma {:induction false} FinitelyManyEffects(run: Run, actions: seq<Action>)
    requires Inv(run)
    ensures EffectiveSteps(run, actions) + Measure(Execute(run, actions)) <= Measure(run)
    decreases |actions|
  {
    if actions != [] {
      StepKeepsInv(run, actions[0]);
      StepLowersMeasure(run, actions[0]);
      FinitelyManyEffects(Next(run, actions[0]), actions[1..]);
    }
  }

  lemma WorkBound(run: Run)
    requires RowsInv(run)
    ensures WorkLeft(run) <= (|run.children| + 1) * (4 * run.maxAttempts + 2)
  {
    var bound := 4 * run.maxAttempts + 2;
    SumRemainingBound(run.children, run.maxAttempts, bound);
    assert (|run.children| + 1) * bound == |run.children| * bound + bound;
  }

  /** The bound in the size of the workflow and the configured attempts. */
  lemma EffectsBound(run: Run, actions: seq<Action>)
    requires Inv(run)
    ensures EffectiveSteps(run, actions) <= 6 * ((|run.children| + 1) * (4 * run.maxAttempts + 2)) + 3 * run.owed + 2
  {
    FinitelyManyEffects(run, actions);
    WorkBound(run);
  }

  /** Over whole runs: rows advance and the manager's material stays. */
  lemma {:induction false} ExecutionAdvances(run: Run, actions: seq<Action>)
    requires Inv(run)
    ensures RowsAdvance(run, Execute(run, actions)) && MaterialKept(run, Execute(run, actions))
    decreases |actions|
  {
    if actions != [] {
      var next := Next(run, actions[0]);
      StepKeepsInv(run, actions[0]);
      StepAdvances(run, actions[0]);
      StepKeepsMaterial(run, actions[0]);
      ExecutionAdvances(next, actions[1..]);
      RowsAdvanceTransitive(run, next, Execute(next, actions[1..]));
    }
  }
}
