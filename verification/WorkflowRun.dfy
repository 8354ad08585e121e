/** The rows of one orchestration run and what each transaction does to a single task row. */
module WorkflowRun {
  import opened Options
  import opened WorkflowDag

  datatype TaskStatus =
    WaitingChild | Pending | Running | HumanReview | Retrying | Succeeded | Failed | Cancelled

  /** The status column of a session row and of an execution row. */
  datatype RowStatus = RowQueued | RowRunning | RowSucceeded | RowFailed | RowCancelled

  /** How far a worker coroutine got with the current attempt: picked up and about to look for its agent version,
      with the Runtime, past the completion commit, or in the exception handler. `Raised(true)` is a Runtime
      cancellation. */
  datatype Worker = NoWorker | Preparing | Attempting | Completed | Raised(cancellation: bool)

  /** A task with the session and execution it owns; `output` is the session's. */
  datatype Task = Task(
    status: TaskStatus,
    attempt: nat,
    session: RowStatus,
    execution: RowStatus,
    output: Option<string>,
    worker: Worker)

  datatype RunStatus = RunPending | RunRunning | RunHumanReview | RunSucceeded | RunFailed | RunCancelled

  datatype ChildResult = ChildResult(nodeKey: string, agentId: string, output: Option<string>)

  /** `children[i]` executes `nodes[i]` on `agents[i]`; `root` is the manager task. `owed` counts the committed
      reviews whose pass is still to come. */
  datatype Run = Run(
    nodes: seq<NodeSpec>,
    agents: seq<string>,
    maxAttempts: nat,
    root: Task,
    children: seq<Task>,
    status: RunStatus,
    output: Option<string>,
    childResults: Option<seq<ChildResult>>,
    owed: nat)

  function NewTask(status: TaskStatus): Task {
    Task(status, 0, RowQueued, RowQueued, None, NoWorker)
  }

  predicate Terminal(status: TaskStatus) {
    status in {Succeeded, Failed, Cancelled}
  }

  predicate Queueable(status: TaskStatus) {
    status in {Pending, Retrying}
  }

  predicate ActiveRun(status: RunStatus) {
    status in {RunPending, RunRunning, RunHumanReview}
  }

  /* What happens to one task row. */

  datatype TaskEvent =
    | Pickup(agentActive: bool)
    | VersionChecked(available: bool)
    | Complete(result: string)
    | RuntimeFails
    | WorkspaceFails
    | UnexpectedError
    | RuntimeCancels
    | HandleError
    | Finalize
    | Stop
    | Cancel
    | Review(approved: bool, note: string)

  function TerminalFailure(t: Task): Task {
    t.(status := Failed, session := RowFailed, execution := RowFailed, worker := NoWorker)
  }

  function PickUp(t: Task, agentActive: bool): Task {
    if !Queueable(t.status) then t
    else if t.session == RowSucceeded then t.(status := Succeeded, worker := NoWorker)
    else if !agentActive then TerminalFailure(t)
    else t.(status := Running, attempt := t.attempt + 1,
              session := RowRunning, execution := RowRunning, worker := Preparing)
  }

  /** After the pickup was committed the worker looks for the agent version. When it is missing the worker writes
      a failure without reading the task again. */
  function CheckVersion(t: Task, available: bool): Task {
    if t.worker != Preparing then t
    else if available then t.(worker := Attempting)
    else TerminalFailure(t)
  }

  predicate InAttempt(t: Task) {
    t.worker in {Preparing, Attempting}
  }

  /** The Runtime returned a result; a stopped execution refuses it. */
  function CompleteExecution(t: Task, result: string): Task {
    if t.worker != Attempting then t
    else if t.execution == RowCancelled then CancelExecution(t)
    else t.(execution := RowSucceeded, session := RowSucceeded, output := Some(result), worker := Completed)
  }

  function FailExecution(t: Task): Task {
    if t.worker != Attempting then t
    else if t.execution == RowCancelled then t.(worker := Raised(false))
    else t.(execution := RowFailed, session := RowFailed, worker := Raised(false))
  }

  function CancelExecution(t: Task): Task {
    if t.worker != Attempting then t
    else t.(execution := RowCancelled, session := RowCancelled, worker := Raised(true))
  }

  /** A running task goes back to the queue while it has attempts left, and fails otherwise. */
  function RetryOrFail(t: Task, maxAttempts: nat): Task {
    if t.attempt < maxAttempts then
      t.(status := Retrying, session := RowQueued, execution := RowQueued, worker := NoWorker)
    else TerminalFailure(t)
  }

  function OnError(t: Task, maxAttempts: nat): Task {
    if !t.worker.Raised? then t
    else if t.status == Cancelled then t.(worker := NoWorker)
    else if t.worker.cancellation then t.(status := Cancelled, session := RowCancelled, worker := NoWorker)
    else RetryOrFail(t, maxAttempts)
  }

  function FinishTask(t: Task): Task {
    if t.worker != Completed then t
    else if t.status == Cancelled then t.(worker := NoWorker)
    else t.(status := Succeeded, worker := NoWorker)
  }

  function RecoverTask(t: Task, maxAttempts: nat): Task {
    if t.status != Running then t
    else if t.session == RowSucceeded then t.(status := Succeeded, worker := NoWorker)
    else RetryOrFail(t, maxAttempts)
  }

  function StopExecution(t: Task): Task {
    if t.execution != RowRunning then t
    else
      t.(execution := RowCancelled, session := RowCancelled,
         status := if t.status in {Pending, Retrying, Running} then Cancelled else t.status)
  }

  function CancelRow(t: Task): Task {
    t.(status := Cancelled, session := RowCancelled, execution := RowCancelled)
  }

  function ReviewTask(t: Task, approved: bool, note: string): Task {
    if t.status != HumanReview then t
    else
      var row := if approved then RowSucceeded else RowFailed;
      var text := if note != "" then note else if approved then "approved" else "rejected";
      t.(status := if approved then Succeeded else Failed, session := row, execution := row, output := Some(text))
  }

  function OnTask(t: Task, event: TaskEvent, maxAttempts: nat): Task {
    match event
    case Pickup(agentActive) => PickUp(t, agentActive)
    case VersionChecked(available) => CheckVersion(t, available)
    case Complete(result) => CompleteExecution(t, result)
    case RuntimeFails => FailExecution(t)
    case WorkspaceFails => if t.worker == Attempting then t.(session := RowFailed, worker := Raised(false)) else t
    case UnexpectedError => if InAttempt(t) then t.(worker := Raised(false)) else t
    case RuntimeCancels => CancelExecution(t)
    case HandleError => OnError(t, maxAttempts)
    case Finalize => FinishTask(t)
    case Stop => StopExecution(t)
    case Cancel => if Queueable(t.status) then CancelRow(t) else t
    case Review(approved, note) => ReviewTask(t, approved, note)
  }

  /* The invariant of one task row. */

  predicate Untouched(t: Task) {
    t.session == RowQueued && t.execution == RowQueued && t.worker == NoWorker
  }

  /** A session has succeeded only under a running task whose worker got past the completion commit,
      or under a succeeded task; attempts stay within their bounds. */
  predicate CoherentTask(t: Task, maxAttempts: nat) {
    && t.attempt <= maxAttempts
    && match t.status
       case WaitingChild => t.attempt == 0 && Untouched(t)
       case Pending => t.attempt == 0 && Untouched(t)
       case HumanReview => t.attempt == 0 && Untouched(t)
       case Retrying => 1 <= t.attempt < maxAttempts && Untouched(t)
       case Running =>
         && 1 <= t.attempt
         && (match t.worker
             case NoWorker => false
             case Preparing => t.session == RowRunning && t.execution == RowRunning
             case Attempting => t.session == RowRunning && t.execution == RowRunning
             case Completed => t.session == RowSucceeded && t.execution == RowSucceeded && t.output.Some?
             case Raised(cancellation) =>
               && t.session in {RowRunning, RowFailed, RowCancelled}
               && t.execution in {RowRunning, RowFailed, RowCancelled}
               && (cancellation <==> t.execution == RowCancelled))
       case Succeeded => t.session == RowSucceeded && t.execution == RowSucceeded && t.worker == NoWorker
         && t.output.Some?
       case Failed => t.session == RowFailed && t.execution !in {RowRunning, RowSucceeded} && t.worker == NoWorker
       case Cancelled =>
         && t.session != RowSucceeded
         && t.execution !in {RowRunning, RowSucceeded}
         && t.worker != Completed
         && (InAttempt(t) ==> t.execution == RowCancelled)
  }

  /** How much work a task can still cause; every effective event lowers it. */
  function Remaining(t: Task, maxAttempts: nat): nat {
    var left := if t.attempt < maxAttempts then maxAttempts - t.attempt else 0;
    match t.status
    case WaitingChild => 4 * maxAttempts + 2
    case Pending => 4 * maxAttempts + 1
    case HumanReview => 4 * maxAttempts + 1
    case Retrying => 4 * left + 1
    case Running => 4 * left + if t.worker == Preparing then 4 else if t.worker == Attempting then 3 else 2
    case Succeeded => 0
    case Failed => 0
    case Cancelled =>
      if t.worker == Preparing then 3 else if t.worker == Attempting then 2 else if t.worker.Raised? then 1 else 0
  }

  /** A final status that nothing can overwrite any more. A stopped task whose worker is still about to look for
      the agent version is not there yet. */
  predicate Settled(t: Task) {
    Terminal(t.status) && !(t.status == Cancelled && t.worker == Preparing)
  }

  /** One task never regresses: a settled status and its output stay, a final status stays final, and so do a
      succeeded session, the attempt it came from and its output. */
  predicate Advances(before: Task, after: Task, maxAttempts: nat) {
    && (Settled(before) ==> Settled(after) && after.status == before.status && after.output == before.output)
    && (before.status == Cancelled ==> after.status in {Cancelled, Failed} && after.output == before.output)
    && (before.session == RowSucceeded ==>
          && after.session == RowSucceeded && after.output == before.output
          && after.attempt == before.attempt && after.status in {Running, Succeeded})
    && before.attempt <= after.attempt
    && (after == before || Remaining(after, maxAttempts) < Remaining(before, maxAttempts))
  }

  lemma EventKeepsCoherence(t: Task, event: TaskEvent, maxAttempts: nat)
    requires CoherentTask(t, maxAttempts) && maxAttempts >= 1
    ensures CoherentTask(OnTask(t, event, maxAttempts), maxAttempts)
    ensures Advances(t, OnTask(t, event, maxAttempts), maxAttempts)
  {
  }

  lemma RecoveryKeepsCoherence(t: Task, maxAttempts: nat)
    requires CoherentTask(t, maxAttempts) && maxAttempts >= 1
    ensures CoherentTask(RecoverTask(t, maxAttempts), maxAttempts)
    ensures Advances(t, RecoverTask(t, maxAttempts), maxAttempts)
  {
  }

  /** The one event that takes a final status back: the version is found missing after the task was stopped. */
  predicate Overwrites(t: Task, event: TaskEvent) {
    event == VersionChecked(false) && t.status == Cancelled && t.worker == Preparing
  }

  /** An event changes the status of a finished task if and only if it finds the version of a task missing that
      was stopped before its worker looked for it. */
  lemma FinalStatusChangesIff(t: Task, event: TaskEvent, maxAttempts: nat)
    requires CoherentTask(t, maxAttempts) && maxAttempts >= 1 && Terminal(t.status)
    ensures OnTask(t, event, maxAttempts).status != t.status <==> Overwrites(t, event)
  {
  }

  /** A task that could only have got where it is once its dependencies had succeeded. */
  predicate Released(t: Task) {
    t.status !in {WaitingChild, Cancelled} || t.worker != NoWorker
  }

  /** A task that a worker may be handed, holds or has finished. */
  predicate Handed(t: Task) {
    t.status in {Pending, Running, Retrying, Succeeded} || t.worker != NoWorker
  }

  /** What any event other than an orchestrator pass may do to a task. */
  predicate Moves(before: Task, after: Task, maxAttempts: nat) {
    && CoherentTask(after, maxAttempts)
    && Advances(before, after, maxAttempts)
    && (before.status == WaitingChild ==> after == before)
    && (after.status == WaitingChild ==> before.status == WaitingChild)
    && (Released(after) ==> Released(before))
    && (after.status == HumanReview ==> after == before)
    && (Handed(after) && before.status != HumanReview ==> Handed(before))
  }

  lemma RecoveryMoves(t: Task, maxAttempts: nat)
    requires CoherentTask(t, maxAttempts) && maxAttempts >= 1
    ensures Moves(t, RecoverTask(t, maxAttempts), maxAttempts)
  {
    RecoveryKeepsCoherence(t, maxAttempts);
  }

  lemma EventMoves(t: Task, event: TaskEvent, maxAttempts: nat)
    requires CoherentTask(t, maxAttempts) && maxAttempts >= 1
    ensures Moves(t, OnTask(t, event, maxAttempts), maxAttempts)
  {
    EventKeepsCoherence(t, event, maxAttempts);
  }
}
