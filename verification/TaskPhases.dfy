/** The life of one task as a small automaton. A row has six columns that twelve kinds of transactions write; here each
    coherent row has one phase, and every transaction takes the row from phase to phase as the automaton says. */
module TaskPhases {
  import opened Options
  import opened WorkflowDag
  import opened WorkflowRun

  /** `Broken` waits for the exception handler; `open` says that its execution still counts as running, so that a
      user may stop it. `Stopped` keeps what the worker of a cancelled task is up to. */
  datatype Phase =
    | Waiting | Queued | Parked
    | Starting | Working | Saved | Broken(cancelled: bool, open: bool)
    | Won | Lost | Stopped(worker: Worker)

  function PhaseOf(t: Task): Phase {
    match t.status
    case WaitingChild => Waiting
    case Pending => Queued
    case Retrying => Queued
    case HumanReview => Parked
    case Running =>
      (match t.worker
       case Completed => Saved
       case Attempting => Working
       case Raised(cancellation) => Broken(cancellation, t.execution == RowRunning)
       case Preparing => Starting
       case NoWorker => Starting)
    case Succeeded => Won
    case Failed => Lost
    case Cancelled => Stopped(t.worker)
  }

  /** The next phase of a broken or abandoned attempt; `last` says that it was the last one allowed. */
  function GivenUp(last: bool): Phase {
    if last then Lost else Queued
  }

  /** The automaton. What is not listed changes nothing. */
  function PhaseAfter(phase: Phase, event: TaskEvent, last: bool): Phase {
    match phase
    case Queued =>
      if event.Pickup? then (if event.agentActive then Starting else Lost)
      else if event.Cancel? then Stopped(NoWorker)
      else phase
    case Parked => if event.Review? then (if event.approved then Won else Lost) else phase
    case Starting => AfterStart(event)
    case Working => AfterWork(event)
    case Saved => if event.Finalize? then Won else phase
    case Broken(cancelled, open) =>
      if event.HandleError? then (if cancelled then Stopped(NoWorker) else GivenUp(last))
      else if event.Stop? && open then Stopped(Raised(cancelled))
      else phase
    case Stopped(worker) => AfterStop(worker, event)
    case Waiting => phase
    case Won => phase
    case Lost => phase
  }

  function AfterStart(event: TaskEvent): Phase {
    match event
    case VersionChecked(available) => if available then Working else Lost
    case UnexpectedError => Broken(false, true)
    case Stop => Stopped(Preparing)
    case _ => Starting
  }

  function AfterWork(event: TaskEvent): Phase {
    match event
    case Complete(_) => Saved
    case RuntimeFails => Broken(false, false)
    case WorkspaceFails => Broken(false, true)
    case UnexpectedError => Broken(false, true)
    case RuntimeCancels => Broken(true, false)
    case Stop => Stopped(Attempting)
    case _ => Working
  }

  /** A stopped task stays stopped while its worker finds out, except when the worker finds no version. */
  function AfterStop(worker: Worker, event: TaskEvent): Phase {
    match worker
    case Preparing =>
      (match event
       case VersionChecked(available) => if available then Stopped(Attempting) else Lost
       case UnexpectedError => Stopped(Raised(false))
       case _ => Stopped(worker))
    case Attempting =>
      (match event
       case UnexpectedError => Stopped(Raised(false))
       case RuntimeFails => Stopped(Raised(false))
       case WorkspaceFails => Stopped(Raised(false))
       case RuntimeCancels => Stopped(Raised(true))
       case Complete(_) => Stopped(Raised(true))
       case _ => Stopped(worker))
    case Raised(_) => if event.HandleError? then Stopped(NoWorker) else Stopped(worker)
    case Completed => Stopped(worker)
    case NoWorker => Stopped(worker)
  }

  /** Recovery of a stale row: a saved result is kept, any other attempt is given up. */
  function PhaseRecovered(phase: Phase, last: bool): Phase {
    match phase
    case Starting => GivenUp(last)
    case Working => GivenUp(last)
    case Broken(_, _) => GivenUp(last)
    case Saved => Won
    case _ => phase
  }

  lemma RunningFollows(t: Task, event: TaskEvent, maxAttempts: nat)
    requires CoherentTask(t, maxAttempts) && t.status == Running
    ensures PhaseOf(OnTask(t, event, maxAttempts)) == PhaseAfter(PhaseOf(t), event, t.attempt == maxAttempts)
  {
  }

  lemma StoppedFollows(t: Task, event: TaskEvent, maxAttempts: nat)
    requires CoherentTask(t, maxAttempts) && t.status == Cancelled
    ensures PhaseOf(OnTask(t, event, maxAttempts)) == PhaseAfter(PhaseOf(t), event, t.attempt == maxAttempts)
  {
  }

  /** The rows follow the automaton. */
  lemma RowsFollowAutomaton(t: Task, event: TaskEvent, maxAttempts: nat)
    requires CoherentTask(t, maxAttempts)
    ensures PhaseOf(OnTask(t, event, maxAttempts)) == PhaseAfter(PhaseOf(t), event, t.attempt == maxAttempts)
  {
    if t.status == Running {
      RunningFollows(t, event, maxAttempts);
    } else if t.status == Cancelled {
      StoppedFollows(t, event, maxAttempts);
    }
  }

  lemma RecoveryFollowsAutomaton(t: Task, maxAttempts: nat)
    requires CoherentTask(t, maxAttempts)
    ensures PhaseOf(RecoverTask(t, maxAttempts)) == PhaseRecovered(PhaseOf(t), t.attempt == maxAttempts)
  {
  }

  /* What the transactions write beside the phase. */

  /** What a review stores when the approver leaves no note. */
  function ReviewText(approved: bool, note: string): string {
    if |note| > 0 then note else if approved then "approved" else "rejected"
  }

  /** The output after a transaction: the result an attempt at work returned, what an approver left, or what it was. */
  function OutputAfter(t: Task, event: TaskEvent): Option<string> {
    if PhaseOf(t) == Working && event.Complete? then Some(event.result)
    else if PhaseOf(t) == Parked && event.Review? then Some(ReviewText(event.approved, event.note))
    else t.output
  }

  /** Only starting an attempt is counted, and only the Runtime's result and a review are stored as output. */
  lemma AttemptsAndOutput(t: Task, event: TaskEvent, maxAttempts: nat)
    requires CoherentTask(t, maxAttempts)
    ensures var after := OnTask(t, event, maxAttempts);
            && after.attempt == t.attempt + (if PhaseOf(t) == Queued && event == Pickup(true) then 1 else 0)
            && after.output == OutputAfter(t, event)
    ensures RecoverTask(t, maxAttempts).attempt == t.attempt && RecoverTask(t, maxAttempts).output == t.output
  {
  }

  /** A transaction that ends a task says so in its session and its execution as well. */
  lemma EndingsAreRecorded(t: Task, event: TaskEvent, maxAttempts: nat)
    requires CoherentTask(t, maxAttempts)
    ensures var after := OnTask(t, event, maxAttempts);
            after.status != t.status ==>
              && (after.status == Succeeded ==> after.session == after.execution == RowSucceeded)
              && (after.status == Failed ==> after.session == after.execution == RowFailed)
              && (after.status == Cancelled ==> after.session == after.execution == RowCancelled)
              && (Terminal(after.status) && t.status != Running ==> after.worker == NoWorker)
    ensures RecoverTask(t, maxAttempts).status == Failed && t.status == Running ==>
              RecoverTask(t, maxAttempts) == t.(status := Failed, session := RowFailed, execution := RowFailed,
                                                worker := NoWorker)
  {
  }

  /** An attempt that breaks in the hands of its worker leaves its trace at once. */
  lemma BreakingIsRecorded(t: Task, event: TaskEvent, maxAttempts: nat)
    requires CoherentTask(t, maxAttempts) && t.status == Running && PhaseOf(OnTask(t, event, maxAttempts)).Broken?
    requires !PhaseOf(t).Broken?
    ensures var after := OnTask(t, event, maxAttempts);
            && after.worker == Raised(event == RuntimeCancels)
            && after.session == (if event == UnexpectedError then RowRunning
                                 else if event == RuntimeCancels then RowCancelled else RowFailed)
            && after.execution == (if event == RuntimeFails then RowFailed
                                   else if event == RuntimeCancels then RowCancelled else RowRunning)
  {
  }

  /** A row that still waits for its worker although its session has succeeded is healed, whoever takes it and
      whether its agent is active or not. */
  lemma PickupHeals(t: Task, agentActive: bool, maxAttempts: nat)
    requires Queueable(t.status) && t.session == RowSucceeded
    ensures OnTask(t, Pickup(agentActive), maxAttempts) == t.(status := Succeeded, worker := NoWorker)
  {
  }

  /* Whole attempts. */

  /** What may go wrong in an attempt: the worker raises, or it dies and recovery finds the row. */
  datatype Mishap = Raises(event: TaskEvent) | Dies

  predicate Possible(mishap: Mishap) {
    mishap.Raises? ==> mishap.event in {RuntimeFails, WorkspaceFails, UnexpectedError}
  }

  /** The row with its worker at work. */
  function AtWork(t: Task, maxAttempts: nat): Task {
    OnTask(OnTask(t, Pickup(true), maxAttempts), VersionChecked(true), maxAttempts)
  }

  /** One attempt that goes wrong. */
  function Tried(t: Task, mishap: Mishap, maxAttempts: nat): Task {
    var working := AtWork(t, maxAttempts);
    match mishap
    case Raises(event) => OnTask(OnTask(working, event, maxAttempts), HandleError, maxAttempts)
    case Dies => RecoverTask(working, maxAttempts)
  }

  function TriedAll(t: Task, mishaps: seq<Mishap>, maxAttempts: nat): Task
    decreases |mishaps|
  {
    if mishaps == [] then t else TriedAll(Tried(t, mishaps[0], maxAttempts), mishaps[1..], maxAttempts)
  }

  /** A queueable row is at work after two transactions, with its attempt counted. */
  lemma WorkBegins(t: Task, maxAttempts: nat)
    requires CoherentTask(t, maxAttempts) && Queueable(t.status) && t.attempt < maxAttempts
    ensures var working := AtWork(t, maxAttempts);
            && CoherentTask(working, maxAttempts) && PhaseOf(working) == Working
            && working.attempt == t.attempt + 1 && working.output == t.output
  {
    var started := OnTask(t, Pickup(true), maxAttempts);
    EventKeepsCoherence(t, Pickup(true), maxAttempts);
    RowsFollowAutomaton(t, Pickup(true), maxAttempts);
    AttemptsAndOutput(t, Pickup(true), maxAttempts);
    EventKeepsCoherence(started, VersionChecked(true), maxAttempts);
    RowsFollowAutomaton(started, VersionChecked(true), maxAttempts);
    AttemptsAndOutput(started, VersionChecked(true), maxAttempts);
  }

  /** One failed attempt: the task is queued again if and only if it was not the last. */
  lemma OneMishap(t: Task, mishap: Mishap, maxAttempts: nat)
    requires CoherentTask(t, maxAttempts) && Queueable(t.status) && t.attempt < maxAttempts && Possible(mishap)
    ensures var after := Tried(t, mishap, maxAttempts);
            && CoherentTask(after, maxAttempts)
            && after.attempt == t.attempt + 1 && after.output == t.output
            && after.status == (if t.attempt + 1 < maxAttempts then Retrying else Failed)
  {
    var working := AtWork(t, maxAttempts);
    WorkBegins(t, maxAttempts);
    match mishap
    case Dies =>
      RecoveryKeepsCoherence(working, maxAttempts);
      RecoveryFollowsAutomaton(working, maxAttempts);
      AttemptsAndOutput(working, HandleError, maxAttempts);
    case Raises(event) =>
      var broken := OnTask(working, event, maxAttempts);
      EventKeepsCoherence(working, event, maxAttempts);
      RowsFollowAutomaton(working, event, maxAttempts);
      AttemptsAndOutput(working, event, maxAttempts);
      EventKeepsCoherence(broken, HandleError, maxAttempts);
      RowsFollowAutomaton(broken, HandleError, maxAttempts);
      AttemptsAndOutput(broken, HandleError, maxAttempts);
  }

  /** Every attempt that the configuration allows is made: after any mishaps the task is back in the queue as long as
      an attempt is left, and failed after the last. */
  lemma {:induction false} EveryAttemptIsMade(t: Task, mishaps: seq<Mishap>, maxAttempts: nat)
    requires CoherentTask(t, maxAttempts) && Queueable(t.status) && t.attempt < maxAttempts
    requires |mishaps| <= maxAttempts - t.attempt && forall m | m in mishaps :: Possible(m)
    ensures var after := TriedAll(t, mishaps, maxAttempts);
            && CoherentTask(after, maxAttempts)
            && after.attempt == t.attempt + |mishaps| && after.output == t.output
            && (Queueable(after.status) <==> t.attempt + |mishaps| < maxAttempts)
            && (after.status == Failed <==> t.attempt + |mishaps| == maxAttempts)
    decreases |mishaps|
  {
    if mishaps == [] {
    } else {
      assert mishaps[0] in mishaps;
      OneMishap(t, mishaps[0], maxAttempts);
      var next := Tried(t, mishaps[0], maxAttempts);
      if next.attempt < maxAttempts {
        EveryAttemptIsMade(next, mishaps[1..], maxAttempts);
      } else {
        assert mishaps[1..] == [];
      }
    }
  }

  /** The Runtime's result is what the succeeded task says. */
  lemma ResultIsStored(t: Task, result: string, maxAttempts: nat)
    requires CoherentTask(t, maxAttempts) && PhaseOf(t) == Working && maxAttempts >= 1
    ensures var after := OnTask(OnTask(t, Complete(result), maxAttempts), Finalize, maxAttempts);
            after == t.(status := Succeeded, session := RowSucceeded, execution := RowSucceeded,
                        output := Some(result), worker := NoWorker)
  {
    var saved := OnTask(t, Complete(result), maxAttempts);
    EventKeepsCoherence(t, Complete(result), maxAttempts);
    RowsFollowAutomaton(t, Complete(result), maxAttempts);
    AttemptsAndOutput(t, Complete(result), maxAttempts);
    EventKeepsCoherence(saved, Finalize, maxAttempts);
    RowsFollowAutomaton(saved, Finalize, maxAttempts);
    AttemptsAndOutput(saved, Finalize, maxAttempts);
  }

  /** As long as one allowed attempt ends well, the task succeeds with that attempt's result, whatever went wrong
      before. */
  lemma OneGoodAttemptSuffices(t: Task, mishaps: seq<Mishap>, result: string, maxAttempts: nat)
    requires CoherentTask(t, maxAttempts) && Queueable(t.status) && t.attempt < maxAttempts
    requires |mishaps| < maxAttempts - t.attempt && forall m | m in mishaps :: Possible(m)
    ensures var working := AtWork(TriedAll(t, mishaps, maxAttempts), maxAttempts);
            var after := OnTask(OnTask(working, Complete(result), maxAttempts), Finalize, maxAttempts);
            && after.status == Succeeded && after.output == Some(result)
            && after.attempt == t.attempt + |mishaps| + 1
  {
    EveryAttemptIsMade(t, mishaps, maxAttempts);
    WorkBegins(TriedAll(t, mishaps, maxAttempts), maxAttempts);
    ResultIsStored(AtWork(TriedAll(t, mishaps, maxAttempts), maxAttempts), result, maxAttempts);
  }

  /** A stop takes effect if and only if the execution is running, whatever its worker is doing. */
  lemma StopTakesEffectIff(t: Task, maxAttempts: nat)
    requires CoherentTask(t, maxAttempts)
    ensures var after := OnTask(t, Stop, maxAttempts);
            if t.execution == RowRunning
            then t.status == Running
                 && after == t.(status := Cancelled, session := RowCancelled, execution := RowCancelled)
            else after == t
  {
  }

  /** Cancelling takes effect if and only if the task is queueable. */
  lemma CancelTakesEffectIff(t: Task, maxAttempts: nat)
    requires CoherentTask(t, maxAttempts)
    ensures var after := OnTask(t, Cancel, maxAttempts);
            if Queueable(t.status)
            then after == t.(status := Cancelled, session := RowCancelled, execution := RowCancelled)
            else after == t
  {
  }
}
