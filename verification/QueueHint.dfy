/** The Redis queue beside the task rows: what each transaction adds and removes, and why losing, repeating
    or keeping stale entries never matters for the rows. */
module QueueHint {
  import opened Options
  import opened WorkflowDag
  import opened WorkflowRun
  import opened Reconcile
  import opened WorkflowEngine

  datatype Hinted = Hinted(run: Run, queue: set<TaskRef>)

  /** One line of the platform's list of queueable tasks: a task of this run, or one of another run. */
  datatype Listed = Own(task: TaskRef) | Foreign(id: nat)

  /** `order` is what the recovery query lists over all tasks of the platform, most urgent first. */
  datatype HintedAction =
    | Take(task: TaskRef, agentActive: bool)
    | Plain(action: Action)
    | Recover(stale: set<TaskRef>, order: seq<Listed>)
    | Disturb(queue: set<TaskRef>)

  const RECOVERY_LIMIT: nat := 500

  function QueueableRows(run: Run): (refs: set<TaskRef>)
    ensures Root in refs <==> Queueable(run.root.status)
    ensures forall i: nat :: Child(i) in refs <==> i < |run.children| && Queueable(run.children[i].status)
  {
    (if Queueable(run.root.status) then {Root} else {}) +
    (set i: nat | i < |run.children| && Queueable(run.children[i].status) :: Child(i))
  }

  /** The tasks of this run among the first `n` lines. */
  function OwnAmong(order: seq<Listed>, n: nat): (refs: set<TaskRef>)
    ensures forall ref :: ref in refs <==> exists k | 0 <= k < n && k < |order| :: order[k] == Own(ref)
  {
    set k | 0 <= k < |order| && k < n && order[k].Own? :: order[k].task
  }

  /** What recovery puts back: the tasks among the first `RECOVERY_LIMIT` of the whole platform. */
  function Requeued(order: seq<Listed>): set<TaskRef> {
    OwnAmong(order, RECOVERY_LIMIT)
  }

  /** The list holds exactly the queueable tasks of this run, each once, among those of other runs. */
  ghost predicate Lists(run: Run, order: seq<Listed>) {
    && OwnAmong(order, |order|) == QueueableRows(run)
    && forall i, j | 0 <= i < j < |order| :: order[i] != order[j]
  }

  /** The tasks a pass released. */
  function ReleasedRows(before: Run, after: Run): set<TaskRef>
    requires |before.children| == |after.children|
  {
    (if before.root.status == WaitingChild && after.root.status == Pending then {Root} else {}) +
    (set i: nat | i < |before.children| && before.children[i].status == WaitingChild
                  && after.children[i].status == Pending :: Child(i))
  }

  /** What a pass puts into the queue; a pass that gives up on a missing dependency queues nothing. */
  function EnqueuedByPass(run: Run): set<TaskRef>
    requires Shaped(run)
  {
    if !SomeChild(run.children, Failed) && Pass(run.nodes, run.children, 0).missing then {}
    else ReleasedRows(run, ReconcileRun(run))
  }

  /** The queue after a transaction. */
  function QueueAfter(h: Hinted, action: Action): set<TaskRef>
    requires Shaped(h.run)
  {
    match action
    case OnRow(ref, HandleError) =>
      if Row(h.run, ref).Some? && Retries(Row(h.run, ref).value, h.run.maxAttempts) then h.queue + {ref} else h.queue
    case OnRow(ref, Cancel) =>
      if Row(h.run, ref).Some? && Queueable(Row(h.run, ref).value.status) then h.queue - {ref} else h.queue
    case OnRow(_, _) => h.queue
    case Poll => if ActiveRun(h.run.status) then h.queue + EnqueuedByPass(h.run) else h.queue
    case ReviewPass => if h.run.owed > 0 then h.queue + EnqueuedByPass(h.run) else h.queue
    case RecoverStale(_) => h.queue
    case CancelRun => if CancelRows(h.run) != h.run then h.queue - QueueableRows(h.run) else h.queue
  }

  /** The exception handler gives the task another attempt and queues it. */
  predicate Retries(t: Task, maxAttempts: nat) {
    t.worker.Raised? && t.status != Cancelled && !t.worker.cancellation && t.attempt < maxAttempts
  }

  /** Pickups come from the queue and recoveries with their query. */
  predicate HasOwnForm(action: Action) {
    action.RecoverStale? || (action.OnRow? && action.event.Pickup?)
  }

  function HintedNext(h: Hinted, action: HintedAction): (next: Hinted)
    requires Shaped(h.run)
    ensures Shaped(next.run)
  {
    match action
    case Take(ref, agentActive) =>
      if ref !in h.queue then h else Hinted(Next(h.run, OnRow(ref, Pickup(agentActive))), h.queue - {ref})
    case Plain(a) => if HasOwnForm(a) then h else Hinted(Next(h.run, a), QueueAfter(h, a))
    case Recover(stale, order) => Hinted(Next(h.run, RecoverStale(stale)), h.queue + Requeued(order))
    case Disturb(queue) => Hinted(h.run, queue)
  }

  function HintedExecute(h: Hinted, actions: seq<HintedAction>): (last: Hinted)
    requires Shaped(h.run)
    ensures Shaped(last.run)
    decreases |actions|
  {
    if actions == [] then h else HintedExecute(HintedNext(h, actions[0]), actions[1..])
  }

  /** The row transactions behind a run with a queue. */
  function Projected(h: Hinted, actions: seq<HintedAction>): seq<Action>
    requires Shaped(h.run)
    decreases |actions|
  {
    if actions == [] then []
    else
      var rest := Projected(HintedNext(h, actions[0]), actions[1..]);
      match actions[0]
      case Take(ref, agentActive) => if ref in h.queue then [OnRow(ref, Pickup(agentActive))] + rest else rest
      case Plain(a) => if HasOwnForm(a) then rest else [a] + rest
      case Recover(stale, _) => [RecoverStale(stale)] + rest
      case Disturb(_) => rest
  }

  /** However the queue is disturbed, the rows go through a run of the queue-free system. */
  lemma {:induction false} QueueIsOnlyAHint(h: Hinted, actions: seq<HintedAction>)
    requires Shaped(h.run)
    ensures HintedExecute(h, actions).run == Execute(h.run, Projected(h, actions))
    decreases |actions|
  {
    if actions != [] {
      var next := HintedNext(h, actions[0]);
      var rest := Projected(next, actions[1..]);
      QueueIsOnlyAHint(next, actions[1..]);
      match actions[0]
      case Take(ref, agentActive) =>
        if ref in h.queue { ExecuteCons(h.run, OnRow(ref, Pickup(agentActive)), rest); }
      case Plain(a) =>
        if !HasOwnForm(a) { ExecuteCons(h.run, a, rest); }
      case Recover(stale, _) => ExecuteCons(h.run, RecoverStale(stale), rest);
      case Disturb(_) =>
    }
  }

  lemma ExecuteCons(run: Run, action: Action, rest: seq<Action>)
    requires Shaped(run)
    ensures Execute(run, [action] + rest) == Execute(Next(run, action), rest)
  {
    assert ([action] + rest)[0] == action && ([action] + rest)[1..] == rest;
  }

  ghost predicate Covered(h: Hinted) {
    QueueableRows(h.run) <= h.queue
  }

  /** No task of this run stands behind the limit. */
  predicate WithinLimit(order: seq<Listed>) {
    forall k | RECOVERY_LIMIT <= k < |order| :: order[k].Foreign?
  }

  /** What recovery puts back whatever was lost: exactly all queueable tasks of the run, if and only if none of
      them stands behind the first `RECOVERY_LIMIT` queueable tasks of the whole platform. */
  lemma RecoveryRequeuesIff(h: Hinted, stale: set<TaskRef>, order: seq<Listed>)
    requires Shaped(h.run) && Lists(Next(h.run, RecoverStale(stale)), order)
    ensures var next := HintedNext(h, Recover(stale, order)).run;
            Requeued(order) == QueueableRows(next) <==> WithinLimit(order)
  {
    var next := Next(h.run, RecoverStale(stale));
    if WithinLimit(order) {
      assert Requeued(order) == OwnAmong(order, |order|);
    } else {
      var k :| RECOVERY_LIMIT <= k < |order| && order[k].Own?;
      assert order[k] == Own(order[k].task);
      assert order[k].task in OwnAmong(order, |order|) && order[k].task !in Requeued(order);
    }
  }

  /** In particular when the platform has at most `RECOVERY_LIMIT` queueable tasks in all. */
  lemma FewTasksAreRequeued(h: Hinted, stale: set<TaskRef>, order: seq<Listed>)
    requires Shaped(h.run) && Lists(Next(h.run, RecoverStale(stale)), order) && |order| <= RECOVERY_LIMIT
    ensures Covered(HintedNext(h, Recover(stale, order)))
  {
    RecoveryRequeuesIff(h, stale, order);
  }

  function Others(n: nat): seq<Listed> {
    seq(n, i requires 0 <= i < n => Foreign(i))
  }

  /** The limit is not the run's own: behind `RECOVERY_LIMIT` more urgent tasks of other runs, a run of any size
      gets none of its lost entries back. */
  lemma OtherRunsFillTheLimit(h: Hinted, own: seq<Listed>)
    requires Shaped(h.run) && h.queue == {} && Lists(Next(h.run, RecoverStale({})), own) && own != []
    requires forall k | 0 <= k < |own| :: own[k].Own?
    ensures var order := Others(RECOVERY_LIMIT) + own;
            var next := HintedNext(h, Recover({}, order));
            Lists(next.run, order) && next.queue == {} && !Covered(next)
  {
    var order := Others(RECOVERY_LIMIT) + own;
    forall ref
      ensures ref in OwnAmong(order, |order|) <==> ref in OwnAmong(own, |own|)
    {
      if k :| 0 <= k < |own| && own[k] == Own(ref) { assert order[RECOVERY_LIMIT + k] == Own(ref); }
      if k :| 0 <= k < |order| && order[k] == Own(ref) { assert own[k - RECOVERY_LIMIT] == Own(ref); }
    }
    assert Requeued(order) == {};
    assert own[0] == Own(own[0].task);
    assert own[0].task in OwnAmong(own, |own|);
  }

  predicate Undisturbed(action: HintedAction) {
    !action.Disturb?
  }

  /** The tasks of this run that stand behind the limit are queued already. */
  ghost predicate Roomy(h: Hinted, action: HintedAction)
    requires Shaped(h.run)
  {
    action.Recover? ==>
      && Lists(Next(h.run, RecoverStale(action.stale)), action.order)
      && forall k | RECOVERY_LIMIT <= k < |action.order| && action.order[k].Own? :: action.order[k].task in h.queue
  }

  /** As long as nothing disturbs the queue, every queueable task stays queued; of a recovery this holds if and
      only if the tasks it makes queueable find room within the limit. */
  lemma QueueCoversStep(h: Hinted, action: HintedAction)
    requires Inv(h.run) && Covered(h) && Undisturbed(action)
    requires action.Recover? ==> Lists(Next(h.run, RecoverStale(action.stale)), action.order)
    ensures Covered(HintedNext(h, action)) <==> Roomy(h, action)
    ensures Inv(HintedNext(h, action).run)
  {
    match action
    case Take(ref, agentActive) =>
      var pickup := Pickup(agentActive);
      StepKeepsInv(h.run, OnRow(ref, pickup));
      if ref in h.queue {
        EventOnQueueable(h.run, ref, pickup);
        RowsCovered(h, HintedNext(h, action), ref);
      }
    case Plain(a) =>
      StepKeepsInv(h.run, a);
      if !HasOwnForm(a) { QueueFollowsRows(h, a); }
    case Recover(stale, order) =>
      StepKeepsInv(h.run, RecoverStale(stale));
      RecoveryCoversIff(h, stale, order);
    case Disturb(_) => assert false;
  }

  lemma RecoveryCoversIff(h: Hinted, stale: set<TaskRef>, order: seq<Listed>)
    requires Shaped(h.run) && Lists(Next(h.run, RecoverStale(stale)), order)
    ensures Covered(HintedNext(h, Recover(stale, order))) <==> Roomy(h, Recover(stale, order))
  {
    var rows := QueueableRows(Next(h.run, RecoverStale(stale)));
    forall k | RECOVERY_LIMIT <= k < |order| && order[k].Own?
      ensures order[k].task in rows && order[k].task !in Requeued(order)
    {
      assert order[k] == Own(order[k].task);
    }
    forall ref | ref in rows
      ensures ref in Requeued(order) || exists k | RECOVERY_LIMIT <= k < |order| :: order[k] == Own(ref)
    {
      var k :| 0 <= k < |order| && order[k] == Own(ref);
    }
  }

  /** Only a failed attempt makes a row queueable outside of a pass, and only a queued row loses that. */
  lemma EventOnQueueable(run: Run, ref: TaskRef, event: TaskEvent)
    requires Inv(run)
    ensures var after := UpdateRow(run, ref, event);
            Row(after, ref).Some? && Queueable(Row(after, ref).value.status) ==>
              || (event == HandleError && Retries(Row(run, ref).value, run.maxAttempts))
              || (Queueable(Row(run, ref).value.status) && !event.Pickup? && event != Cancel)
  {
  }

  lemma RowsCovered(h: Hinted, next: Hinted, ref: TaskRef)
    requires Shaped(h.run) && Shaped(next.run) && |next.run.children| == |h.run.children| && Covered(h)
    requires ref != Root ==> next.run.root == h.run.root
    requires forall i: nat | i < |h.run.children| && Child(i) != ref :: next.run.children[i] == h.run.children[i]
    requires h.queue - {ref} <= next.queue
    requires Row(next.run, ref).Some? && Queueable(Row(next.run, ref).value.status) ==> ref in next.queue
    ensures Covered(next)
  {
    forall r | r in QueueableRows(next.run)
      ensures r in next.queue
    {
      if r != ref {
        match r
        case Root => assert r in QueueableRows(h.run);
        case Child(i) => assert r in QueueableRows(h.run);
      }
    }
  }

  lemma EventQueues(run: Run, ref: TaskRef, event: TaskEvent)
    requires Inv(run) && Row(run, ref).Some? && !event.Pickup?
    ensures var t, after := Row(run, ref).value, Row(UpdateRow(run, ref, event), ref).value;
            && (!Queueable(t.status) && Queueable(after.status) <==>
                event == HandleError && Retries(t, run.maxAttempts))
            && (Queueable(t.status) && !Queueable(after.status) <==> event == Cancel && Queueable(t.status))
  {
  }

  lemma EventQueueFollows(h: Hinted, ref: TaskRef, event: TaskEvent)
    requires Inv(h.run) && !event.Pickup?
    ensures var before, after := QueueableRows(h.run), QueueableRows(Next(h.run, OnRow(ref, event)));
            QueueAfter(h, OnRow(ref, event)) == (h.queue - (before - after)) + (after - before)
  {
    var next := Next(h.run, OnRow(ref, event));
    var before, after := QueueableRows(h.run), QueueableRows(next);
    if Row(h.run, ref).Some? { EventQueues(h.run, ref, event); }
    forall other | other != ref
      ensures other in after <==> other in before
    {
      match other
      case Root =>
      case Child(i) =>
    }
    forall other
      ensures other in QueueAfter(h, OnRow(ref, event)) <==>
              other in (h.queue - (before - after)) + (after - before)
    {
      if other == ref {
        match ref
        case Root =>
        case Child(i) =>
      }
    }
  }

  /** What a pass does to a row, as far as the queue is concerned. */
  predicate PassQueues(before: Task, after: Task) {
    && (Queueable(before.status) ==> after == before)
    && (!Queueable(before.status) && Queueable(after.status) <==>
        before.status == WaitingChild && after.status == Pending)
  }

  lemma PassQueuesRows(run: Run)
    requires Inv(run)
    ensures var next := ReconcileRun(run);
            PassQueues(run.root, next.root)
            && forall i: nat | i < |run.children| :: PassQueues(run.children[i], next.children[i])
  {
    PassShape(run.nodes, run.children, 0);
    if !SomeChild(run.children, Failed) {
      PassKeepsInv(run);
      var after := Pass(run.nodes, run.children, 0).children;
      forall i: nat | i < |after|
        ensures PassQueues(run.children[i], after[i])
      {
        assert PassMoves(run.children[i], after[i]);
      }
    }
  }

  lemma PassQueueFollows(run: Run)
    requires Inv(run)
    ensures var before, after := QueueableRows(run), QueueableRows(ReconcileRun(run));
            before <= after && EnqueuedByPass(run) == after - before
  {
    var next := ReconcileRun(run);
    PassQueuesRows(run);
    KnownIsResolvable(run.nodes, run.children);
    PassMissingIff(run.nodes, run.children, 0);
    assert EnqueuedByPass(run) == ReleasedRows(run, next);
    forall ref
      ensures ref in QueueableRows(run) ==> ref in QueueableRows(next)
      ensures ref in ReleasedRows(run, next) <==> ref in QueueableRows(next) && ref !in QueueableRows(run)
    {
      match ref
      case Root =>
      case Child(i) =>
    }
  }

  lemma CancelQueueFollows(run: Run)
    requires Inv(run) && CancelRows(run) != run
    ensures QueueableRows(CancelRows(run)) == {}
  {
    CancelRowsKeepInv(run);
    var next := CancelRows(run);
    assert forall i: nat | i < |next.children| :: Terminal(next.children[i].status);
  }

  /** Whatever a transaction does to the rows, it does to the queue: exactly the tasks that became queueable are
      entered and exactly those that ceased to be are dropped, and no other entry is touched. */
  lemma QueueFollowsRows(h: Hinted, a: Action)
    requires Inv(h.run) && !HasOwnForm(a)
    ensures var before, after := QueueableRows(h.run), QueueableRows(Next(h.run, a));
            HintedNext(h, Plain(a)).queue == (h.queue - (before - after)) + (after - before)
  {
    match a
    case OnRow(ref, event) => EventQueueFollows(h, ref, event);
    case Poll => if ActiveRun(h.run.status) { PassQueueFollows(h.run); }
    case ReviewPass => if h.run.owed > 0 { PassQueueFollows(h.run); }
    case CancelRun => if CancelRows(h.run) != h.run { CancelQueueFollows(h.run); }
  }

  /** An entry is handed out once, and a recovery enters exactly the tasks of the run that stand among the first
      `RECOVERY_LIMIT` lines of the platform. */
  lemma TakenAndRecovered(h: Hinted, ref: TaskRef, agentActive: bool, stale: set<TaskRef>, order: seq<Listed>)
    requires Shaped(h.run)
    ensures var taken := HintedNext(h, Take(ref, agentActive));
            && ref !in taken.queue && taken.queue + {ref} == h.queue + {ref}
            && (ref !in h.queue ==> taken == h)
            && (ref in h.queue ==> taken.run == Next(h.run, OnRow(ref, Pickup(agentActive))))
    ensures var recovered := HintedNext(h, Recover(stale, order));
            && recovered.run == Next(h.run, RecoverStale(stale))
            && forall other :: other in recovered.queue <==>
                 other in h.queue || exists k | 0 <= k < 500 && k < |order| :: order[k] == Own(other)
  {
  }

  /** Every recovery of the sequence finds room for the tasks it makes queueable. */
  ghost predicate AlwaysRoomy(h: Hinted, actions: seq<HintedAction>)
    requires Shaped(h.run)
    decreases |actions|
  {
    actions == [] || (Roomy(h, actions[0]) && AlwaysRoomy(HintedNext(h, actions[0]), actions[1..]))
  }

  /** Over whole runs: undisturbed, and with room at every recovery, the queue always holds every queueable task. */
  lemma {:induction false} QueueAlwaysCovers(h: Hinted, actions: seq<HintedAction>)
    requires Inv(h.run) && Covered(h) && AlwaysRoomy(h, actions)
    requires forall a | a in actions :: Undisturbed(a)
    ensures Covered(HintedExecute(h, actions))
    decreases |actions|
  {
    if actions != [] {
      assert actions[0] in actions;
      QueueCoversStep(h, actions[0]);
      QueueAlwaysCovers(HintedNext(h, actions[0]), actions[1..]);
    }
  }
}
