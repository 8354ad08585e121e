/** Deleting an agent takes its task rows out of every run. What still holds of the runs that go on without them,
    when such a run fails, and when it is stranded. */
module AgentDeletion {
  import opened Options
  import opened WorkflowDag
  import opened WorkflowRun
  import opened Reconcile
  import opened WorkflowEngine
  import opened WorkflowProgress
  import opened WorkflowSubmission
  import opened WorkflowTheorems
  import opened CancellationCauses

  /** The positions of the rows that do not belong to `gone`. */
  function Places(agents: seq<string>, gone: string): (places: seq<nat>)
    ensures forall k | 0 <= k < |places| :: places[k] < |agents| && agents[places[k]] != gone
    ensures forall k, m | 0 <= k < m < |places| :: places[k] < places[m]
    ensures forall i: nat | i < |agents| && agents[i] != gone :: i in places
  {
    if agents == [] then []
    else
      var n := |agents| - 1;
      var rest := Places(agents[..n], gone);
      if agents[n] == gone then rest else rest + [n]
  }

  function Picked<T>(items: seq<T>, places: seq<nat>): seq<T>
    requires forall k | 0 <= k < |places| :: places[k] < |items|
  {
    seq(|places|, k requires 0 <= k < |places| => items[places[k]])
  }

  /** The run without the rows of one agent. Its own row, the dependencies of the other rows and what the manager
      was already given stay as they are. */
  function Without(run: Run, gone: string): (left: Run)
    requires Shaped(run)
    ensures Shaped(left)
  {
    var places := Places(run.agents, gone);
    run.(nodes := Picked(run.nodes, places), agents := Picked(run.agents, places),
         children := Picked(run.children, places))
  }

  /** A step of the run, or the deletion of an agent. */
  datatype Change = Step(action: Action) | Delete(agent: string)

  /** The manager's agent owns the team and cannot be deleted. */
  function ChangeNext(run: Run, owner: string, change: Change): (next: Run)
    requires Shaped(run)
    ensures Shaped(next)
  {
    match change
    case Step(action) => Next(run, action)
    case Delete(agent) => if agent == owner then run else Without(run, agent)
  }

  function ChangeAll(run: Run, owner: string, changes: seq<Change>): (last: Run)
    requires Shaped(run)
    ensures Shaped(last)
    decreases |changes|
  {
    if changes == [] then run else ChangeAll(ChangeNext(run, owner, changes[0]), owner, changes[1..])
  }

  /* What still holds. */

  ghost predicate HasRank(nodes: seq<NodeSpec>) {
    exists rank :: IndexRank(nodes, rank)
  }

  /** The invariant of a run that may have lost rows: its remaining rows are in order, and their dependencies still
      have no cycle. */
  ghost predicate ReducedInv(run: Run) {
    RowsInv(run) && HasRank(run.nodes)
  }

  lemma InvIsReduced(run: Run)
    requires Inv(run)
    ensures ReducedInv(run)
  {
    var rank := DefinitionHasRank(run.nodes);
  }

  lemma PickedEdges(nodes: seq<NodeSpec>, places: seq<nat>, i: int, j: int)
    requires forall k | 0 <= k < |places| :: places[k] < |nodes|
    ensures Edge(Picked(nodes, places), i, j) <==>
            0 <= i < |places| && 0 <= j < |places| && Edge(nodes, places[i], places[j])
  {
  }

  lemma WithoutKeepsRows(run: Run, gone: string)
    requires RowsInv(run)
    ensures RowsInv(Without(run, gone))
  {
    var places := Places(run.agents, gone);
    var left := Without(run, gone);
    forall i, j | Edge(left.nodes, i, j) && Released(left.children[i])
      ensures left.children[j].status == Succeeded
    {
      PickedEdges(run.nodes, places, i, j);
      assert Released(run.children[places[i]]);
    }
  }

  lemma WithoutKeepsRank(run: Run, gone: string)
    requires Shaped(run) && HasRank(run.nodes)
    ensures HasRank(Without(run, gone).nodes)
  {
    var places := Places(run.agents, gone);
    var rank :| IndexRank(run.nodes, rank);
    var left := Picked(rank, places);
    forall i, j | Edge(Picked(run.nodes, places), i, j)
      ensures left[j] < left[i]
    {
      PickedEdges(run.nodes, places, i, j);
    }
    assert IndexRank(Without(run, gone).nodes, left);
  }

  lemma ChangeKeepsReduced(run: Run, owner: string, change: Change)
    requires ReducedInv(run)
    ensures ReducedInv(ChangeNext(run, owner, change))
  {
    match change
    case Step(action) => StepKeepsRows(run, action);
    case Delete(agent) =>
      WithoutKeepsRows(run, agent);
      WithoutKeepsRank(run, agent);
  }

  /** Whatever agents are deleted in between: every remaining child that was released has all its remaining
      dependencies succeeded, and the manager is handed over only when every remaining child has succeeded. */
  lemma {:induction false} RemainingRowsStaySafe(run: Run, owner: string, changes: seq<Change>)
    requires ReducedInv(run)
    ensures var last := ChangeAll(run, owner, changes);
            && ReducedInv(last)
            && (forall i, j | Edge(last.nodes, i, j) && Released(last.children[i]) ::
                  last.children[j].status == Succeeded)
            && (Handed(last.root) ==> AllSucceeded(last.children))
    decreases |changes|
  {
    if changes == [] {
    } else {
      ChangeKeepsReduced(run, owner, changes[0]);
      RemainingRowsStaySafe(ChangeNext(run, owner, changes[0]), owner, changes[1..]);
    }
  }

  /* Only finitely many changes have an effect. */

  lemma {:induction false} SumOfAppended(tasks: seq<Task>, t: Task, maxAttempts: nat)
    ensures SumRemaining(tasks + [t], maxAttempts) == SumRemaining(tasks, maxAttempts) + Remaining(t, maxAttempts)
  {
    if tasks == [] {
      assert tasks + [t] == [t];
    } else {
      SumOfAppended(tasks[1..], t, maxAttempts);
      assert (tasks + [t])[1..] == tasks[1..] + [t];
    }
  }

  lemma {:induction false} PlacesSize(agents: seq<string>, gone: string)
    ensures |Places(agents, gone)| <= |agents|
    ensures |Places(agents, gone)| == |agents| ==> forall k | 0 <= k < |agents| :: Places(agents, gone)[k] == k
  {
    if agents == [] {
    } else {
      PlacesSize(agents[..|agents| - 1], gone);
    }
  }

  lemma {:induction false} PickedWork(children: seq<Task>, agents: seq<string>, gone: string, maxAttempts: nat)
    requires |children| == |agents|
    ensures SumRemaining(Picked(children, Places(agents, gone)), maxAttempts) <= SumRemaining(children, maxAttempts)
  {
    if agents == [] {
    } else {
      var n := |agents| - 1;
      var rest := Places(agents[..n], gone);
      PickedWork(children[..n], agents[..n], gone, maxAttempts);
      PickedAppends(children, rest, n, maxAttempts);
    }
  }

  lemma PickedAppends(children: seq<Task>, rest: seq<nat>, n: nat, maxAttempts: nat)
    requires |children| == n + 1 && forall k | 0 <= k < |rest| :: rest[k] < n
    ensures Picked(children, rest) == Picked(children[..n], rest)
    ensures SumRemaining(children, maxAttempts) ==
            SumRemaining(children[..n], maxAttempts) + Remaining(children[n], maxAttempts)
    ensures SumRemaining(Picked(children, rest + [n]), maxAttempts)
         == SumRemaining(Picked(children, rest), maxAttempts) + Remaining(children[n], maxAttempts)
  {
    assert children == children[..n] + [children[n]];
    SumOfAppended(children[..n], children[n], maxAttempts);
    SumOfAppended(Picked(children, rest), children[n], maxAttempts);
    assert Picked(children, rest + [n]) == Picked(children, rest) + [children[n]];
  }

  function ChangeMeasure(run: Run): nat {
    Measure(run) + 2 * |run.children|
  }

  lemma DeletionLowersMeasure(run: Run, gone: string)
    requires Shaped(run)
    ensures Without(run, gone) == run || ChangeMeasure(Without(run, gone)) < ChangeMeasure(run)
  {
    var places := Places(run.agents, gone);
    PlacesSize(run.agents, gone);
    PickedWork(run.children, run.agents, gone, run.maxAttempts);
    if |places| == |run.agents| {
      assert Picked(run.nodes, places) == run.nodes && Picked(run.agents, places) == run.agents;
      assert Picked(run.children, places) == run.children;
    }
  }

  lemma StepLowersChangeMeasure(run: Run, action: Action)
    requires RowsInv(run)
    ensures Next(run, action) == run || ChangeMeasure(Next(run, action)) < ChangeMeasure(run)
  {
    StepLowersMeasure(run, action);
    StepAdvances(run, action);
  }

  function EffectiveChanges(run: Run, owner: string, changes: seq<Change>): nat
    requires Shaped(run)
    decreases |changes|
  {
    if changes == [] then 0
    else
      var next := ChangeNext(run, owner, changes[0]);
      (if next == run then 0 else 1) + EffectiveChanges(next, owner, changes[1..])
  }

  /** With deletions as well, only boundedly many changes ever have an effect. */
  lemma {:induction false} FinitelyManyChanges(run: Run, owner: string, changes: seq<Change>)
    requires ReducedInv(run)
    ensures EffectiveChanges(run, owner, changes) + ChangeMeasure(ChangeAll(run, owner, changes)) <= ChangeMeasure(run)
    decreases |changes|
  {
    if changes == [] {
    } else {
      match changes[0] {
        case Step(action) => StepLowersChangeMeasure(run, action);
        case Delete(agent) => DeletionLowersMeasure(run, agent);
      }
      ChangeKeepsReduced(run, owner, changes[0]);
      FinitelyManyChanges(ChangeNext(run, owner, changes[0]), owner, changes[1..]);
    }
  }

  /* A missing dependency. */

  ghost predicate SomeOrphan(run: Run)
    requires Shaped(run)
  {
    exists i: nat | i < |run.children| :: Orphan(run.nodes, run.children, i)
  }

  /** With no failed child and a manager that has not failed, a poll fails the run if and only if a waiting child
      has lost a dependency. */
  lemma PollFailsIff(run: Run)
    requires RowsInv(run) && ActiveRun(run.status) && !SomeChild(run.children, Failed) && run.root.status != Failed
    ensures Next(run, Poll).status == RunFailed <==> SomeOrphan(run)
    ensures SomeOrphan(run) && run.root.status == WaitingChild ==> Next(run, Poll).root.status == Failed
  {
    PassMissingIff(run.nodes, run.children, 0);
    PassShape(run.nodes, run.children, 0);
  }

  /** Child `i` waits, and a row it depends on belongs to `gone` while its own does not. */
  predicate LosesDependency(run: Run, gone: string, i: nat, j: nat)
    requires Shaped(run)
  {
    Edge(run.nodes, i, j) && run.children[i].status == WaitingChild && run.agents[i] != gone && run.agents[j] == gone
  }

  lemma LostDependencyOrphans(run: Run, gone: string, i: nat, j: nat)
    requires Shaped(run) && UniqueKeys(run.nodes) && LosesDependency(run, gone, i, j)
    ensures SomeOrphan(Without(run, gone))
  {
    var places := Places(run.agents, gone);
    var left := Without(run, gone);
    var k :| 0 <= k < |places| && places[k] == i;
    forall m | 0 <= m < |left.nodes|
      ensures left.nodes[m].key != run.nodes[j].key
    {
      assert run.agents[places[m]] != gone;
    }
    assert run.nodes[j].key in left.nodes[k].dependsOn;
    assert Orphan(left.nodes, left.children, k);
  }

  lemma OrphanLostDependency(run: Run, gone: string, k: nat)
    requires Shaped(run) && KnownDependencies(run.nodes)
    requires k < |Without(run, gone).children| && Orphan(Without(run, gone).nodes, Without(run, gone).children, k)
    ensures exists i: nat, j: nat :: LosesDependency(run, gone, i, j)
  {
    var places := Places(run.agents, gone);
    var left := Without(run, gone);
    var d :| d in left.nodes[k].dependsOn && !exists m | 0 <= m < |left.nodes| :: left.nodes[m].key == d;
    var j :| 0 <= j < |run.nodes| && run.nodes[j].key == d;
    assert forall m | 0 <= m < |places| :: left.nodes[m].key != d && places[m] != j;
    assert j !in places;
    assert LosesDependency(run, gone, places[k], j);
  }

  /** A deletion leaves such a child behind if and only if a waiting child of another agent depends on a row of the
      deleted one. */
  lemma DeletionOrphansIff(run: Run, gone: string)
    requires Inv(run)
    ensures SomeOrphan(Without(run, gone)) <==> exists i: nat, j: nat :: LosesDependency(run, gone, i, j)
  {
    if i: nat, j: nat :| LosesDependency(run, gone, i, j) {
      LostDependencyOrphans(run, gone, i, j);
    }
    var left := Without(run, gone);
    if k: nat :| k < |left.children| && Orphan(left.nodes, left.children, k) {
      OrphanLostDependency(run, gone, k);
    }
  }

  /* A stranded run. */

  /** The manager waits for children that are not there any more. */
  predicate Stranded(run: Run) {
    run.status == RunRunning && run.children == [] && run.root.status == WaitingChild
  }

  /** In a run that may have lost rows: an active run in which nothing is in flight is left alone by a poll if and
      only if it was stopped by a cancellation or is stranded. */
  lemma UnmovedIff(run: Run)
    requires ReducedInv(run) && ActiveRun(run.status)
    ensures Idle(run) && Next(run, Poll) == run <==> Stuck(run) || Stranded(run)
  {
    PassMissingIff(run.nodes, run.children, 0);
    PassShape(run.nodes, run.children, 0);
    if Idle(run) && Next(run, Poll) == run { UnmovedIsStuckOrStranded(run); }
    if Stuck(run) || Stranded(run) { StuckOrStrandedIsUnmoved(run); }
  }

  lemma StuckOrStrandedIsUnmoved(run: Run)
    requires ReducedInv(run) && (Stuck(run) || Stranded(run))
    ensures Idle(run) && ReconcileRun(run) == run
  {
    PassMissingIff(run.nodes, run.children, 0);
    PassShape(run.nodes, run.children, 0);
    var after := Pass(run.nodes, run.children, 0).children;
    forall i | 0 <= i < |after|
      ensures after[i] == run.children[i]
    {
      assert PassMoves(run.children[i], after[i]);
    }
    assert after == run.children && run.(children := after) == run;
    assert forall i: nat | i < |run.children| :: !Orphan(run.nodes, run.children, i);
  }

  lemma UnmovedIsStuckOrStranded(run: Run)
    requires ReducedInv(run) && ActiveRun(run.status) && Idle(run) && ReconcileRun(run) == run
    ensures Stuck(run) || Stranded(run)
  {
    PassMissingIff(run.nodes, run.children, 0);
    PassShape(run.nodes, run.children, 0);
    assert !SomeChild(run.children, Failed);
    assert !Pass(run.nodes, run.children, 0).missing;
    NobodyWaits(run);
  }

  /** A poll that moves nothing has found no waiting child. */
  lemma NobodyWaits(run: Run)
    requires ReducedInv(run) && Idle(run) && !SomeChild(run.children, Failed)
    requires Pass(run.nodes, run.children, 0) == PassResult(run.children, false)
    ensures !SomeChild(run.children, WaitingChild)
  {
    PassMissingIff(run.nodes, run.children, 0);
    PassEffect(run.nodes, run.children);
    if start: nat :| start < |run.children| && run.children[start].status == WaitingChild {
      var rank :| IndexRank(run.nodes, rank);
      var i := MinimalMember(run.nodes, rank, WaitingSet(run.children), start);
      assert PassedChild(run.nodes, run.children, run.children, i);
      forall j | Edge(run.nodes, i, j)
        ensures run.children[j].status in {Succeeded, Cancelled}
      {
        assert j in WaitingSet(run.children) <==> run.children[j].status == WaitingChild;
      }
    }
  }

  /** Deleting an agent strands a run whose manager waits if and only if every child ran on that agent. */
  lemma DeletionStrandsIff(run: Run, gone: string)
    requires Inv(run) && ActiveRun(run.status) && run.root.status == WaitingChild
    ensures Stranded(Next(Without(run, gone), Poll)) <==> forall i | 0 <= i < |run.agents| :: run.agents[i] == gone
  {
    var places := Places(run.agents, gone);
    var left := Without(run, gone);
    PassShape(left.nodes, left.children, 0);
    PassMissingIff(left.nodes, left.children, 0);
    if places == [] {
      assert left.children == [] && !SomeChild(left.children, Failed);
    } else {
      assert |left.children| > 0 && run.agents[places[0]] != gone;
    }
  }

  predicate CancelsRun(change: Change) {
    change == Step(CancelRun)
  }

  /** A stranded run stays as it is, whatever happens, until the whole run is cancelled. */
  lemma {:induction false} StrandedUntilRunIsCancelled(run: Run, owner: string, changes: seq<Change>)
    requires ReducedInv(run) && Stranded(run) && forall c | c in changes :: !CancelsRun(c)
    ensures Stranded(ChangeAll(run, owner, changes))
    decreases |changes|
  {
    if changes == [] {
    } else {
      assert changes[0] in changes;
      StrandedStep(run, owner, changes[0]);
      ChangeKeepsReduced(run, owner, changes[0]);
      StrandedUntilRunIsCancelled(ChangeNext(run, owner, changes[0]), owner, changes[1..]);
    }
  }

  lemma StrandedStep(run: Run, owner: string, change: Change)
    requires ReducedInv(run) && Stranded(run) && !CancelsRun(change)
    ensures Stranded(ChangeNext(run, owner, change))
  {
    match change
    case Step(action) =>
      StuckOrStrandedIsUnmoved(run);
      if action.OnRow? { UpdateRowMoves(run, action.task, action.event); }
      if action.RecoverStale? { RecoverRowsMove(run, action.stale); }
    case Delete(agent) =>
  }

  /* Causes. */

  predicate SomeCancel(changes: seq<Change>) {
    exists k | 0 <= k < |changes| :: changes[k].Step? && Cancels(changes[k].action)
  }

  predicate SomeDeletion(changes: seq<Change>) {
    exists k | 0 <= k < |changes| :: changes[k].Delete?
  }

  lemma {:induction false} UnharmedWithoutCancel(run: Run, owner: string, changes: seq<Change>)
    requires ReducedInv(run) && AllUnharmed(run) && !SomeCancel(changes)
    ensures ReducedInv(ChangeAll(run, owner, changes)) && AllUnharmed(ChangeAll(run, owner, changes))
    decreases |changes|
  {
    if changes == [] {
    } else {
      assert changes[0].Step? ==> !Cancels(changes[0].action);
      if changes[0].Step? { StepKeepsUnharmed(run, changes[0].action); }
      ChangeKeepsReduced(run, owner, changes[0]);
      assert forall k | 0 <= k < |changes[1..]| :: changes[1..][k] == changes[k + 1];
      UnharmedWithoutCancel(ChangeNext(run, owner, changes[0]), owner, changes[1..]);
    }
  }

  lemma {:induction false} WholeWithoutDeletion(run: Run, owner: string, changes: seq<Change>)
    requires Inv(run) && !SomeDeletion(changes)
    ensures Inv(ChangeAll(run, owner, changes))
    decreases |changes|
  {
    if changes == [] {
    } else {
      assert changes[0].Step?;
      StepKeepsInv(run, changes[0].action);
      assert forall k | 0 <= k < |changes[1..]| :: changes[1..][k] == changes[k + 1];
      WholeWithoutDeletion(ChangeNext(run, owner, changes[0]), owner, changes[1..]);
    }
  }

  /** From submission on, deletions included: an active run in which nothing is in flight and that a poll leaves
      alone is stuck after a cancellation, or stranded after the deletion of an agent. */
  lemma UnmovedRunHasCause(nodes: seq<NodeSpec>, agents: seq<string>, maxAttempts: nat, owner: string,
                           changes: seq<Change>)
    requires |nodes| == |agents| && nodes != [] && ValidDefinition(nodes) && maxAttempts >= 1
    ensures var last := ChangeAll(WorkflowRows(nodes, agents, maxAttempts), owner, changes);
            ActiveRun(last.status) && Idle(last) && Next(last, Poll) == last ==>
              (Stuck(last) && SomeCancel(changes)) || (Stranded(last) && SomeDeletion(changes))
  {
    var run := WorkflowRows(nodes, agents, maxAttempts);
    RowsAreSound(nodes, agents, maxAttempts);
    InvIsReduced(run);
    RemainingRowsStaySafe(run, owner, changes);
    var last := ChangeAll(run, owner, changes);
    if ActiveRun(last.status) && Idle(last) && Next(last, Poll) == last {
      UnmovedIff(last);
      if Stuck(last) && !SomeCancel(changes) { UnharmedWithoutCancel(run, owner, changes); }
      if Stranded(last) && !SomeDeletion(changes) { WholeWithoutDeletion(run, owner, changes); }
    }
  }

  /* Taking a failed run back. */

  /** A child waits for review, or will after a pass. */
  ghost predicate Parks(run: Run)
    requires Shaped(run)
  {
    exists i: nat | i < |run.children| ::
      run.children[i].status == HumanReview
      || (run.children[i].status == WaitingChild && run.nodes[i].nodeType == HumanApproval
          && Ready(run.nodes, run.children, i))
  }

  lemma ParkedAfterPass(run: Run)
    requires RowsInv(run) && !SomeOrphan(run)
    ensures |Pass(run.nodes, run.children, 0).children| == |run.children|
    ensures SomeChild(Pass(run.nodes, run.children, 0).children, HumanReview) <==> Parks(run)
  {
    PassEffect(run.nodes, run.children);
    var after := Pass(run.nodes, run.children, 0).children;
    forall i: nat | i < |run.children|
      ensures after[i].status == HumanReview <==>
              run.children[i].status == HumanReview
              || (run.children[i].status == WaitingChild && run.nodes[i].nodeType == HumanApproval
                  && Ready(run.nodes, run.children, i))
    {
      assert PassedChild(run.nodes, run.children, after, i);
    }
  }

  /** A pass takes a failed run back if and only if the row it failed for is gone: no child is failed or has lost a
      dependency, and the manager did not fail or a child is parked for review. */
  lemma FailedRunTakenBackIff(run: Run)
    requires RowsInv(run) && run.status == RunFailed
    ensures ReconcileRun(run).status != RunFailed <==>
            !SomeChild(run.children, Failed) && !SomeOrphan(run) && (run.root.status != Failed || Parks(run))
  {
    PassMissingIff(run.nodes, run.children, 0);
    PassShape(run.nodes, run.children, 0);
    if !SomeOrphan(run) { ParkedAfterPass(run); }
  }

  /* Three runs from their submission. */

  lemma ChangeUnfolds(run: Run, owner: string, first: Change, rest: seq<Change>)
    requires Shaped(run)
    ensures ChangeAll(run, owner, [first] + rest) == ChangeAll(ChangeNext(run, owner, first), owner, rest)
  {
    assert ([first] + rest)[1..] == rest;
  }

  lemma ChangeOne(run: Run, owner: string, change: Change)
    requires Shaped(run)
    ensures ChangeAll(run, owner, [change]) == ChangeNext(run, owner, change)
  {
    ChangeUnfolds(run, owner, change, []);
    assert [change] + [] == [change];
  }

  lemma ChangeTwo(run: Run, owner: string, a: Change, b: Change)
    requires Shaped(run)
    ensures ChangeAll(run, owner, [a, b]) == ChangeNext(ChangeNext(run, owner, a), owner, b)
  {
    ChangeUnfolds(run, owner, a, [b]);
    ChangeOne(ChangeNext(run, owner, a), owner, b);
    assert [a] + [b] == [a, b];
  }

  /** The position of a node, looked up by its key, is a rank of the graph. */
  function KeyRank(nodes: seq<NodeSpec>): (rank: map<string, nat>)
    ensures rank.Keys == GraphOf(nodes).Keys
  {
    GraphOfKeys(nodes);
    map k | k in GraphOf(nodes) :: ByKey(nodes)[k]
  }

  lemma PositionsFall(nodes: seq<NodeSpec>, k: string, d: string)
    requires UniqueKeys(nodes) && DependenciesFirst(nodes) && k in GraphOf(nodes) && d in GraphOf(nodes)
    requires d in GraphOf(nodes)[k]
    ensures KeyRank(nodes)[d] < KeyRank(nodes)[k]
  {
    GraphOfKeys(nodes);
    GraphLookup(nodes, ByKey(nodes)[k]);
    assert Edge(nodes, ByKey(nodes)[k], ByKey(nodes)[d]);
  }

  /** Nodes listed after their dependencies make a valid definition. */
  lemma DependencyOrderIsValid(nodes: seq<NodeSpec>)
    requires UniqueKeys(nodes) && KnownDependencies(nodes) && DependenciesFirst(nodes)
    ensures ValidDefinition(nodes)
  {
    KnownDependenciesClose(nodes);
    GraphKeysAreKeysOf(nodes);
    AcyclicIffRanked(GraphOf(nodes), KeysOf(nodes));
    forall k, d | k in GraphOf(nodes) && d in GraphOf(nodes)[k]
      ensures d in GraphOf(nodes) && KeyRank(nodes)[d] < KeyRank(nodes)[k]
    {
      PositionsFall(nodes, k, d);
    }
    assert Ranked(GraphOf(nodes), KeyRank(nodes));
  }

  /** The only member of a team is deleted while its task is queued: the run stays running, nothing is cancelled,
      and nobody will ever release the manager. */
  lemma DeletedMemberStrandsRun(owner: string, member: string)
    requires member != owner
    ensures var run := SubmitTeam([Member(member, true)], owner, 3);
            var left := ChangeAll(run, owner, [Delete(member)]);
            && Inv(run) && run.agents == [member] && run.children[0].status == Pending
            && Stranded(left) && Idle(left) && Next(left, Poll) == left && !Stuck(left)
  {
    var members := [Member(member, true)];
    var run := SubmitTeam(members, owner, 3);
    assert members[1..] == [];
    assert Participants(members, owner) == [member];
    SubmittedTeamIsSound(members, owner, 3);
    InvIsReduced(run);
    ChangeOne(run, owner, Delete(member));
    var left := Without(run, member);
    assert Places(run.agents, member) == [];
    WithoutKeepsRows(run, member);
    WithoutKeepsRank(run, member);
    StuckOrStrandedIsUnmoved(left);
  }

  /** Node "b" waits for node "a", whose agent is deleted: the next poll fails the run. */
  lemma DeletedDependencyFailsRun(owner: string, x: string, y: string)
    requires x != owner && x != y
    ensures var nodes := [NodeSpec("a", AgentNode, x, []), NodeSpec("b", AgentNode, y, ["a"])];
            var run := WorkflowRows(nodes, [x, y], 3);
            Inv(run) && ChangeAll(run, owner, [Delete(x), Step(Poll)]).status == RunFailed
  {
    var nodes := [NodeSpec("a", AgentNode, x, []), NodeSpec("b", AgentNode, y, ["a"])];
    var run := WorkflowRows(nodes, [x, y], 3);
    assert nodes[0].key == "a";
    DependencyOrderIsValid(nodes);
    RowsAreSound(nodes, [x, y], 3);
    ChangeTwo(run, owner, Delete(x), Step(Poll));
    assert LosesDependency(run, x, 1, 0);
    LostDependencyOrphans(run, x, 1, 0);
    WithoutKeepsRows(run, x);
    var left := Without(run, x);
    forall i | 0 <= i < |left.children|
      ensures left.children[i].status != Failed
    {
      assert left.children[i] == run.children[Places(run.agents, x)[i]];
    }
    PollFailsIff(left);
  }

  /** A run fails because one of three reviews rejects. The agent of the rejected gate is deleted, another gate is
      approved, and the pass that review owes finds no failed child: the failed run waits for review again. */
  lemma DeletionRevivesFailedRun(owner: string, x: string, y: string, note: string)
    requires x != owner && x != y
    ensures var nodes := [NodeSpec("1", HumanApproval, x, []), NodeSpec("2", HumanApproval, y, []),
                          NodeSpec("3", HumanApproval, y, [])];
            var run := WorkflowRows(nodes, [x, y, y], 3);
            var failed := ChangeAll(run, owner, [Step(OnRow(Child(0), Review(false, note))), Step(ReviewPass)]);
            var reviewed := ChangeAll(failed, owner, [Delete(x), Step(OnRow(Child(0), Review(true, note)))]);
            && Inv(run) && failed.status == RunFailed && reviewed.status == RunFailed
            && ChangeNext(reviewed, owner, Step(ReviewPass)).status == RunHumanReview
  {
    var nodes := [NodeSpec("1", HumanApproval, x, []), NodeSpec("2", HumanApproval, y, []),
                  NodeSpec("3", HumanApproval, y, [])];
    var run := WorkflowRows(nodes, [x, y, y], 3);
    IndependentNodesAreValid(nodes);
    RowsAreSound(nodes, [x, y, y], 3);
    var reject, approve := OnRow(Child(0), Review(false, note)), OnRow(Child(0), Review(true, note));
    ChangeTwo(run, owner, Step(reject), Step(ReviewPass));
    var failed := Next(Next(run, reject), ReviewPass);
    RejectedGate(run, note);
    StepKeepsInv(run, reject);
    StepKeepsInv(Next(run, reject), ReviewPass);
    ChangeTwo(failed, owner, Delete(x), Step(approve));
    WithoutKeepsRows(failed, x);
    OneGateGone(failed, x);
    StepKeepsRows(Without(failed, x), approve);
    ApprovedGate(Without(failed, x), note);
  }

  lemma RejectedGate(run: Run, note: string)
    requires Shaped(run) && |run.children| == 3 && run.owed == 0
    requires forall i | 0 <= i < 3 :: run.children[i].status == HumanReview
    ensures var failed := Next(Next(run, OnRow(Child(0), Review(false, note))), ReviewPass);
            && failed.status == RunFailed && failed.owed == 0 && failed.agents == run.agents
               && failed.nodes == run.nodes
            && |failed.children| == 3 && failed.children[0].status == Failed
            && failed.children[1].status == HumanReview && failed.children[2].status == HumanReview
  {
    var rejected := Next(run, OnRow(Child(0), Review(false, note)));
    assert rejected.children[0].status == Failed;
  }

  lemma OneGateGone(run: Run, x: string)
    requires Shaped(run) && |run.agents| == 3 && run.agents[0] == x && run.agents[1] != x && run.agents[2] != x
    ensures Without(run, x).children == [run.children[1], run.children[2]]
  {
    var agents := run.agents;
    assert agents[..2][..1][..0] == [];
    assert Places(agents[..2][..1], x) == [];
    assert Places(agents[..2], x) == [1];
    assert Places(agents, x) == [1, 2];
  }

  lemma ApprovedGate(run: Run, note: string)
    requires RowsInv(run) && run.status == RunFailed && run.owed == 0 && |run.children| == 2
    requires run.children[0].status == HumanReview && run.children[1].status == HumanReview
    ensures var reviewed := Next(run, OnRow(Child(0), Review(true, note)));
            reviewed.status == RunFailed && Next(reviewed, ReviewPass).status == RunHumanReview
  {
    var reviewed := Next(run, OnRow(Child(0), Review(true, note)));
    assert reviewed.owed == 1 && reviewed.children[0].status == Succeeded && reviewed.children[1] == run.children[1];
    StepKeepsRows(run, OnRow(Child(0), Review(true, note)));
    assert forall i: nat | i < |reviewed.children| :: !Orphan(reviewed.nodes, reviewed.children, i);
    PassShape(reviewed.nodes, reviewed.children, 0);
    PassMissingIff(reviewed.nodes, reviewed.children, 0);
    var after := Pass(reviewed.nodes, reviewed.children, 0).children;
    assert PassMoves(reviewed.children[1], after[1]);
    assert after[1].status == HumanReview;
  }
}
