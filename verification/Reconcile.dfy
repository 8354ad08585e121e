/** One reconcile pass: releasing, cancelling and parking children, then settling the run. */
module Reconcile {
  import opened Options
  import opened WorkflowDag
  import opened WorkflowRun

  /** The dictionary of children by node key; a repeated key keeps its last child. */
  function ByKey(nodes: seq<NodeSpec>): (byKey: map<string, nat>)
    ensures forall k | k in byKey :: byKey[k] < |nodes| && nodes[byKey[k]].key == k
    ensures forall i | 0 <= i < |nodes| :: nodes[i].key in byKey
  {
    if nodes == [] then map[]
    else
      var n := |nodes| - 1;
      assert nodes == nodes[..n] + [nodes[n]];
      ByKey(nodes[..n])[nodes[n].key := n]
  }

  /** Child `i` depends on child `j`. */
  predicate Edge(nodes: seq<NodeSpec>, i: int, j: int) {
    0 <= i < |nodes| && 0 <= j < |nodes| && nodes[j].key in nodes[i].dependsOn
  }

  datatype Decision = Missing | Block | Release | Hold

  /** What a pass does with waiting child `i`. */
  function Decide(nodes: seq<NodeSpec>, children: seq<Task>, i: nat): Decision
    requires |children| == |nodes| && i < |nodes|
  {
    var byKey := ByKey(nodes);
    var deps := nodes[i].dependsOn;
    if exists d | d in deps :: d !in byKey then Missing
    else if exists d | d in deps :: children[byKey[d]].status in {Failed, Cancelled} then Block
    else if deps != [] && forall d | d in deps :: children[byKey[d]].status == Succeeded then Release
    else Hold
  }

  /** The task row after the decision; only the status changes. */
  function Apply(node: NodeSpec, t: Task, decision: Decision): Task {
    match decision
    case Block => t.(status := Cancelled)
    case Release => t.(status := if node.nodeType == HumanApproval then HumanReview else Pending)
    case Missing => t
    case Hold => t
  }

  datatype PassResult = PassResult(children: seq<Task>, missing: bool)

  /** The pass over children `i..`, in list order; each decision sees the earlier ones. */
  function Pass(nodes: seq<NodeSpec>, children: seq<Task>, i: nat): PassResult
    requires |children| == |nodes| && i <= |nodes|
    decreases |nodes| - i
  {
    if i == |nodes| then PassResult(children, false)
    else if children[i].status != WaitingChild then Pass(nodes, children, i + 1)
    else
      var decision := Decide(nodes, children, i);
      if decision == Missing then PassResult(children, true)
      else Pass(nodes, children[i := Apply(nodes[i], children[i], decision)], i + 1)
  }

  predicate SomeChild(children: seq<Task>, status: TaskStatus) {
    exists i | 0 <= i < |children| :: children[i].status == status
  }

  predicate AllSucceeded(children: seq<Task>) {
    forall i | 0 <= i < |children| :: children[i].status == Succeeded
  }

  /** The children's outputs, in list order. */
  function ChildResults(nodes: seq<NodeSpec>, agents: seq<string>, children: seq<Task>): (results: seq<ChildResult>)
    requires |nodes| == |agents| == |children|
    ensures |results| == |children|
    ensures forall i | 0 <= i < |children| :: results[i] == ChildResult(nodes[i].key, agents[i], children[i].output)
  {
    seq(|children|, i requires 0 <= i < |children| => ChildResult(nodes[i].key, agents[i], children[i].output))
  }

  predicate Shaped(run: Run) {
    |run.nodes| == |run.agents| == |run.children|
  }

  function FailRun(run: Run): Run {
    run.(status := RunFailed,
         root := if run.root.status in {WaitingChild, Pending}
                 then run.root.(status := Failed, session := RowFailed)
                 else run.root)
  }

  /** The second half of a pass: the run status, the release of the manager and the final outcome. */
  function Settle(run: Run): Run
    requires Shaped(run)
  {
    if SomeChild(run.children, HumanReview) then run.(status := RunHumanReview)
    else
      var running := run.(status := RunRunning);
      if run.children != [] && AllSucceeded(run.children) && run.root.status == WaitingChild then
        running.(root := run.root.(status := Pending),
                 childResults := Some(ChildResults(run.nodes, run.agents, run.children)))
      else if run.root.status == Succeeded then running.(status := RunSucceeded, output := run.root.output)
      else if run.root.status == Failed then FailRun(running)
      else running
  }

  function ReconcileRun(run: Run): (result: Run)
    requires Shaped(run)
    ensures Shaped(result)
    ensures result.nodes == run.nodes && result.agents == run.agents && result.maxAttempts == run.maxAttempts
  {
    if SomeChild(run.children, Failed) then FailRun(run)
    else
      var pass := Pass(run.nodes, run.children, 0);
      PassSize(run.nodes, run.children, 0);
      var passed := run.(children := pass.children);
      if pass.missing then FailRun(passed) else Settle(passed)
  }

  lemma {:induction false} PassSize(nodes: seq<NodeSpec>, children: seq<Task>, i: nat)
    requires |children| == |nodes| && i <= |nodes|
    ensures |Pass(nodes, children, i).children| == |children|
    decreases |nodes| - i
  {
    if i < |nodes| {
      var decision := Decide(nodes, children, i);
      PassSize(nodes, children, i + 1);
      if decision != Missing {
        PassSize(nodes, children[i := Apply(nodes[i], children[i], decision)], i + 1);
      }
    }
  }

  /* What the pass means, child by child. */

  /** What child `j` sees of the others: the outcome of the earlier ones, the old row of the rest. */
  function Seen(before: seq<Task>, after: seq<Task>, j: nat): (view: seq<Task>)
    requires |before| == |after| && j <= |before|
    ensures |view| == |before|
    ensures forall k | 0 <= k < |view| :: view[k] == if k < j then after[k] else before[k]
  {
    after[..j] + before[j..]
  }

  /** Every dependency of node `i` is a node of the list. */
  ghost predicate KnownAt(nodes: seq<NodeSpec>, i: nat)
    requires i < |nodes|
  {
    forall d | d in nodes[i].dependsOn :: exists j | 0 <= j < |nodes| :: nodes[j].key == d
  }

  /** A waiting child one of whose dependencies has no row. */
  ghost predicate Orphan(nodes: seq<NodeSpec>, children: seq<Task>, i: nat)
    requires |children| == |nodes| && i < |nodes|
  {
    children[i].status == WaitingChild && !KnownAt(nodes, i)
  }

  ghost predicate Resolvable(nodes: seq<NodeSpec>, children: seq<Task>)
    requires |children| == |nodes|
  {
    UniqueKeys(nodes) && forall i: nat | i < |nodes| :: !Orphan(nodes, children, i)
  }

  lemma KnownIsResolvable(nodes: seq<NodeSpec>, children: seq<Task>)
    requires |children| == |nodes| && UniqueKeys(nodes) && KnownDependencies(nodes)
    ensures Resolvable(nodes, children)
  {
  }

  lemma MissingIffUnknown(nodes: seq<NodeSpec>, children: seq<Task>, i: nat)
    requires |children| == |nodes| && i < |nodes|
    ensures Decide(nodes, children, i) == Missing <==> !KnownAt(nodes, i)
  {
    var byKey := ByKey(nodes);
    forall d | d in nodes[i].dependsOn
      ensures d in byKey <==> exists j | 0 <= j < |nodes| :: nodes[j].key == d
    {
      if d in byKey { assert nodes[byKey[d]].key == d; }
    }
  }

  /** A pass gives up exactly when it comes to a waiting child one of whose dependencies has no row. */
  lemma {:induction false} PassMissingIff(nodes: seq<NodeSpec>, children: seq<Task>, i: nat)
    requires |children| == |nodes| && i <= |nodes|
    ensures Pass(nodes, children, i).missing <==> exists j: nat | i <= j < |nodes| :: Orphan(nodes, children, j)
    decreases |nodes| - i
  {
    if i == |nodes| {
    } else if children[i].status != WaitingChild {
      PassMissingIff(nodes, children, i + 1);
    } else {
      MissingIffUnknown(nodes, children, i);
      var decision := Decide(nodes, children, i);
      if decision == Missing {
        assert Orphan(nodes, children, i);
      } else {
        var next := children[i := Apply(nodes[i], children[i], decision)];
        PassMissingIff(nodes, next, i + 1);
        assert forall j: nat | i < j < |nodes| :: Orphan(nodes, next, j) <==> Orphan(nodes, children, j);
      }
    }
  }

  /** Whatever comes of a pass, it moves waiting children only, and only their status. */
  ghost predicate PassMoves(before: Task, after: Task) {
    after == before ||
    (before.status == WaitingChild && after.status in {Cancelled, Pending, HumanReview}
     && after == before.(status := after.status))
  }

  lemma {:induction false} PassShape(nodes: seq<NodeSpec>, children: seq<Task>, i: nat)
    requires |children| == |nodes| && i <= |nodes|
    ensures var after := Pass(nodes, children, i).children;
            && |after| == |children|
            && (forall j | 0 <= j < |children| :: PassMoves(children[j], after[j]))
            && (forall j | 0 <= j < i :: after[j] == children[j])
    decreases |nodes| - i
  {
    if i == |nodes| {
    } else if children[i].status != WaitingChild {
      PassShape(nodes, children, i + 1);
    } else {
      var decision := Decide(nodes, children, i);
      if decision != Missing { PassShape(nodes, children[i := Apply(nodes[i], children[i], decision)], i + 1); }
    }
  }

  /** With unique keys a decision about known dependencies is about the children they name. */
  lemma DecideMeaning(nodes: seq<NodeSpec>, children: seq<Task>, i: nat)
    requires |children| == |nodes| && i < |nodes| && UniqueKeys(nodes) && KnownAt(nodes, i)
    ensures Decide(nodes, children, i) != Missing
    ensures Decide(nodes, children, i) == Block <==>
            exists j :: Edge(nodes, i, j) && children[j].status in {Failed, Cancelled}
    ensures Decide(nodes, children, i) == Release <==>
            nodes[i].dependsOn != [] && forall j | Edge(nodes, i, j) :: children[j].status == Succeeded
  {
    var byKey := ByKey(nodes);
    var deps := nodes[i].dependsOn;
    forall d | d in deps
      ensures d in byKey && Edge(nodes, i, byKey[d])
    {
      var j :| 0 <= j < |nodes| && nodes[j].key == d;
    }
    forall j | Edge(nodes, i, j)
      ensures nodes[j].key in deps && byKey[nodes[j].key] == j
    {
      assert nodes[byKey[nodes[j].key]].key == nodes[j].key;
    }
    if deps != [] { assert deps[0] in deps; }
  }

  /** Child `j` after the pass: as before unless it waited, and otherwise decided on what it saw. */
  ghost predicate DecidedAt(nodes: seq<NodeSpec>, before: seq<Task>, after: seq<Task>, j: nat)
    requires |before| == |after| == |nodes| && j < |nodes|
  {
    after[j] == if before[j].status != WaitingChild then before[j]
                else Apply(nodes[j], before[j], Decide(nodes, Seen(before, after, j), j))
  }

  /** The children after the pass has dealt with child `i`. */
  function Stepped(nodes: seq<NodeSpec>, children: seq<Task>, i: nat): (next: seq<Task>)
    requires |children| == |nodes| && i < |nodes|
    ensures |next| == |nodes| && forall k | 0 <= k < |nodes| && k != i :: next[k] == children[k]
  {
    if children[i].status != WaitingChild then children
    else children[i := Apply(nodes[i], children[i], Decide(nodes, children, i))]
  }

  lemma PassSteps(nodes: seq<NodeSpec>, children: seq<Task>, i: nat)
    requires |children| == |nodes| && i < |nodes| && !Orphan(nodes, children, i)
    ensures Pass(nodes, children, i) == Pass(nodes, Stepped(nodes, children, i), i + 1)
  {
    if children[i].status == WaitingChild { MissingIffUnknown(nodes, children, i); }
  }

  lemma DecidedHere(nodes: seq<NodeSpec>, before: seq<Task>, after: seq<Task>, i: nat)
    requires |before| == |after| == |nodes| && i < |nodes| && after[i] == Stepped(nodes, before, i)[i]
    requires forall k | 0 <= k < i :: after[k] == before[k]
    ensures DecidedAt(nodes, before, after, i)
  {
    assert Seen(before, after, i) == before;
  }

  lemma DecidedLater(nodes: seq<NodeSpec>, before: seq<Task>, next: seq<Task>, after: seq<Task>, i: nat, j: nat)
    requires |before| == |next| == |after| == |nodes| && i < j < |nodes|
    requires (forall k | 0 <= k < |nodes| && k != i :: next[k] == before[k]) && after[i] == next[i]
    requires DecidedAt(nodes, next, after, j)
    ensures DecidedAt(nodes, before, after, j)
  {
    assert Seen(next, after, j) == Seen(before, after, j);
  }

  lemma {:induction false} PassPointwise(nodes: seq<NodeSpec>, children: seq<Task>, i: nat)
    requires |children| == |nodes| && i <= |nodes|
    requires forall j: nat | i <= j < |nodes| :: !Orphan(nodes, children, j)
    ensures var pass := Pass(nodes, children, i);
            && !pass.missing
            && |pass.children| == |children|
            && (forall j | 0 <= j < i :: pass.children[j] == children[j])
            && (forall j: nat | i <= j < |nodes| :: DecidedAt(nodes, children, pass.children, j))
    decreases |nodes| - i
  {
    if i < |nodes| {
      var next := Stepped(nodes, children, i);
      PassSteps(nodes, children, i);
      assert forall j: nat | i < j < |nodes| :: Orphan(nodes, next, j) <==> Orphan(nodes, children, j);
      PassPointwise(nodes, next, i + 1);
      var after := Pass(nodes, next, i + 1).children;
      DecidedHere(nodes, children, after, i);
      forall j: nat | i < j < |nodes|
        ensures DecidedAt(nodes, children, after, j)
      {
        DecidedLater(nodes, children, next, after, i, j);
      }
    }
  }

  /** The effect of a whole pass in terms of dependencies: a waiting child is cancelled exactly when it sees
      a failed or cancelled dependency, released exactly when all of its dependencies have succeeded, and
      left alone otherwise; nothing else changes. */
  lemma PassEffect(nodes: seq<NodeSpec>, children: seq<Task>)
    requires |children| == |nodes| && Resolvable(nodes, children)
    ensures var pass := Pass(nodes, children, 0);
            && !pass.missing
            && |pass.children| == |children|
            && forall i | 0 <= i < |children| :: PassedChild(nodes, children, pass.children, i)
  {
    PassPointwise(nodes, children, 0);
    var after := Pass(nodes, children, 0).children;
    forall j | 0 <= j < |nodes|
      ensures after[j].status == children[j].status ||
              (children[j].status == WaitingChild && after[j].status in {Cancelled, Pending, HumanReview})
    {
      assert DecidedAt(nodes, children, after, j);
    }
    forall i | 0 <= i < |children|
      ensures PassedChild(nodes, children, after, i)
    {
      assert DecidedAt(nodes, children, after, i);
      if children[i].status == WaitingChild {
        assert !Orphan(nodes, children, i);
        PassedWaiting(nodes, children, after, i);
      }
    }
  }

  lemma PassedWaiting(nodes: seq<NodeSpec>, before: seq<Task>, after: seq<Task>, i: nat)
    requires |before| == |after| == |nodes| && i < |nodes| && UniqueKeys(nodes) && KnownAt(nodes, i)
    requires before[i].status == WaitingChild
    requires after[i] == Apply(nodes[i], before[i], Decide(nodes, Seen(before, after, i), i))
    requires forall j | 0 <= j < |nodes| ::
               after[j].status == before[j].status ||
               (before[j].status == WaitingChild && after[j].status in {Cancelled, Pending, HumanReview})
    ensures PassedChild(nodes, before, after, i)
  {
    var view := Seen(before, after, i);
    var decision := Decide(nodes, view, i);
    DecideMeaning(nodes, view, i);
    assert decision == Release <==> Ready(nodes, before, i);
    assert decision == Block <==> Blocked(nodes, before, after, i);
    if decision == Block && decision == Release { assert false; }
  }

  ghost predicate Ready(nodes: seq<NodeSpec>, children: seq<Task>, i: nat)
    requires |children| == |nodes| && i < |nodes|
  {
    nodes[i].dependsOn != [] && forall j | Edge(nodes, i, j) :: children[j].status == Succeeded
  }

  ghost predicate Blocked(nodes: seq<NodeSpec>, before: seq<Task>, after: seq<Task>, i: nat)
    requires |before| == |after| == |nodes| && i < |nodes|
  {
    exists j :: Edge(nodes, i, j) &&
                (before[j].status in {Failed, Cancelled} || (j < i && after[j].status in {Failed, Cancelled}))
  }

  ghost predicate PassedChild(nodes: seq<NodeSpec>, before: seq<Task>, after: seq<Task>, i: nat)
    requires |before| == |after| == |nodes| && i < |nodes|
  {
    if before[i].status != WaitingChild then after[i] == before[i]
    else
      && (after[i].status == Cancelled <==> Blocked(nodes, before, after, i))
      && (after[i].status in {Pending, HumanReview} <==> Ready(nodes, before, i))
      && (after[i].status == HumanReview ==> nodes[i].nodeType == HumanApproval)
      && (after[i].status == Pending ==> nodes[i].nodeType != HumanApproval)
      && after[i].status in {WaitingChild, Cancelled, Pending, HumanReview}
      && after[i] == before[i].(status := after[i].status)
  }

  /** In a list where dependencies come first, one pass already blocks everything it can. */
  ghost predicate DependenciesFirst(nodes: seq<NodeSpec>) {
    forall i, j | Edge(nodes, i, j) :: j < i
  }
}
