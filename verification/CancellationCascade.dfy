/** How a cancellation spreads when the orchestrator keeps polling. */
module CancellationCascade {
  import opened Options
  import opened WorkflowDag
  import opened WorkflowRun
  import opened Reconcile
  import opened WorkflowEngine
  import opened WorkflowProgress

  /** Waiting children, each depending on the next, ending at a cancelled child. */
  ghost predicate DoomPath(nodes: seq<NodeSpec>, children: seq<Task>, p: seq<nat>)
    requires |nodes| == |children|
  {
    && p != []
    && (forall k | 0 <= k < |p| :: p[k] < |children|)
    && (forall k | 0 <= k < |p| - 1 :: Edge(nodes, p[k], p[k + 1]) && children[p[k]].status == WaitingChild)
    && children[p[|p| - 1]].status == Cancelled
  }

  /** Cancelled already, or waiting for a cancelled child directly or through other waiting children. */
  ghost predicate Doomed(nodes: seq<NodeSpec>, children: seq<Task>, i: nat)
    requires |nodes| == |children|
  {
    exists p :: DoomPath(nodes, children, p) && p[0] == i
  }

  lemma DoomedStep(nodes: seq<NodeSpec>, children: seq<Task>, i: nat, j: nat)
    requires |nodes| == |children| && Edge(nodes, i, j) && children[i].status == WaitingChild
    requires Doomed(nodes, children, j)
    ensures Doomed(nodes, children, i)
  {
    var p :| DoomPath(nodes, children, p) && p[0] == j;
    var longer := [i] + p;
    forall k | 0 <= k < |longer| - 1
      ensures Edge(nodes, longer[k], longer[k + 1]) && children[longer[k]].status == WaitingChild
    {
      if k > 0 { assert longer[k] == p[k - 1] && longer[k + 1] == p[(k - 1) + 1]; }
    }
    assert longer[|longer| - 1] == p[|p| - 1];
    assert DoomPath(nodes, children, longer) && longer[0] == i;
  }

  lemma DoomedCancelled(nodes: seq<NodeSpec>, children: seq<Task>, i: nat)
    requires |nodes| == |children| && i < |children| && children[i].status == Cancelled
    ensures Doomed(nodes, children, i)
  {
    assert DoomPath(nodes, children, [i]) && [i][0] == i;
  }

  lemma DoomTail(nodes: seq<NodeSpec>, children: seq<Task>, p: seq<nat>)
    requires |nodes| == |children| && DoomPath(nodes, children, p) && |p| >= 2
    ensures DoomPath(nodes, children, p[1..])
    ensures Edge(nodes, p[0], p[1]) && children[p[0]].status == WaitingChild
  {
    assert Edge(nodes, p[0], p[0 + 1]);
    var rest := p[1..];
    forall k | 0 <= k < |rest| - 1
      ensures Edge(nodes, rest[k], rest[k + 1]) && children[rest[k]].status == WaitingChild
    {
      assert rest[k] == p[k + 1] && rest[k + 1] == p[(k + 1) + 1];
    }
  }

  ghost predicate PassedAll(nodes: seq<NodeSpec>, before: seq<Task>, after: seq<Task>) {
    && |before| == |after| == |nodes|
    && forall i | 0 <= i < |nodes| :: PassedChild(nodes, before, after, i)
  }

  /** A pass never rescues a doomed child. */
  lemma {:induction false} DoomSurvivesPass(nodes: seq<NodeSpec>, before: seq<Task>, after: seq<Task>, p: seq<nat>)
    requires PassedAll(nodes, before, after) && DoomPath(nodes, before, p)
    ensures Doomed(nodes, after, p[0])
    decreases |p|
  {
    var i := p[0];
    assert PassedChild(nodes, before, after, i);
    if |p| == 1 || after[i].status == Cancelled {
      DoomedCancelled(nodes, after, i);
    } else {
      DoomTail(nodes, before, p);
      DoomSurvivesPass(nodes, before, after, p[1..]);
      assert before[p[1]].status in {WaitingChild, Cancelled};
      assert !Ready(nodes, before, i);
      DoomedStep(nodes, after, i, p[1]);
    }
  }

  /** A pass only cancels children that were doomed before it. */
  lemma {:induction false} PassCancelsOnlyDoomed(nodes: seq<NodeSpec>, before: seq<Task>, after: seq<Task>, i: nat)
    requires PassedAll(nodes, before, after) && !SomeChild(before, Failed)
    requires i < |nodes| && after[i].status == Cancelled
    ensures Doomed(nodes, before, i)
    decreases i
  {
    assert PassedChild(nodes, before, after, i);
    if before[i].status == Cancelled {
      DoomedCancelled(nodes, before, i);
    } else {
      assert Blocked(nodes, before, after, i);
      var j: nat :| Edge(nodes, i, j) &&
                    (before[j].status in {Failed, Cancelled} || (j < i && after[j].status in {Failed, Cancelled}));
      assert PassedChild(nodes, before, after, j);
      if before[j].status == Cancelled {
        DoomedCancelled(nodes, before, j);
      } else {
        PassCancelsOnlyDoomed(nodes, before, after, j);
      }
      DoomedStep(nodes, before, i, j);
    }
  }

  lemma {:induction false} DoomAfterPassIsOld(nodes: seq<NodeSpec>, before: seq<Task>, after: seq<Task>, p: seq<nat>)
    requires PassedAll(nodes, before, after) && !SomeChild(before, Failed) && DoomPath(nodes, after, p)
    ensures Doomed(nodes, before, p[0])
    decreases |p|
  {
    if |p| == 1 {
      PassCancelsOnlyDoomed(nodes, before, after, p[0]);
    } else {
      DoomTail(nodes, after, p);
      DoomAfterPassIsOld(nodes, before, after, p[1..]);
      assert PassedChild(nodes, before, after, p[0]);
      DoomedStep(nodes, before, p[0], p[1]);
    }
  }

  /** Being doomed is an invariant of passes, whatever the list order. */
  lemma DoomedIsInvariant(nodes: seq<NodeSpec>, before: seq<Task>, after: seq<Task>, i: nat)
    requires PassedAll(nodes, before, after) && !SomeChild(before, Failed)
    ensures Doomed(nodes, before, i) <==> Doomed(nodes, after, i)
  {
    if Doomed(nodes, before, i) {
      var p :| DoomPath(nodes, before, p) && p[0] == i;
      DoomSurvivesPass(nodes, before, after, p);
    }
    if Doomed(nodes, after, i) {
      var p :| DoomPath(nodes, after, p) && p[0] == i;
      DoomAfterPassIsOld(nodes, before, after, p);
    }
  }

  /** The doomed children a pass has yet to cancel. */
  ghost function Condemned(nodes: seq<NodeSpec>, children: seq<Task>): set<nat>
    requires |nodes| == |children|
  {
    set i: nat | i < |children| && children[i].status == WaitingChild && Doomed(nodes, children, i)
  }

  function Indices(n: nat): (all: set<nat>)
    ensures |all| == n && forall i: nat :: i in all <==> i < n
  {
    if n == 0 then {} else Indices(n - 1) + {n - 1}
  }

  lemma CondemnedSize(nodes: seq<NodeSpec>, children: seq<Task>)
    requires |nodes| == |children|
    ensures |Condemned(nodes, children)| <= |nodes|
  {
    SubsetSize(Condemned(nodes, children), Indices(|children|));
  }

  lemma DoomedNotCondemned(nodes: seq<NodeSpec>, children: seq<Task>, i: nat)
    requires |nodes| == |children| && Doomed(nodes, children, i) && i !in Condemned(nodes, children)
    ensures i < |children| && children[i].status == Cancelled
  {
    var p :| DoomPath(nodes, children, p) && p[0] == i;
    if |p| >= 2 { DoomTail(nodes, children, p); }
  }

  lemma SubsetSize(a: set<nat>, b: set<nat>)
    requires a <= b
    ensures |a| <= |b|
  {
    if a != b { SubsetIsSmaller(a, b); }
  }

  /** The last waiting child of a doom path is cancelled by the next pass. */
  lemma {:induction false} PassReachesDoomPath(nodes: seq<NodeSpec>, before: seq<Task>, after: seq<Task>, p: seq<nat>)
    returns (k: nat)
    requires PassedAll(nodes, before, after) && DoomPath(nodes, before, p) && |p| >= 2
    ensures k in Condemned(nodes, before) && after[k].status == Cancelled
    decreases |p|
  {
    DoomTail(nodes, before, p);
    if |p| == 2 {
      k := p[0];
      assert DoomPath(nodes, before, p) && p[0] == k;
      assert PassedChild(nodes, before, after, k);
      assert Blocked(nodes, before, after, k) by {
        assert Edge(nodes, k, p[1]) && before[p[1]].status == Cancelled;
      }
    } else {
      k := PassReachesDoomPath(nodes, before, after, p[1..]);
    }
  }

  lemma PassShrinksCondemned(nodes: seq<NodeSpec>, before: seq<Task>, after: seq<Task>)
    requires PassedAll(nodes, before, after) && !SomeChild(before, Failed)
    ensures Condemned(nodes, after) <= Condemned(nodes, before)
    ensures Condemned(nodes, before) != {} ==> |Condemned(nodes, after)| < |Condemned(nodes, before)|
  {
    forall i | i in Condemned(nodes, after)
      ensures i in Condemned(nodes, before)
    {
      assert PassedChild(nodes, before, after, i);
      DoomedIsInvariant(nodes, before, after, i);
    }
    if i :| i in Condemned(nodes, before) {
      var p :| DoomPath(nodes, before, p) && p[0] == i;
      var k := PassReachesDoomPath(nodes, before, after, p);
      assert k !in Condemned(nodes, after);
      SubsetIsSmaller(Condemned(nodes, after), Condemned(nodes, before));
    }
  }

  /** In a list where dependencies come first, one pass cancels every doomed child. */
  lemma OnePassSuffices(nodes: seq<NodeSpec>, before: seq<Task>, after: seq<Task>)
    requires PassedAll(nodes, before, after) && DependenciesFirst(nodes)
    ensures Condemned(nodes, after) == {}
  {
    if i :| i in Condemned(nodes, after) {
      var p :| DoomPath(nodes, after, p) && p[0] == i;
      NoDoomPathLeft(nodes, before, after, p);
    }
  }

  lemma {:induction false} NoDoomPathLeft(nodes: seq<NodeSpec>, before: seq<Task>, after: seq<Task>, p: seq<nat>)
    requires PassedAll(nodes, before, after) && DependenciesFirst(nodes)
    requires DoomPath(nodes, after, p)
    ensures |p| == 1
    decreases |p|
  {
    if |p| >= 2 {
      DoomTail(nodes, after, p);
      NoDoomPathLeft(nodes, before, after, p[1..]);
      assert PassedChild(nodes, before, after, p[0]);
      assert p[1] < p[0] && after[p[1]].status == Cancelled;
      assert Blocked(nodes, before, after, p[0]);
    }
  }

  /* Polling. */

  function Polls(n: nat): (actions: seq<Action>)
    ensures |actions| == n
  {
    seq(n, _ => Poll)
  }

  /** Polling a run without failed children performs exactly one pass on them. */
  lemma PollIsPass(run: Run)
    requires Inv(run) && !SomeChild(run.children, Failed)
    ensures PassedAll(run.nodes, run.children, Next(run, Poll).children)
    ensures !SomeChild(Next(run, Poll).children, Failed)
  {
    PassKeepsInv(run);
    PassEffect(run.nodes, run.children);
    var after := Pass(run.nodes, run.children, 0).children;
    if !ActiveRun(run.status) {
      assert forall i | 0 <= i < |run.children| :: Terminal(run.children[i].status);
      forall i | 0 <= i < |after|
        ensures after[i] == run.children[i]
      {
        assert PassedChild(run.nodes, run.children, after, i);
      }
      assert after == run.children;
    }
    assert Next(run, Poll).children == after;
    forall i | 0 <= i < |after|
      ensures after[i].status != Failed
    {
      assert PassedChild(run.nodes, run.children, after, i);
    }
  }

  lemma {:induction false} PollingKeepsDoom(run: Run, n: nat, i: nat)
    requires Inv(run) && !SomeChild(run.children, Failed)
    ensures Doomed(run.nodes, run.children, i) <==> Doomed(run.nodes, Execute(run, Polls(n)).children, i)
    decreases n
  {
    if n > 0 {
      assert Polls(n)[0] == Poll && Polls(n)[1..] == Polls(n - 1);
      PollIsPass(run);
      StepKeepsInv(run, Poll);
      DoomedIsInvariant(run.nodes, run.children, Next(run, Poll).children, i);
      PollingKeepsDoom(Next(run, Poll), n - 1, i);
    }
  }

  /** Each poll cancels at least one of the children still to be cancelled. */
  lemma {:induction false} PollingShrinksCondemned(run: Run, n: nat)
    requires Inv(run) && !SomeChild(run.children, Failed)
    requires n >= |Condemned(run.nodes, run.children)|
    ensures Condemned(run.nodes, Execute(run, Polls(n)).children) == {}
    decreases n
  {
    if n > 0 {
      var next := Next(run, Poll);
      assert Polls(n)[0] == Poll && Polls(n)[1..] == Polls(n - 1);
      PollIsPass(run);
      StepKeepsInv(run, Poll);
      PassShrinksCondemned(run.nodes, run.children, next.children);
      PollingShrinksCondemned(next, n - 1);
    }
  }

  /** Polling alone, as many times as there are children, cancels exactly the children that were cancelled or
      waited, directly or transitively, for a cancelled one. */
  lemma CascadeIsExact(run: Run, polls: nat, i: nat)
    requires Inv(run) && !SomeChild(run.children, Failed)
    requires polls >= |run.children| && i < |run.children|
    ensures Execute(run, Polls(polls)).children[i].status == Cancelled <==> Doomed(run.nodes, run.children, i)
  {
    var last := Execute(run, Polls(polls));
    CondemnedSize(run.nodes, run.children);
    PollingShrinksCondemned(run, polls);
    PollingKeepsDoom(run, polls, i);
    if last.children[i].status == Cancelled {
      DoomedCancelled(run.nodes, last.children, i);
    } else if Doomed(run.nodes, last.children, i) {
      DoomedNotCondemned(run.nodes, last.children, i);
    }
  }

  /** With dependencies listed first a single poll does it. */
  lemma CascadeInOnePoll(run: Run, i: nat)
    requires Inv(run) && !SomeChild(run.children, Failed) && DependenciesFirst(run.nodes) && i < |run.children|
    ensures Next(run, Poll).children[i].status == Cancelled <==> Doomed(run.nodes, run.children, i)
  {
    var after := Next(run, Poll).children;
    PollIsPass(run);
    OnePassSuffices(run.nodes, run.children, after);
    DoomedIsInvariant(run.nodes, run.children, after, i);
    if after[i].status == Cancelled {
      DoomedCancelled(run.nodes, after, i);
    } else if Doomed(run.nodes, after, i) {
      DoomedNotCondemned(run.nodes, after, i);
    }
  }

  /* The same children listed in another order. */

  /** `where[i]` is the position in the second list of child `i` of the first. */
  ghost predicate Relisted(nodes: seq<NodeSpec>, children: seq<Task>, nodes': seq<NodeSpec>, children': seq<Task>,
                           position: seq<nat>) {
    && |nodes| == |children| == |position|
    && |nodes'| == |children'|
    && forall i | 0 <= i < |nodes| ::
         position[i] < |nodes'| && nodes'[position[i]] == nodes[i] && children'[position[i]] == children[i]
  }

  lemma DoomPathRelisted(nodes: seq<NodeSpec>, children: seq<Task>, nodes': seq<NodeSpec>, children': seq<Task>,
                         position: seq<nat>, i: nat)
    requires Relisted(nodes, children, nodes', children', position) && i < |nodes|
    requires Doomed(nodes, children, i)
    ensures Doomed(nodes', children', position[i])
  {
    var p :| DoomPath(nodes, children, p) && p[0] == i;
    var p' := seq(|p|, k requires 0 <= k < |p| => position[p[k]]);
    forall k | 0 <= k < |p'| - 1
      ensures Edge(nodes', p'[k], p'[k + 1]) && children'[p'[k]].status == WaitingChild
    {
      assert Edge(nodes, p[k], p[k + 1]);
    }
    assert DoomPath(nodes', children', p') && p'[0] == position[i];
  }

  /** The order of the children in the list has no influence on which of them end up cancelled. */
  lemma CascadeIgnoresOrder(run: Run, run': Run, position: seq<nat>, back: seq<nat>, i: nat)
    requires Inv(run) && Inv(run') && !SomeChild(run.children, Failed) && !SomeChild(run'.children, Failed)
    requires Relisted(run.nodes, run.children, run'.nodes, run'.children, position)
    requires Relisted(run'.nodes, run'.children, run.nodes, run.children, back)
    requires i < |run.children|
    ensures Execute(run, Polls(|run.children|)).children[i].status == Cancelled <==>
            Execute(run', Polls(|run'.children|)).children[position[i]].status == Cancelled
  {
    var j := position[i];
    CascadeIsExact(run, |run.children|, i);
    CascadeIsExact(run', |run'.children|, j);
    if Doomed(run.nodes, run.children, i) {
      DoomPathRelisted(run.nodes, run.children, run'.nodes, run'.children, position, i);
    }
    if Doomed(run'.nodes, run'.children, j) {
      DoomPathRelisted(run'.nodes, run'.children, run.nodes, run.children, back, j);
      assert run.nodes[back[j]].key == run.nodes[i].key;
    }
  }
}
