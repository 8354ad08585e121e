/** Workflow definitions and the depth-first validator that accepts or rejects them. */
module Options {
  datatype Option<+T> = None | Some(value: T)
}

module WorkflowDag {
  import opened Options

  datatype NodeType = AgentNode | ToolNode | SkillNode | ConditionNode | HumanApproval

  /** One node of a workflow. An empty `agentId` stands for an absent one. */
  datatype NodeSpec = NodeSpec(key: string, nodeType: NodeType, agentId: string, dependsOn: seq<string>)

  datatype DagError = DuplicateKeys | UnknownDependency(key: string) | CycleFound

  datatype Verdict = Accepted | Rejected(error: DagError)

  /** Each key with its dependencies. */
  type Graph = map<string, seq<string>>

  predicate UniqueKeys(nodes: seq<NodeSpec>) {
    forall i, j | 0 <= i < j < |nodes| :: nodes[i].key != nodes[j].key
  }

  predicate KnownDependencies(nodes: seq<NodeSpec>) {
    forall i, d | 0 <= i < |nodes| && d in nodes[i].dependsOn :: exists j | 0 <= j < |nodes| :: nodes[j].key == d
  }

  /** The dictionary from keys to nodes; a repeated key keeps its last node. */
  function GraphOf(nodes: seq<NodeSpec>): Graph {
    if nodes == [] then map[]
    else
      var last := nodes[|nodes| - 1];
      GraphOf(nodes[..|nodes| - 1])[last.key := last.dependsOn]
  }

  ghost predicate Closed(g: Graph) {
    forall k, d | k in g && d in g[k] :: d in g
  }

  /** A walk follows dependency edges through known keys. */
  ghost predicate Walk(g: Graph, p: seq<string>) {
    && p != []
    && (forall i | 0 <= i < |p| :: p[i] in g)
    && (forall i | 0 <= i < |p| - 1 :: p[i + 1] in g[p[i]])
  }

  ghost predicate HasCycle(g: Graph) {
    exists p :: IsCycle(g, p)
  }

  ghost predicate IsCycle(g: Graph, p: seq<string>) {
    Walk(g, p) && |p| >= 2 && p[0] == p[|p| - 1]
  }

  /** A rank that decreases along every dependency edge. */
  ghost predicate Ranked(g: Graph, rank: map<string, nat>) {
    && rank.Keys == g.Keys
    && forall k, d | k in g && d in g[k] :: d in rank && rank[d] < rank[k]
  }

  /* The depth-first search. `visiting` holds the keys on the current path and `order` the finished
     keys, in the order in which they were finished. */

  function Visit(g: Graph, key: string, visiting: set<string>, order: seq<string>): Option<seq<string>>
    requires Closed(g) && key in g && visiting <= g.Keys
    decreases |g.Keys - visiting|, 0
  {
    if key in order then Some(order)
    else if key in visiting then None
    else
      assert g.Keys - (visiting + {key}) < g.Keys - visiting by {
        assert key in g.Keys - visiting;
      }
      SubsetIsSmaller(g.Keys - (visiting + {key}), g.Keys - visiting);
      match VisitAll(g, g[key], visiting + {key}, order)
      case None => None
      case Some(finished) => Some(finished + [key])
  }

  function VisitAll(g: Graph, keys: seq<string>, visiting: set<string>, order: seq<string>): Option<seq<string>>
    requires Closed(g) && (forall k | k in keys :: k in g) && visiting <= g.Keys
    decreases |g.Keys - visiting|, |keys| + 1
  {
    if keys == [] then Some(order)
    else
      match Visit(g, keys[0], visiting, order)
      case None => None
      case Some(finished) => VisitAll(g, keys[1..], visiting, finished)
  }

  function Elements(s: seq<string>): set<string> {
    set k | k in s
  }

  lemma SubsetIsSmaller<T>(a: set<T>, b: set<T>)
    requires a < b
    ensures |a| < |b|
  {
    assert b == a + (b - a);
    assert |b| == |a| + |b - a|;
    assert b - a != {};
  }

  lemma VisitAllSplits(g: Graph, front: seq<string>, key: string, visiting: set<string>, order: seq<string>)
    requires Closed(g) && (forall k | k in front + [key] :: k in g) && visiting <= g.Keys
    ensures forall k | k in front :: k in g
    ensures VisitAll(g, front + [key], visiting, order) ==
            (match VisitAll(g, front, visiting, order)
             case None => None
             case Some(finished) =>
               assert key in front + [key];
               Visit(g, key, visiting, finished))
    decreases |front|
  {
    assert forall k | k in front :: k in front + [key];
    assert key in front + [key];
    var keys := front + [key];
    if front == [] {
      assert keys == [key] && keys[1..] == [];
    } else {
      assert keys[0] == front[0] && keys[1..] == front[1..] + [key];
      assert forall k | k in front[1..] + [key] :: k in keys;
      match Visit(g, keys[0], visiting, order)
      case None =>
      case Some(finished) => VisitAllSplits(g, front[1..], key, visiting, finished);
    }
  }

  /** Every finished key comes after all of its dependencies. */
  ghost predicate Topological(g: Graph, order: seq<string>) {
    forall i | 0 <= i < |order| ::
      order[i] in g && forall d | d in g[order[i]] :: d in order[..i]
  }

  lemma {:induction false} VisitFinishes(g: Graph, key: string, visiting: set<string>, order: seq<string>)
    requires Closed(g) && key in g && visiting <= g.Keys && Topological(g, order)
    requires Visit(g, key, visiting, order).Some?
    ensures var finished := Visit(g, key, visiting, order).value;
            order <= finished && key in finished && Topological(g, finished)
    decreases |g.Keys - visiting|, 0
  {
    if key !in order && key !in visiting {
      assert key in g.Keys - visiting;
      SubsetIsSmaller(g.Keys - (visiting + {key}), g.Keys - visiting);
      VisitAllFinishes(g, g[key], visiting + {key}, order);
      var inner := VisitAll(g, g[key], visiting + {key}, order).value;
      var finished := inner + [key];
      forall i | 0 <= i < |finished|
        ensures finished[i] in g && forall d | d in g[finished[i]] :: d in finished[..i]
      {
        if i < |inner| {
          assert finished[..i] == inner[..i];
        } else {
          assert finished[..i] == inner;
        }
      }
    }
  }

  lemma {:induction false} VisitAllFinishes(g: Graph, keys: seq<string>, visiting: set<string>, order: seq<string>)
    requires Closed(g) && (forall k | k in keys :: k in g) && visiting <= g.Keys && Topological(g, order)
    requires VisitAll(g, keys, visiting, order).Some?
    ensures var finished := VisitAll(g, keys, visiting, order).value;
            order <= finished && (forall k | k in keys :: k in finished) && Topological(g, finished)
    decreases |g.Keys - visiting|, |keys| + 1
  {
    if keys != [] {
      VisitFinishes(g, keys[0], visiting, order);
      VisitAllFinishes(g, keys[1..], visiting, Visit(g, keys[0], visiting, order).value);
      assert keys == [keys[0]] + keys[1..];
    }
  }

  /** When the search gives up, the current path closes into a cycle. */
  lemma {:induction false} VisitFailureIsCycle(g: Graph, key: string, path: seq<string>, order: seq<string>)
    requires Closed(g) && key in g && Walk(g, path + [key])
    requires Elements(path) <= g.Keys
    requires Visit(g, key, Elements(path), order).None?
    ensures HasCycle(g)
    decreases |g.Keys - Elements(path)|, 0
  {
    var visiting := Elements(path);
    if key in visiting {
      var i :| 0 <= i < |path| && path[i] == key;
      var p := path[i..] + [key];
      assert p == (path + [key])[i..];
      assert IsCycle(g, p);
    } else {
      assert key in g.Keys - visiting;
      SubsetIsSmaller(g.Keys - (visiting + {key}), g.Keys - visiting);
      var longer := path + [key];
      assert Elements(longer) == visiting + {key};
      VisitAllFailureIsCycle(g, g[key], longer, order);
    }
  }

  lemma {:induction false} VisitAllFailureIsCycle(g: Graph, keys: seq<string>, path: seq<string>, order: seq<string>)
    requires Closed(g) && Walk(g, path) && (forall k | k in keys :: k in g && k in g[path[|path| - 1]])
    requires Elements(path) <= g.Keys
    requires VisitAll(g, keys, Elements(path), order).None?
    ensures HasCycle(g)
    decreases |g.Keys - Elements(path)|, |keys| + 1
  {
    assert keys != [];
    var visiting := Elements(path);
    match Visit(g, keys[0], visiting, order)
    case None =>
      assert keys[0] in keys;
      VisitFailureIsCycle(g, keys[0], path, order);
    case Some(finished) =>
      VisitAllFailureIsCycle(g, keys[1..], path, finished);
  }

  /** The search started from scratch for every key in turn, with an empty path. */
  lemma {:induction false} RootSearchFailureIsCycle(g: Graph, keys: seq<string>, order: seq<string>)
    requires Closed(g) && (forall k | k in keys :: k in g)
    requires VisitAll(g, keys, {}, order).None?
    ensures HasCycle(g)
    decreases |keys|
  {
    assert keys != [];
    match Visit(g, keys[0], {}, order)
    case None =>
      assert Elements([]) == {};
      assert [] + [keys[0]] == [keys[0]];
      VisitFailureIsCycle(g, keys[0], [], order);
    case Some(finished) => RootSearchFailureIsCycle(g, keys[1..], finished);
  }

  function FirstIndex(order: seq<string>, key: string): (i: nat)
    requires key in order
    ensures i < |order| && order[i] == key && key !in order[..i]
  {
    if order[0] == key then 0 else 1 + FirstIndex(order[1..], key)
  }

  /** A finished order of all keys is a rank. */
  lemma TopologicalGivesRank(g: Graph, order: seq<string>) returns (rank: map<string, nat>)
    requires Topological(g, order) && forall k | k in g :: k in order
    ensures Ranked(g, rank)
  {
    rank := map k | k in g :: FirstIndex(order, k);
    forall k, d | k in g && d in g[k]
      ensures d in rank && rank[d] < rank[k]
    {
      var i := FirstIndex(order, k);
      assert order[i] == k && d in order[..i];
      var j :| 0 <= j < i && order[j] == d;
      assert forall m | 0 <= m < FirstIndex(order, d) :: order[..FirstIndex(order, d)][m] != d;
    }
  }

  lemma {:induction false} RankDecreasesAlongWalk(g: Graph, rank: map<string, nat>, p: seq<string>)
    requires Ranked(g, rank) && Walk(g, p) && |p| >= 2
    ensures p[|p| - 1] in rank && p[0] in rank && rank[p[|p| - 1]] < rank[p[0]]
    decreases |p|
  {
    assert p[0 + 1] in g[p[0]];
    if |p| > 2 {
      var rest := p[1..];
      forall i | 0 <= i < |rest| - 1
        ensures rest[i + 1] in g[rest[i]]
      {
        assert rest[i] == p[i + 1] && p[(i + 1) + 1] in g[p[i + 1]];
      }
      RankDecreasesAlongWalk(g, rank, rest);
    }
  }

  /** A graph closed under dependencies has a rank exactly when it has no cycle. */
  lemma AcyclicIffRanked(g: Graph, keys: seq<string>)
    requires Closed(g) && g.Keys == Elements(keys)
    ensures !HasCycle(g) <==> exists rank :: Ranked(g, rank)
    ensures !HasCycle(g) <==> VisitAll(g, keys, {}, []).Some?
  {
    assert forall k | k in keys :: k in g.Keys;
    if VisitAll(g, keys, {}, []).Some? {
      VisitAllFinishes(g, keys, {}, []);
      var rank := TopologicalGivesRank(g, VisitAll(g, keys, {}, []).value);
      assert Ranked(g, rank);
    } else {
      RootSearchFailureIsCycle(g, keys, []);
    }
    forall rank, p | Ranked(g, rank) && IsCycle(g, p)
      ensures false
    {
      RankDecreasesAlongWalk(g, rank, p);
    }
  }

  /** The dictionary holds exactly the keys of the definition, each with the dependencies of some node. */
  lemma GraphOfKeys(nodes: seq<NodeSpec>)
    ensures forall i | 0 <= i < |nodes| :: nodes[i].key in GraphOf(nodes)
    ensures forall k | k in GraphOf(nodes) ::
              exists i | 0 <= i < |nodes| :: nodes[i].key == k && GraphOf(nodes)[k] == nodes[i].dependsOn
  {
    if nodes != [] {
      var front, last := nodes[..|nodes| - 1], nodes[|nodes| - 1];
      GraphOfKeys(front);
      forall i | 0 <= i < |nodes|
        ensures nodes[i].key in GraphOf(nodes)
      {
        if i < |front| { assert nodes[i] == front[i]; }
      }
      forall k | k in GraphOf(nodes)
        ensures exists i | 0 <= i < |nodes| :: nodes[i].key == k && GraphOf(nodes)[k] == nodes[i].dependsOn
      {
        if k == last.key {
          assert nodes[|nodes| - 1].key == k;
        } else {
          var i :| 0 <= i < |front| && front[i].key == k && GraphOf(front)[k] == front[i].dependsOn;
          assert nodes[i] == front[i];
        }
      }
    }
  }

  lemma UniqueKeysSplit(front: seq<NodeSpec>, last: NodeSpec)
    ensures UniqueKeys(front + [last]) <==> UniqueKeys(front) && last.key !in GraphOf(front)
  {
    GraphOfKeys(front);
    var nodes := front + [last];
    if UniqueKeys(nodes) {
      forall i, j | 0 <= i < j < |front|
        ensures front[i].key != front[j].key
      {
        assert nodes[i] == front[i] && nodes[j] == front[j];
      }
      assert nodes[|front|] == last;
      assert forall i | 0 <= i < |front| :: front[i] == nodes[i] && nodes[i].key != last.key;
    } else {
      var i, j :| 0 <= i < j < |nodes| && nodes[i].key == nodes[j].key;
      assert nodes[i] == front[i];
      assert j < |front| ==> nodes[j] == front[j];
    }
  }

  /** Building the dictionary loses entries exactly when a key is repeated. */
  lemma {:induction false} GraphSize(nodes: seq<NodeSpec>)
    ensures |GraphOf(nodes)| <= |nodes|
    ensures UniqueKeys(nodes) <==> |GraphOf(nodes)| == |nodes|
  {
    if nodes != [] {
      var front, last := nodes[..|nodes| - 1], nodes[|nodes| - 1];
      GraphSize(front);
      assert nodes == front + [last];
      UniqueKeysSplit(front, last);
      var g := GraphOf(front);
      var grown := g[last.key := last.dependsOn];
      assert grown.Keys == g.Keys + {last.key};
      assert |grown| == |grown.Keys| && |g| == |g.Keys|;
      if last.key in g { assert grown.Keys == g.Keys; }
    }
  }

  lemma GraphLookup(nodes: seq<NodeSpec>, i: nat)
    requires UniqueKeys(nodes) && i < |nodes|
    ensures nodes[i].key in GraphOf(nodes) && GraphOf(nodes)[nodes[i].key] == nodes[i].dependsOn
  {
    GraphOfKeys(nodes);
    var j :| 0 <= j < |nodes| && nodes[j].key == nodes[i].key && GraphOf(nodes)[nodes[i].key] == nodes[j].dependsOn;
  }

  /** What the engine may assume of a stored definition. */
  ghost predicate ValidDefinition(nodes: seq<NodeSpec>) {
    UniqueKeys(nodes) && KnownDependencies(nodes) && !HasCycle(GraphOf(nodes))
  }

  lemma KnownDependenciesClose(nodes: seq<NodeSpec>)
    requires KnownDependencies(nodes)
    ensures Closed(GraphOf(nodes))
  {
    GraphOfKeys(nodes);
    var g := GraphOf(nodes);
    forall k, d | k in g && d in g[k]
      ensures d in g
    {
      var i :| 0 <= i < |nodes| && nodes[i].key == k && g[k] == nodes[i].dependsOn;
      var j :| 0 <= j < |nodes| && nodes[j].key == d;
    }
  }

  function KeysOf(nodes: seq<NodeSpec>): (keys: seq<string>)
    ensures |keys| == |nodes| && forall i | 0 <= i < |nodes| :: keys[i] == nodes[i].key
  {
    seq(|nodes|, i requires 0 <= i < |nodes| => nodes[i].key)
  }

  /** `visit` and the two sets it mutates. `order` records the finished keys. */
  class CycleFinder {
    const graph: Graph
    var visiting: set<string>
    var visited: set<string>
    ghost var order: seq<string>

    constructor (graph: Graph)
      requires Closed(graph)
      ensures this.graph == graph && Valid() && visiting == {} && order == []
    {
      this.graph := graph;
      visiting, visited, order := {}, {}, [];
    }

    ghost predicate Valid()
      reads this
    {
      Closed(graph) && visiting <= graph.Keys && visited == Elements(order)
    }

    /** False when the search ran into a key on its own path. */
    method Search(key: string) returns (acyclic: bool)
      requires Valid() && key in graph
      modifies this
      ensures acyclic <==> Visit(graph, key, old(visiting), old(order)).Some?
      ensures acyclic ==> Valid() && visiting == old(visiting)
      ensures acyclic ==> order == Visit(graph, key, old(visiting), old(order)).value
      decreases |graph.Keys - visiting|
    {
      if key in visited { return true; }
      if key in visiting { return false; }
      ghost var path := visiting + {key};
      assert key in graph.Keys - visiting;
      SubsetIsSmaller(graph.Keys - path, graph.Keys - visiting);
      visiting := visiting + {key};
      var dependencies := graph[key];
      for i := 0 to |dependencies|
        invariant Valid() && visiting == path
        invariant VisitAll(graph, dependencies[..i], path, old(order)) == Some(order)
      {
        assert forall k | k in dependencies[..i + 1] :: k in dependencies;
        assert dependencies[..i + 1] == dependencies[..i] + [dependencies[i]];
        VisitAllSplits(graph, dependencies[..i], dependencies[i], path, old(order));
        ghost var reached := order;
        acyclic := Search(dependencies[i]);
        if !acyclic {
          FailureSticks(graph, dependencies, i + 1, path, old(order));
          return false;
        }
      }
      assert dependencies[..|dependencies|] == dependencies;
      visiting := visiting - {key};
      visited := visited + {key};
      order := order + [key];
      assert visiting == old(visiting);
      return true;
    }
  }

  lemma FailureSticks(g: Graph, keys: seq<string>, n: nat, visiting: set<string>, order: seq<string>)
    requires Closed(g) && (forall k | k in keys :: k in g) && visiting <= g.Keys && n <= |keys|
    requires forall k | k in keys[..n] :: k in g
    requires VisitAll(g, keys[..n], visiting, order).None?
    ensures VisitAll(g, keys, visiting, order).None?
    decreases n
  {
    assert n > 0;
    assert keys[..n][0] == keys[0] && keys[..n][1..] == keys[1..][..n - 1];
    match Visit(g, keys[0], visiting, order)
    case None =>
    case Some(finished) => FailureSticks(g, keys[1..], n - 1, visiting, finished);
  }

  /** The first `n` nodes only name keys of the definition. */
  ghost predicate KnownWithin(nodes: seq<NodeSpec>, n: nat) {
    n <= |nodes| && forall i, d | 0 <= i < n && d in nodes[i].dependsOn :: d in GraphOf(nodes)
  }

  lemma KnownWithinAll(nodes: seq<NodeSpec>)
    ensures KnownWithin(nodes, |nodes|) <==> KnownDependencies(nodes)
  {
    GraphOfKeys(nodes);
    if KnownDependencies(nodes) {
      forall i, d | 0 <= i < |nodes| && d in nodes[i].dependsOn
        ensures d in GraphOf(nodes)
      {
        var j :| 0 <= j < |nodes| && nodes[j].key == d;
      }
    }
    if KnownWithin(nodes, |nodes|) {
      forall i, d | 0 <= i < |nodes| && d in nodes[i].dependsOn
        ensures exists j | 0 <= j < |nodes| :: nodes[j].key == d
      {
        assert GraphOf(nodes)[d] == GraphOf(nodes)[d];
      }
    }
  }

  method IndexByKey(nodes: seq<NodeSpec>) returns (byKey: Graph)
    ensures byKey == GraphOf(nodes)
  {
    byKey := map[];
    for i := 0 to |nodes|
      invariant byKey == GraphOf(nodes[..i])
    {
      assert nodes[..i + 1][..i] == nodes[..i];
      byKey := byKey[nodes[i].key := nodes[i].dependsOn];
    }
    assert nodes[..|nodes|] == nodes;
  }

  /** The first node with an unknown dependency, or the length of the list. */
  method FirstUnknown(nodes: seq<NodeSpec>, byKey: Graph) returns (bad: nat)
    requires byKey == GraphOf(nodes)
    ensures KnownWithin(nodes, bad)
    ensures bad < |nodes| ==> exists d | d in nodes[bad].dependsOn :: d !in byKey
  {
    for i := 0 to |nodes|
      invariant KnownWithin(nodes, i)
    {
      if exists d | d in nodes[i].dependsOn :: d !in byKey { return i; }
    }
    return |nodes|;
  }

  method SearchAll(byKey: Graph, keys: seq<string>) returns (acyclic: bool)
    requires Closed(byKey) && byKey.Keys == Elements(keys)
    ensures acyclic <==> !HasCycle(byKey)
  {
    AcyclicIffRanked(byKey, keys);
    assert forall k | k in keys :: k in byKey.Keys;
    var finder := new CycleFinder(byKey);
    for i := 0 to |keys|
      invariant finder.Valid() && finder.graph == byKey && finder.visiting == {} && fresh(finder)
      invariant VisitAll(byKey, keys[..i], {}, []) == Some(finder.order)
    {
      assert keys[..i + 1] == keys[..i] + [keys[i]];
      assert forall k | k in keys[..i + 1] :: k in keys;
      VisitAllSplits(byKey, keys[..i], keys[i], {}, []);
      acyclic := finder.Search(keys[i]);
      if !acyclic {
        FailureSticks(byKey, keys, i + 1, {}, []);
        return false;
      }
    }
    assert keys[..|keys|] == keys;
    return true;
  }

  lemma GraphKeysAreKeysOf(nodes: seq<NodeSpec>)
    ensures GraphOf(nodes).Keys == Elements(KeysOf(nodes))
  {
    GraphOfKeys(nodes);
    var keys := KeysOf(nodes);
    forall k | k in GraphOf(nodes)
      ensures k in keys
    {
      var i :| 0 <= i < |nodes| && nodes[i].key == k;
      assert keys[i] == k;
    }
  }

  /** Accepts exactly the definitions with unique keys, known dependencies and no cycle, and names the
      first failed requirement otherwise. */
  method ValidateWorkflowDag(nodes: seq<NodeSpec>) returns (verdict: Verdict)
    ensures verdict.Accepted? <==> ValidDefinition(nodes)
    ensures verdict == Rejected(DuplicateKeys) <==> !UniqueKeys(nodes)
    ensures verdict == Rejected(CycleFound) <==>
            UniqueKeys(nodes) && KnownDependencies(nodes) && HasCycle(GraphOf(nodes))
    ensures verdict.Rejected? && verdict.error.UnknownDependency? ==>
            exists i | 0 <= i < |nodes| ::
              && nodes[i].key == verdict.error.key
              && KnownWithin(nodes, i)
              && !KnownWithin(nodes, i + 1)
  {
    var byKey := IndexByKey(nodes);
    GraphSize(nodes);
    if |byKey| != |nodes| { return Rejected(DuplicateKeys); }
    KnownWithinAll(nodes);
    var bad := FirstUnknown(nodes, byKey);
    if bad < |nodes| {
      assert nodes[bad].key == nodes[bad].key && !KnownWithin(nodes, bad + 1);
      return Rejected(UnknownDependency(nodes[bad].key));
    }
    KnownDependenciesClose(nodes);
    GraphKeysAreKeysOf(nodes);
    var acyclic := SearchAll(byKey, KeysOf(nodes));
    return if acyclic then Accepted else Rejected(CycleFound);
  }
}
