/** The rows a submission creates, for a workflow definition and for a plain team. */
module WorkflowSubmission {
  import opened Options
  import opened WorkflowDag
  import opened WorkflowRun
  import opened Reconcile
  import opened WorkflowEngine

  datatype Member = Member(agentId: string, active: bool)

  datatype SubmitError = NoNodes | UnavailableAgent(key: string)

  datatype Submitted = Started(run: Run) | Refused(error: SubmitError)

  function InitialStatus(node: NodeSpec): TaskStatus {
    if node.nodeType == HumanApproval && node.dependsOn == [] then HumanReview
    else if node.dependsOn != [] then WaitingChild
    else Pending
  }

  /** The rows of a submitted workflow. */
  function WorkflowRows(nodes: seq<NodeSpec>, agents: seq<string>, maxAttempts: nat): Run
    requires |nodes| == |agents|
  {
    Run(nodes, agents, maxAttempts, NewTask(WaitingChild),
        seq(|nodes|, i requires 0 <= i < |nodes| => NewTask(InitialStatus(nodes[i]))),
        if exists i | 0 <= i < |nodes| :: nodes[i].nodeType == HumanApproval && nodes[i].dependsOn == []
        then RunHumanReview else RunRunning,
        None, None, 0)
  }

  /** A node without an agent of its own runs on the team's owner. */
  function ResolvedAgent(node: NodeSpec, owner: string): string {
    if node.agentId != "" then node.agentId else owner
  }

  /** Submission checks every node's agent, then creates all rows. `team` maps member agents to activity. */
  function SubmitWorkflow(nodes: seq<NodeSpec>, owner: string, team: map<string, bool>, maxAttempts: nat): Submitted {
    if nodes == [] then Refused(NoNodes)
    else
      match FirstUnavailable(nodes, owner, team)
      case Some(key) => Refused(UnavailableAgent(key))
      case None =>
        Started(WorkflowRows(nodes, seq(|nodes|, i requires 0 <= i < |nodes| => ResolvedAgent(nodes[i], owner)),
                             maxAttempts))
  }

  function FirstUnavailable(nodes: seq<NodeSpec>, owner: string, team: map<string, bool>): (r: Option<string>)
    ensures r.None? <==> forall i | 0 <= i < |nodes| ::
              ResolvedAgent(nodes[i], owner) in team && team[ResolvedAgent(nodes[i], owner)]
  {
    if nodes == [] then None
    else
      var agent := ResolvedAgent(nodes[0], owner);
      if agent !in team || !team[agent] then Some(nodes[0].key)
      else
        assert nodes == [nodes[0]] + nodes[1..];
        FirstUnavailable(nodes[1..], owner, team)
  }

  /** The members that get a task: active ones other than the owner. `members` is in submission order. */
  function Participants(members: seq<Member>, owner: string): (agents: seq<string>)
    ensures forall a | a in agents :: exists m | m in members :: m.agentId == a && m.active && a != owner
  {
    if members == [] then []
    else
      var rest := Participants(members[1..], owner);
      if members[0].agentId == owner || !members[0].active then rest else [members[0].agentId] + rest
  }

  function TeamNodes(agents: seq<string>): (nodes: seq<NodeSpec>)
    ensures |nodes| == |agents|
  {
    seq(|agents|, i requires 0 <= i < |agents| => NodeSpec("member-" + agents[i], AgentNode, agents[i], []))
  }

  function SubmitTeam(members: seq<Member>, owner: string, maxAttempts: nat): Run {
    var agents := Participants(members, owner);
    var nodes := TeamNodes(agents);
    var rows := WorkflowRows(nodes, agents, maxAttempts);
    if agents == [] then rows.(root := NewTask(Pending)) else rows
  }

  /** A workflow accepted by the validator starts a run that satisfies the invariant. */
  lemma SubmittedWorkflowIsSound(nodes: seq<NodeSpec>, owner: string, team: map<string, bool>, maxAttempts: nat)
    requires ValidDefinition(nodes) && maxAttempts >= 1
    ensures SubmitWorkflow(nodes, owner, team, maxAttempts).Started? <==>
            nodes != [] && forall i | 0 <= i < |nodes| ::
              ResolvedAgent(nodes[i], owner) in team && team[ResolvedAgent(nodes[i], owner)]
    ensures SubmitWorkflow(nodes, owner, team, maxAttempts).Started? ==>
            Inv(SubmitWorkflow(nodes, owner, team, maxAttempts).run)
  {
    if nodes != [] {
      var agents := seq(|nodes|, i requires 0 <= i < |nodes| => ResolvedAgent(nodes[i], owner));
      RowsAreSound(nodes, agents, maxAttempts);
    }
  }

  lemma RowsAreSound(nodes: seq<NodeSpec>, agents: seq<string>, maxAttempts: nat)
    requires |nodes| == |agents| && nodes != [] && ValidDefinition(nodes) && maxAttempts >= 1
    ensures Inv(WorkflowRows(nodes, agents, maxAttempts))
  {
    var run := WorkflowRows(nodes, agents, maxAttempts);
    forall i, j | Edge(nodes, i, j)
      ensures !Released(run.children[i])
    {
      assert nodes[i].dependsOn != [];
    }
  }

  predicate Distinct(agents: seq<string>) {
    forall i, j | 0 <= i < j < |agents| :: agents[i] != agents[j]
  }

  lemma DistinctCons(first: string, rest: seq<string>)
    requires Distinct(rest) && first !in rest
    ensures Distinct([first] + rest)
  {
  }

  predicate DistinctMembers(members: seq<Member>) {
    forall i, j | 0 <= i < j < |members| :: members[i].agentId != members[j].agentId
  }

  lemma {:induction false} ParticipantsAreDistinct(members: seq<Member>, owner: string)
    requires DistinctMembers(members)
    ensures Distinct(Participants(members, owner))
    decreases |members|
  {
    if members != [] {
      var rest := Participants(members[1..], owner);
      ParticipantsAreDistinct(members[1..], owner);
      DistinctCons(members[0].agentId, rest);
    }
  }

  lemma MemberKey(agent: string)
    ensures ("member-" + agent)[7..] == agent
  {
  }

  /** A team without repeated members starts a run that satisfies the invariant; its nodes form a valid
      definition. */
  lemma SubmittedTeamIsSound(members: seq<Member>, owner: string, maxAttempts: nat)
    requires DistinctMembers(members)
    requires maxAttempts >= 1
    ensures Inv(SubmitTeam(members, owner, maxAttempts))
  {
    var agents := Participants(members, owner);
    var nodes := TeamNodes(agents);
    ParticipantsAreDistinct(members, owner);
    forall i, j | 0 <= i < j < |nodes|
      ensures nodes[i].key != nodes[j].key
    {
      MemberKey(agents[i]);
      MemberKey(agents[j]);
      assert agents[i] != agents[j];
    }
    IndependentNodesAreValid(nodes);
    if agents != [] { RowsAreSound(nodes, agents, maxAttempts); }
  }

  lemma IndependentNodesAreValid(nodes: seq<NodeSpec>)
    requires UniqueKeys(nodes) && forall i | 0 <= i < |nodes| :: nodes[i].dependsOn == []
    ensures ValidDefinition(nodes)
  {
    var g := GraphOf(nodes);
    GraphOfKeys(nodes);
    KnownDependenciesClose(nodes);
    GraphKeysAreKeysOf(nodes);
    AcyclicIffRanked(g, KeysOf(nodes));
    var rank := map k | k in g :: 0;
    assert Ranked(g, rank);
  }

  /* What is started. */

  /** A node's own agent, or the owner of the team for a node that names none, is an active member of the team. */
  predicate Staffed(node: NodeSpec, owner: string, team: map<string, bool>) {
    if |node.agentId| > 0 then node.agentId in team && team[node.agentId] else owner in team && team[owner]
  }

  lemma {:induction false} FirstUnavailableIs(nodes: seq<NodeSpec>, owner: string, team: map<string, bool>)
    ensures var r := FirstUnavailable(nodes, owner, team);
            && (r.None? <==> forall i | 0 <= i < |nodes| :: Staffed(nodes[i], owner, team))
            && (r.Some? ==>
                  exists i | 0 <= i < |nodes| ::
                    && nodes[i].key == r.value && !Staffed(nodes[i], owner, team)
                    && forall j | 0 <= j < i :: Staffed(nodes[j], owner, team))
  {
    if nodes == [] {
    } else {
      FirstUnavailableIs(nodes[1..], owner, team);
      if Staffed(nodes[0], owner, team) {
        var r := FirstUnavailable(nodes[1..], owner, team);
        if r.Some? {
          var i :| 0 <= i < |nodes[1..]| && nodes[1..][i].key == r.value && !Staffed(nodes[1..][i], owner, team)
                   && forall j | 0 <= j < i :: Staffed(nodes[1..][j], owner, team);
          assert nodes[i + 1] == nodes[1..][i];
          assert forall j | 1 <= j < i + 1 :: nodes[j] == nodes[1..][j - 1];
        } else {
          assert forall j | 1 <= j < |nodes| :: nodes[j] == nodes[1..][j - 1];
        }
      }
    }
  }

  /** The first task of every node, as the definition promises it: approvals without dependencies wait for their
      approver, everything else without dependencies for a worker, and the rest for its dependencies. */
  predicate StartsAs(node: NodeSpec, t: Task) {
    && t.attempt == 0 && t.output == None && t.worker == NoWorker && t.session == t.execution == RowQueued
    && (t.status == WaitingChild <==> |node.dependsOn| > 0)
    && (t.status == HumanReview <==> |node.dependsOn| == 0 && node.nodeType == HumanApproval)
    && (t.status == Pending <==> |node.dependsOn| == 0 && node.nodeType != HumanApproval)
  }

  /** When a workflow is started, what it then consists of, and which node is named when it is not. */
  lemma SubmissionOutcome(nodes: seq<NodeSpec>, owner: string, team: map<string, bool>, maxAttempts: nat)
    ensures var r := SubmitWorkflow(nodes, owner, team, maxAttempts);
            && (r == Refused(NoNodes) <==> |nodes| == 0)
            && (r.Started? <==> |nodes| > 0 && forall i | 0 <= i < |nodes| :: Staffed(nodes[i], owner, team))
            && (forall key | r == Refused(UnavailableAgent(key)) ::
                  exists i | 0 <= i < |nodes| ::
                    && nodes[i].key == key && !Staffed(nodes[i], owner, team)
                    && forall j | 0 <= j < i :: Staffed(nodes[j], owner, team))
            && (r.Started? ==>
                  && r.run.nodes == nodes && |r.run.agents| == |r.run.children| == |nodes|
                  && (forall i | 0 <= i < |nodes| ::
                        && r.run.agents[i] == (if |nodes[i].agentId| > 0 then nodes[i].agentId else owner)
                        && StartsAs(nodes[i], r.run.children[i]))
                  && r.run.root.status == WaitingChild && r.run.maxAttempts == maxAttempts && r.run.owed == 0
                  && (r.run.status == RunHumanReview <==> SomeChild(r.run.children, HumanReview))
                  && (r.run.status == RunRunning <==> !SomeChild(r.run.children, HumanReview)))
  {
    FirstUnavailableIs(nodes, owner, team);
  }

  lemma {:induction false} ParticipantsAre(members: seq<Member>, owner: string, agent: string)
    ensures agent in Participants(members, owner) <==> agent != owner && Member(agent, true) in members
    decreases |members|
  {
    if members == [] {
    } else {
      ParticipantsAre(members[1..], owner, agent);
      assert Member(agent, true) in members <==>
             Member(agent, true) == members[0] || Member(agent, true) in members[1..];
    }
  }

  lemma ParticipantsCons(first: Member, rest: seq<Member>, owner: string)
    ensures Participants([first] + rest, owner) ==
            (if first.active && first.agentId != owner then [first.agentId] else []) + Participants(rest, owner)
  {
    assert ([first] + rest)[1..] == rest;
  }

  /** The active members other than the owner take part, in their order and each as often as it is listed. */
  lemma {:induction false} ParticipantsInOrder(front: seq<Member>, back: seq<Member>, owner: string)
    ensures Participants(front + back, owner) == Participants(front, owner) + Participants(back, owner)
    decreases |front|
  {
    if front == [] {
      assert front + back == back;
    } else {
      var first, rest := front[0], front[1..];
      assert front == [first] + rest && front + back == [first] + (rest + back);
      ParticipantsInOrder(rest, back, owner);
      ParticipantsCons(first, rest + back, owner);
      ParticipantsCons(first, rest, owner);
      JoinedThrice(if first.active && first.agentId != owner then [first.agentId] else [],
                   Participants(rest, owner), Participants(back, owner));
    }
  }

  lemma JoinedThrice(a: seq<string>, b: seq<string>, c: seq<string>)
    ensures a + (b + c) == (a + b) + c
  {
  }

  lemma OneParticipant(m: Member, owner: string)
    ensures Participants([m], owner) == if m.active && m.agentId != owner then [m.agentId] else []
  {
    ParticipantsCons(m, [], owner);
    assert [m] + [] == [m];
  }

  /** A team run consists of one queued task for every active member but the owner, in the order of the members. The
      manager waits for them, or is queued itself when nobody else takes part. */
  lemma TeamOutcome(members: seq<Member>, owner: string, maxAttempts: nat)
    ensures var run := SubmitTeam(members, owner, maxAttempts);
            && |run.nodes| == |run.agents| == |run.children|
            && (forall agent :: agent in run.agents <==> agent != owner && Member(agent, true) in members)
            && (forall i | 0 <= i < |run.agents| ::
                  run.nodes[i].agentId == run.agents[i] && run.nodes[i].key == "member-" + run.agents[i]
                  && run.nodes[i].dependsOn == [] && run.children[i] == NewTask(Pending))
            && (run.root.status == Pending <==> forall m | m in members && m.active :: m.agentId == owner)
            && (run.root.status == WaitingChild <==> exists m :: m in members && m.active && m.agentId != owner)
            && run.status == RunRunning && run.maxAttempts == maxAttempts
  {
    var agents := Participants(members, owner);
    forall agent
      ensures agent in agents <==> agent != owner && Member(agent, true) in members
    {
      ParticipantsAre(members, owner, agent);
    }
    if agents != [] {
      assert agents[0] in agents;
    }
    forall m | m in members && m.active && m.agentId != owner
      ensures m.agentId in agents
    {
      assert m == Member(m.agentId, true);
    }
  }
}
