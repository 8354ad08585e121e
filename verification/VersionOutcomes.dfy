/** What the version requests come to: which moves are accepted, what a version records, and what a publication or a
    rollback writes and leaves alone. */
module VersionOutcomes {
  import opened Options
  import opened AgentVersions

  /* Moves. */

  /** The stages a version goes through, in order. Published and deprecated versions are off the ladder. */
  function Rung(status: VersionStatus): int {
    match status
    case Development => 0
    case Testing => 1
    case ReleaseCandidate => 2
    case Published => 10
    case Deprecated => 20
  }

  /** A version moves one rung up or down the ladder at a time, or stays; nothing else about the agent changes. */
  lemma MoveOutcome(n: Normalizer, s: Store, id: nat, target: VersionStatus)
    requires id in s.versions
    ensures var before, next := s.versions[id], Next(n, s, MoveVersion(id, target));
            && next == s.(versions := s.versions[id := before.(status := next.versions[id].status)])
            && (next.versions[id].status == target <==> -1 <= Rung(target) - Rung(before.status) <= 1)
            && (next.versions[id].status != target ==> next == s)
  {
  }

  function RungAt(s: Store, id: nat): int {
    if id in s.versions then Rung(s.versions[id].status) else -1
  }

  lemma StepClimbs(n: Normalizer, s: Store, step: Step, id: nat)
    requires Consistent(s) && RungAt(s, id) < 2
    ensures RungAt(Next(n, s, step), id) <= RungAt(s, id) + 1
  {
    if Attempt(n, s, step).Done? {
      match step {
        case PublishVersion(other, _) => PublishServes(n, s, other);
        case RollbackVersion(other) => RollbackServes(n, s, other);
        case CreateVersion(other, name, latest, skillIds, mcpIds) =>
        case RewriteVersion(other, snap) =>
        case MoveVersion(other, target) =>
        case TransitionAgent(target) =>
        case Elsewhere(config, schemas, apis, skills, mcps) =>
      }
    }
  }

  /** At some point of the history the version stood on this rung. */
  predicate Stood(n: Normalizer, s: Store, steps: seq<Step>, id: nat, rung: int)
    decreases |steps|
  {
    RungAt(s, id) == rung || (steps != [] && Stood(n, Next(n, s, steps[0]), steps[1..], id, rung))
  }

  /** No version is released without having climbed the ladder: one that did not exist, or stood below a rung, and is
      released in the end, stood on that rung in between. */
  lemma {:induction false} EveryRungIsClimbed(n: Normalizer, s: Store, steps: seq<Step>, id: nat, rung: int)
    requires Consistent(s) && RungAt(s, id) < rung <= 2 && Released(Run(n, s, steps), id)
    ensures Stood(n, s, steps, id, rung)
    decreases |steps|
  {
    if steps == [] {
      assert false;
    } else {
      var next := Next(n, s, steps[0]);
      StepClimbs(n, s, steps[0], id);
      StepKeepsConsistent(n, s, steps[0]);
      if RungAt(next, id) < rung { EveryRungIsClimbed(n, next, steps[1..], id, rung); }
    }
  }

  /** The API answers exactly while an active agent has a current version; an agent leaves the archive by no
      transition, and every other transition is accepted. */
  lemma TransitionOutcome(n: Normalizer, s: Store, target: AgentStatus)
    ensures var next := Next(n, s, TransitionAgent(target));
            && (next.status == target <==> target == s.status || s.status != Archived)
            && (next.status != target ==> next == s)
            && (next.status == target ==>
                  next == s.(status := target, apiEnabled := target == Active && s.current.Some?))
  {
  }

  /** A version may be rewritten as long as it was never released and the new snapshot is valid; only its snapshot
      changes. */
  lemma RewriteOutcome(n: Normalizer, s: Store, id: nat, snap: Snapshot)
    requires id in s.versions
    ensures var r := Rewrite(n, s, id, snap);
            && (r.Done? <==> !Released(s, id) && Validated(n, snap))
            && (r.Done? ==> r.value == s.(versions := s.versions[id := s.versions[id].(snapshot := snap)]))
  {
    assert s.versions[id].status in {Development, Testing, ReleaseCandidate} <==> Rung(s.versions[id].status) <= 2;
  }

  /* What a version records. */

  /** The schema of a new version is the one that the "v1" API serves; without such an API a published one if there is
      any, and none only if the agent has none. */
  lemma RecordedSchema(s: Store, latest: Option<string>, skillIds: seq<string>, mcpIds: seq<string>)
    requires Latest(s, latest)
    ensures var snap := Build(s.config, s.schemas, SchemaOf(s, latest), skillIds, mcpIds);
            && ("v1" in s.apis && s.apis["v1"].schema in s.schemas ==> snap.schemaVersion == s.apis["v1"].schema)
            && (!("v1" in s.apis && s.apis["v1"].schema in s.schemas) && |s.schemas| > 0 ==>
                  && snap.schemaVersion in s.schemas
                  && ((exists w | w in s.schemas :: s.schemas[w].status == Public) ==>
                        s.schemas[snap.schemaVersion].status == Public))
            && (|s.schemas| > 0 ==>
                  && snap.schemaVersion in s.schemas
                  && snap.inputSchema == Some(s.schemas[snap.schemaVersion].input)
                  && snap.outputSchema == Some(s.schemas[snap.schemaVersion].output))
            && (|s.schemas| == 0 ==>
                  && snap.schemaVersion == ""
                  && snap.inputSchema == Some(s.config.inputSchema)
                  && snap.outputSchema == Some(s.config.outputSchema))
  {
    if |s.schemas| == 0 {
      assert s.schemas.Keys == {} by { NoSchemas(s.schemas); }
    }
  }

  lemma NoSchemas(schemas: map<string, SchemaRow>)
    requires |schemas| == 0
    ensures schemas.Keys == {}
  {
    assert schemas == map[];
  }

  /** A version is created exactly under a new name, in development and with that snapshot; the others stay. */
  lemma CreateOutcome(n: Normalizer, s: Store, id: nat, name: string, latest: Option<string>, skillIds: seq<string>,
                      mcpIds: seq<string>)
    requires id !in s.versions && Answers(s, latest, skillIds, mcpIds)
    ensures var next := Next(n, s, CreateVersion(id, name, latest, skillIds, mcpIds));
            && (id in next.versions <==> forall v | v in s.versions :: s.versions[v].name != name)
            && (id !in next.versions ==> next == s)
            && (id in next.versions ==>
                  next == s.(versions := s.versions[id := next.versions[id]])
                  && next.versions[id].status == Development && next.versions[id].name == name
                  && next.versions[id].snapshot.skillIds == skillIds && next.versions[id].snapshot.mcpIds == mcpIds)
  {
    var snap := Build(s.config, s.schemas, SchemaOf(s, latest), skillIds, mcpIds);
    var r := Create(s, id, name, snap);
    assert Next(n, s, CreateVersion(id, name, latest, skillIds, mcpIds)) == if r.Done? then r.value else s;
  }

  /** Publishing what was recorded leaves what the "v1" API serves as it was. */
  lemma OwnSnapshotKeepsContract(n: Normalizer, s: Store, later: Store, id: nat, latest: Option<string>,
                                 skillIds: seq<string>, mcpIds: seq<string>)
    requires "v1" in s.apis && s.apis["v1"].schema in s.schemas
    requires var w := s.apis["v1"].schema; |w| > 0 && Strip(w) == w
    requires id in later.versions && later.schemas == s.schemas && later.apis == s.apis
    requires later.versions[id].snapshot == Build(s.config, s.schemas, SchemaOf(s, latest), skillIds, mcpIds)
    requires Publish(n, later, id).Done?
    ensures var w := s.apis["v1"].schema;
            var t := Publish(n, later, id).value;
            && "v1" in t.apis && t.apis["v1"].schema == w && w in t.schemas
            && t.schemas[w].input == s.schemas[w].input && t.schemas[w].output == s.schemas[w].output
  {
    PublishRestores(n, later, id);
    assert Serves(Publish(n, later, id).value, later.versions[id].snapshot);
  }

  /* Publication and rollback. */

  /** One version is served from now on, the one served before is deprecated, and every other version is as it was. */
  predicate Replaces(s: Store, t: Store, id: nat) {
    && t.versions.Keys == s.versions.Keys && id in s.versions && t.current == Some(id)
    && t.versions[id] == s.versions[id].(status := Published)
    && (forall v | v in s.versions && v != id ::
          t.versions[v] == if s.current == Some(v) then s.versions[v].(status := Deprecated) else s.versions[v])
    && t.status == Active && t.apiEnabled && t.skills == s.skills && t.mcps == s.mcps
  }

  /** Only these two rows of the contract may differ. */
  ghost predicate OnlyContract(s: Store, t: Store, schemas: set<string>, apis: set<string>) {
    && (forall w | w !in schemas ::
          (w in t.schemas <==> w in s.schemas) && (w in s.schemas ==> t.schemas[w] == s.schemas[w]))
    && (forall a | a !in apis :: (a in t.apis <==> a in s.apis) && (a in s.apis ==> t.apis[a] == s.apis[a]))
  }

  lemma ServingReplaces(s: Store, t: Store, id: nat)
    requires Consistent(s) && id in s.versions && t == Serving(t.(versions := s.versions), id)
    requires t.skills == s.skills && t.mcps == s.mcps
    ensures Replaces(s, t, id)
  {
  }

  lemma RestoreTouches(n: Normalizer, s: Store, snap: Snapshot)
    requires Restore(n, s, snap).Done?
    ensures var t := Restore(n, s, snap).value;
            && t == s.(config := t.config, schemas := t.schemas, apis := t.apis)
            && OnlyContract(s, t, {Strip(snap.schemaVersion)}, {Or(snap.apiVersion, "v1")})
  {
  }

  /** A publication replaces the version that is served and touches no other version, and of schemas and APIs only
      those that its snapshot names. */
  lemma PublishOutcome(n: Normalizer, s: Store, id: nat)
    requires Consistent(s) && Publish(n, s, id).Done?
    ensures var t := Publish(n, s, id).value;
            var snap := s.versions[id].snapshot;
            && Replaces(s, t, id)
            && OnlyContract(s, t, {Or(snap.schemaVersion, "v1"), Strip(snap.schemaVersion)},
                            {Or(snap.apiVersion, "v1")})
            && Or(snap.apiVersion, "v1") in t.apis && t.apis[Or(snap.apiVersion, "v1")].status == Public
  {
    var snap := s.versions[id].snapshot;
    var open := Opened(s, snap);
    assert Restore(n, open, snap).Done? && Publish(n, s, id).value == Serving(Restore(n, open, snap).value, id);
    RestoreTouches(n, open, snap);
    ServingReplaces(s, Publish(n, s, id).value, id);
  }

  /** The schema and the API of the snapshot, made public before the snapshot is restored. */
  function Opened(s: Store, snap: Snapshot): Store
    requires Or(snap.schemaVersion, "v1") in s.schemas
  {
    var schema := Or(snap.schemaVersion, "v1");
    var row := s.schemas[schema];
    s.(schemas := s.schemas[schema := if row.status in {Draft, InTest} then row.(status := Public) else row],
       apis := s.apis[Or(snap.apiVersion, "v1") := ApiRow(schema, Public)])
  }

  lemma RollbackOutcome(n: Normalizer, s: Store, id: nat)
    requires Consistent(s) && Rollback(n, s, id).Done?
    ensures var t := Rollback(n, s, id).value;
            var snap := s.versions[id].snapshot;
            && Replaces(s, t, id)
            && OnlyContract(s, t, {Strip(snap.schemaVersion)}, {Or(snap.apiVersion, "v1")})
  {
    RestoreTouches(n, s, s.versions[id].snapshot);
    ServingReplaces(s, Rollback(n, s, id).value, id);
  }

  /** What the snapshot states, the restored configuration says; the counterpart of what it keeps. */
  ghost predicate Takes(c: Config, snap: Snapshot) {
    && (snap.role != "" ==> c.role == snap.role)
    && (snap.systemPrompt != "" ==> c.systemPrompt == snap.systemPrompt)
    && (snap.promptTemplate != "" ==> c.promptTemplate == snap.promptTemplate)
    && (snap.model != "" ==> c.model == snap.model)
    && (snap.adapter != "" ==> c.adapter == snap.adapter)
    && (snap.responseMode.Some? ==> c.responseMode == snap.responseMode.value)
    && (snap.runtimeType.Some? ==> c.runtimeType == snap.runtimeType.value)
    && (snap.runtimeId.Stored? ==> c.runtimeId == snap.runtimeId.id)
    && (snap.runtimeConfig.Some? ==> c.runtimeConfig == snap.runtimeConfig.value)
    && (snap.settings.Some? ==> c.settings == snap.settings.value)
    && (snap.inputSchema.Some? ==> c.inputSchema == snap.inputSchema.value)
    && (snap.outputSchema.Some? ==> c.outputSchema == snap.outputSchema.value)
    && (forall id :: id in c.skills <==> id in snap.skillIds)
    && (forall id :: id in c.mcps <==> id in snap.mcpIds)
  }

  /** A restored configuration takes what the snapshot states and keeps what it leaves open, and its profile is the
      snapshot's in normal form for the restored runtime type. Objects that the snapshot lacks become empty. */
  lemma RestoreOutcome(n: Normalizer, live: Config, snap: Snapshot)
    requires RestoredConfig(n, live, snap).Done?
    ensures var c := RestoredConfig(n, live, snap).value;
            && Takes(c, snap) && Keeps(c, live, snap)
            && (snap.profile.Some? ==> n(snap.profile.value, c.runtimeType) == Some(c.profile))
            && (snap.settings.None? ==> c.settings == map[])
            && (snap.inputSchema.None? ==> c.inputSchema == map[])
            && (snap.outputSchema.None? ==> c.outputSchema == map[])
  {
  }
}
