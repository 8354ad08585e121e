/** The agent row and its version, schema and API rows, updated in place by the production repository. */
module AgentStore {
  import opened Options
  import opened AgentVersions

  class AgentRow {
    var config: Config
    var status: AgentStatus
    var apiEnabled: bool
    var current: Option<nat>
    var versions: map<nat, Version>
    var schemas: map<string, SchemaRow>
    var apis: map<string, ApiRow>
    var skills: set<string>
    var mcps: set<string>

    ghost function State(): Store
      reads this
    {
      Store(config, status, apiEnabled, current, versions, schemas, apis, skills, mcps)
    }

    /** A new agent has no version, no API and the draft of its first schema. */
    constructor (config: Config, status: AgentStatus, skills: set<string>, mcps: set<string>)
      ensures Consistent(State())
      ensures State() == Store(config, status, false, None, map[],
                               map["v1" := SchemaRow(config.inputSchema, config.outputSchema, Draft)], map[],
                               skills, mcps)
    {
      this.config, this.status, this.skills, this.mcps := config, status, skills, mcps;
      apiEnabled, current, versions, apis := false, None, map[], map[];
      schemas := map["v1" := SchemaRow(config.inputSchema, config.outputSchema, Draft)];
    }

    method Lifecycle(target: AgentStatus) returns (refusal: Option<Refusal>)
      modifies this
      ensures var r := Transition(old(State()), target);
              && State() == (if r.Done? then r.value else old(State()))
              && refusal == (if r.Done? then None else Some(r.reason))
      ensures old(Consistent(State())) ==> Consistent(State())
      ensures old(status) == Archived ==> status == Archived
    {
      if target != status && target !in AgentVersions.Lifecycle(status) {
        return Some(InvalidTransition);
      }
      status := target;
      apiEnabled := target == Active && current.Some?;
      return None;
    }

    /** A development version with a snapshot of the agent as it is; the arguments after `name` are what the
        queries answer. */
    method CreateVersion(id: nat, name: string, latest: Option<string>, skillIds: seq<string>, mcpIds: seq<string>)
      returns (refusal: Option<Refusal>)
      requires Answers(State(), latest, skillIds, mcpIds)
      modifies `versions
      ensures var snap := Build(config, schemas, SchemaOf(old(State()), latest), skillIds, mcpIds);
              var r := Create(old(State()), id, name, snap);
              && State() == (if r.Done? then r.value else old(State()))
              && refusal == (if r.Done? then None else Some(r.reason))
      ensures forall v | v in old(versions) :: v in versions && versions[v] == old(versions)[v]
      ensures old(NamesUnique(versions)) ==> NamesUnique(versions)
      ensures old(Consistent(State())) ==> Consistent(State())
    {
      if id in versions || exists v | v in versions :: versions[v].name == name {
        return Some(NameTaken);
      }
      var schema := latest;
      if "v1" in apis && apis["v1"].schema in schemas {
        schema := Some(apis["v1"].schema);
      }
      versions := versions[id := Version(name, Development, Build(config, schemas, schema, skillIds, mcpIds))];
      return None;
    }

    method UpdateVersion(n: Normalizer, id: nat, snap: Snapshot) returns (refusal: Option<Refusal>)
      modifies `versions
      ensures var r := Rewrite(n, old(State()), id, snap);
              && State() == (if r.Done? then r.value else old(State()))
              && refusal == (if r.Done? then None else Some(r.reason))
      ensures versions.Keys == old(versions.Keys)
      ensures forall v | Released(old(State()), v) :: versions[v] == old(versions)[v]
      ensures forall v | v in versions ::
                versions[v].status == old(versions)[v].status && versions[v].name == old(versions)[v].name
      ensures forall v | v in versions && versions[v].snapshot != old(versions)[v].snapshot ::
                Validated(n, versions[v].snapshot)
    {
      if id !in versions {
        return Some(NoSuchVersion);
      }
      if versions[id].status !in {Development, Testing, ReleaseCandidate} {
        return Some(Immutable);
      }
      if !Validated(n, snap) {
        return Some(InvalidSnapshot);
      }
      versions := versions[id := versions[id].(snapshot := snap)];
      return None;
    }

    method TransitionVersion(id: nat, target: VersionStatus) returns (refusal: Option<Refusal>)
      modifies `versions
      ensures var r := Move(old(State()), id, target);
              && State() == (if r.Done? then r.value else old(State()))
              && refusal == (if r.Done? then None else Some(r.reason))
      ensures versions.Keys == old(versions.Keys)
      ensures forall v | v in versions ::
                && (Released(State(), v) <==> Released(old(State()), v))
                && (Released(old(State()), v) ==> versions[v] == old(versions)[v])
                && versions[v].snapshot == old(versions)[v].snapshot && versions[v].name == old(versions)[v].name
      ensures old(Consistent(State())) ==> Consistent(State())
    {
      if id !in versions {
        return Some(NoSuchVersion);
      }
      var version := versions[id];
      if target != version.status && target !in Transitions(version.status) {
        return Some(InvalidTransition);
      }
      versions := versions[id := version.(status := target)];
      return None;
    }

    /** Inserts one link row per id; a second row with the same key is refused. */
    static method Linked(ids: seq<string>) returns (rows: set<string>, repeated: bool)
      ensures repeated <==> !NoRepeats(ids)
      ensures !repeated ==> rows == Elements(ids)
    {
      rows, repeated := {}, false;
      for i := 0 to |ids|
        invariant rows == Elements(ids[..i]) && NoRepeats(ids[..i])
      {
        if ids[i] in rows {
          var j :| 0 <= j < i && ids[j] == ids[i];
          return rows, true;
        }
        assert ids[..i + 1] == ids[..i] + [ids[i]];
        rows := rows + {ids[i]};
      }
      assert ids[..|ids|] == ids;
    }

    /** Writes the snapshot over the agent row, its links and its contract. A refusal may come after some of the
        writes; the caller rolls those back. */
    method RestoreVersion(n: Normalizer, snap: Snapshot) returns (refusal: Option<Refusal>)
      modifies `config, `schemas, `apis
      ensures var r := Restore(n, old(State()), snap);
              && (r.Done? ==> refusal == None && State() == r.value)
              && (r.Refused? ==> refusal == Some(r.reason))
    {
      if !(Elements(snap.skillIds) <= skills && Elements(snap.mcpIds) <= mcps) {
        return Some(DependenciesMissing);
      }
      var responseMode, runtimeType, runtimeId := config.responseMode, config.runtimeType, config.runtimeId;
      var runtimeConfig, profile := config.runtimeConfig, config.profile;
      if snap.responseMode.Some? {
        responseMode := snap.responseMode.value;
      }
      if snap.runtimeType.Some? {
        runtimeType := snap.runtimeType.value;
      }
      if snap.runtimeId.Stored? {
        runtimeId := snap.runtimeId.id;
      }
      if snap.runtimeConfig.Some? {
        runtimeConfig := snap.runtimeConfig.value;
      }
      if snap.profile.Some? {
        var normal := n(snap.profile.value, runtimeType);
        if normal.None? {
          return Some(InvalidProfile);
        }
        profile := normal.value;
      }
      var skillRows, skillRepeated := Linked(snap.skillIds);
      if skillRepeated {
        return Some(DuplicateIds);
      }
      var mcpRows, mcpRepeated := Linked(snap.mcpIds);
      if mcpRepeated {
        return Some(DuplicateIds);
      }
      config := Config(
        Or(snap.role, config.role), Or(snap.systemPrompt, config.systemPrompt),
        Or(snap.promptTemplate, config.promptTemplate), Or(snap.model, config.model), Or(snap.adapter, config.adapter),
        ObjectOr(snap.settings, map[]), ObjectOr(snap.inputSchema, map[]), ObjectOr(snap.outputSchema, map[]),
        responseMode, runtimeType, runtimeId, runtimeConfig, profile, skillRows, mcpRows);
      assert RestoredConfig(n, old(config), snap) == Done(config);
      var schema := Strip(snap.schemaVersion);
      if schema != "" {
        schemas := schemas[schema := SchemaRow(config.inputSchema, config.outputSchema, Public)];
        var api := Or(snap.apiVersion, "v1");
        apis := apis[api := ApiRow(schema, Public)];
      }
      return None;
    }

    /** Makes `id` the one published version and turns the agent's API on. */
    method Serve(id: nat)
      requires id in versions
      modifies `versions, `current, `status, `apiEnabled
      ensures State() == Serving(old(State()), id)
    {
      versions := Superseded(versions, id);
      versions := versions[id := versions[id].(status := Published)];
      current := Some(id);
      status := Active;
      apiEnabled := true;
    }

    method PublishAgent(n: Normalizer, id: nat) returns (refusal: Option<Refusal>)
      modifies this
      ensures var r := Publish(n, old(State()), id);
              && State() == (if r.Done? then r.value else old(State()))
              && refusal == (if r.Done? then None else Some(r.reason))
    {
      if id !in versions {
        return Some(NoSuchVersion);
      }
      if versions[id].status != ReleaseCandidate {
        return Some(NotReleaseCandidate);
      }
      var snap := versions[id].snapshot;
      var schema := Or(snap.schemaVersion, "v1");
      var api := Or(snap.apiVersion, "v1");
      var savedConfig, savedSchemas, savedApis := config, schemas, apis;
      if schema !in schemas {
        return Some(SchemaMissing);
      }
      if schemas[schema].status in {Draft, InTest} {
        schemas := schemas[schema := schemas[schema].(status := Public)];
      } else if schemas[schema].status == Disabled {
        return Some(SchemaUnavailable);
      }
      if api in apis && apis[api].status == Disabled {
        schemas := savedSchemas;
        return Some(ApiUnavailable);
      }
      apis := apis[api := ApiRow(schema, Public)];
      assert schemas == savedSchemas[schema := schemas[schema]];
      refusal := RestoreVersion(n, snap);
      if refusal.Some? {
        config, schemas, apis := savedConfig, savedSchemas, savedApis;
      } else {
        Serve(id);
      }
    }

    method RollbackAgent(n: Normalizer, id: nat) returns (refusal: Option<Refusal>)
      modifies this
      ensures var r := Rollback(n, old(State()), id);
              && State() == (if r.Done? then r.value else old(State()))
              && refusal == (if r.Done? then None else Some(r.reason))
    {
      if id !in versions {
        return Some(NoSuchVersion);
      }
      if versions[id].status != Deprecated {
        return Some(NotDeprecated);
      }
      var savedConfig, savedSchemas, savedApis := config, schemas, apis;
      refusal := RestoreVersion(n, versions[id].snapshot);
      if refusal.Some? {
        config, schemas, apis := savedConfig, savedSchemas, savedApis;
      } else {
        Serve(id);
      }
    }
  }
}
