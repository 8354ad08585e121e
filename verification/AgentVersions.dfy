/** Agent versions: snapshots of the live configuration, their lifecycle, publication and rollback. */
module AgentVersions {
  import opened Options

  /** A JSON object, as opaque member texts. */
  type Object = map<string, string>

  /** What the snapshot says about the runtime: the key is missing, or it is there with or without a value. */
  datatype RuntimeRef = Missing | Stored(id: Option<string>)

  datatype ResponseMode = Sync | Stream

  datatype RuntimeType = Hermes | Pi | DeepSeek

  /** The configuration an agent runs with. */
  datatype Config = Config(
    role: string, systemPrompt: string, promptTemplate: string,
    model: string, adapter: string, settings: Object,
    inputSchema: Object, outputSchema: Object,
    responseMode: ResponseMode, runtimeType: RuntimeType, runtimeId: Option<string>,
    runtimeConfig: Object, profile: Object,
    skills: set<string>, mcps: set<string>)

  /** A version snapshot. A missing, null or empty text reads as ""; a value that is not an
      object, or a mode or type that is missing or unknown, as `None`. */
  datatype Snapshot = Snapshot(
    role: string, systemPrompt: string, promptTemplate: string,
    model: string, adapter: string, settings: Option<Object>,
    schemaVersion: string, inputSchema: Option<Object>, outputSchema: Option<Object>,
    apiVersion: string,
    responseMode: Option<ResponseMode>, runtimeType: Option<RuntimeType>, runtimeId: RuntimeRef,
    runtimeConfig: Option<Object>, profile: Option<Object>,
    skillIds: seq<string>, mcpIds: seq<string>)

  datatype VersionStatus = Development | Testing | ReleaseCandidate | Published | Deprecated

  datatype Version = Version(name: string, status: VersionStatus, snapshot: Snapshot)

  datatype ContractStatus = Draft | InTest | Public | Outdated | Disabled

  datatype SchemaRow = SchemaRow(input: Object, output: Object, status: ContractStatus)

  datatype ApiRow = ApiRow(schema: string, status: ContractStatus)

  datatype AgentStatus = Active | Inactive | Archived

  /** One agent with its versions and public contract, and the skills and MCP servers that exist. */
  datatype Store = Store(
    config: Config, status: AgentStatus, apiEnabled: bool, current: Option<nat>,
    versions: map<nat, Version>, schemas: map<string, SchemaRow>, apis: map<string, ApiRow>,
    skills: set<string>, mcps: set<string>)

  datatype Refusal =
    | NoSuchVersion | NameTaken | Immutable | InvalidTransition | NotReleaseCandidate | NotDeprecated | AgentNotActive
    | SchemaMissing | SchemaUnavailable | ApiUnavailable
    | DependenciesMissing | InvalidProfile | DuplicateIds | InvalidSnapshot

  datatype Outcome<+T> = Done(value: T) | Refused(reason: Refusal)

  /** How a capability profile is brought into normal form for a runtime type; `None` where it is rejected. */
  type Normalizer = (Object, RuntimeType) -> Option<Object>

  predicate IsAdapter(adapter: string) {
    adapter in {"hermes", "qwen", "deepseek", "gpt", "claude"}
  }

  function Or(text: string, live: string): string {
    if text == "" then live else text
  }

  function ObjectOr(value: Option<Object>, default: Object): Object {
    if value.Some? then value.value else default
  }

  function Elements(ids: seq<string>): (s: set<string>)
    ensures forall id :: id in s <==> id in ids
  {
    set id | id in ids
  }

  predicate NoRepeats(ids: seq<string>) {
    forall i, j | 0 <= i < j < |ids| :: ids[i] != ids[j]
  }

  predicate IsSpace(c: char) {
    c == ' ' || c == '\t' || c == '\n' || c == '\r'
  }

  function Strip(text: string): string {
    if text == "" then ""
    else if IsSpace(text[0]) then Strip(text[1..])
    else if IsSpace(text[|text| - 1]) then Strip(text[..|text| - 1])
    else text
  }

  /* Taking and restoring snapshots. */

  /** The schema a snapshot records: that of the "v1" API, or else the answer `latest` of the query for the
      newest schema, published ones first. */
  function SchemaOf(s: Store, latest: Option<string>): Option<string> {
    if "v1" in s.apis && s.apis["v1"].schema in s.schemas then Some(s.apis["v1"].schema) else latest
  }

  predicate Latest(s: Store, latest: Option<string>) {
    match latest
    case None => |s.schemas| == 0
    case Some(v) =>
      && v in s.schemas
      && ((exists w | w in s.schemas :: s.schemas[w].status == Public) ==> s.schemas[v].status == Public)
  }

  /** What the queries behind a new snapshot answer: the agent's skills and MCP servers, each once, and its
      newest schema. */
  predicate Answers(s: Store, latest: Option<string>, skillIds: seq<string>, mcpIds: seq<string>) {
    && Latest(s, latest)
    && NoRepeats(skillIds) && Elements(skillIds) == s.config.skills
    && NoRepeats(mcpIds) && Elements(mcpIds) == s.config.mcps
  }

  function Build(c: Config, schemas: map<string, SchemaRow>, schema: Option<string>, skillIds: seq<string>,
                 mcpIds: seq<string>): Snapshot {
    var row := if schema.Some? && schema.value in schemas then Some(schemas[schema.value]) else None;
    Snapshot(c.role, c.systemPrompt, c.promptTemplate, c.model, c.adapter, Some(c.settings),
             if row.Some? then schema.value else "",
             Some(if row.Some? then row.value.input else c.inputSchema),
             Some(if row.Some? then row.value.output else c.outputSchema),
             "v1",
             Some(c.responseMode), Some(c.runtimeType), Stored(c.runtimeId), Some(c.runtimeConfig), Some(c.profile),
             skillIds, mcpIds)
  }

  function RestoredType(live: RuntimeType, snap: Snapshot): RuntimeType {
    if snap.runtimeType.Some? then snap.runtimeType.value else live
  }

  /** The configuration restoring `snap` over `live` gives, or the reason why it is refused. */
  function RestoredConfig(n: Normalizer, live: Config, snap: Snapshot): Outcome<Config> {
    var runtimeType := RestoredType(live.runtimeType, snap);
    var profile := if snap.profile.None? then Some(live.profile) else n(snap.profile.value, runtimeType);
    if profile.None? then Refused(InvalidProfile)
    else if !(NoRepeats(snap.skillIds) && NoRepeats(snap.mcpIds)) then Refused(DuplicateIds)
    else
      Done(Config(
        Or(snap.role, live.role), Or(snap.systemPrompt, live.systemPrompt),
        Or(snap.promptTemplate, live.promptTemplate),
        Or(snap.model, live.model), Or(snap.adapter, live.adapter), ObjectOr(snap.settings, map[]),
        ObjectOr(snap.inputSchema, map[]), ObjectOr(snap.outputSchema, map[]),
        if snap.responseMode.Some? then snap.responseMode.value else live.responseMode,
        runtimeType,
        if snap.runtimeId.Missing? then live.runtimeId else snap.runtimeId.id,
        ObjectOr(snap.runtimeConfig, live.runtimeConfig),
        profile.value,
        Elements(snap.skillIds), Elements(snap.mcpIds)))
  }

  /** The contract after a restore: the schema the snapshot names is rewritten and published, and its API bound
      to it. A snapshot that names no schema leaves the contract alone. */
  function RestoredContract(s: Store, c: Config, snap: Snapshot): Store {
    var schema := Strip(snap.schemaVersion);
    if schema == "" then s.(config := c)
    else s.(config := c,
            schemas := s.schemas[schema := SchemaRow(c.inputSchema, c.outputSchema, Public)],
            apis := s.apis[Or(snap.apiVersion, "v1") := ApiRow(schema, Public)])
  }

  function Restore(n: Normalizer, s: Store, snap: Snapshot): Outcome<Store> {
    if !(Elements(snap.skillIds) <= s.skills && Elements(snap.mcpIds) <= s.mcps) then Refused(DependenciesMissing)
    else
      var c := RestoredConfig(n, s.config, snap);
      if c.Refused? then Refused(c.reason) else Done(RestoredContract(s, c.value, snap))
  }

  /** The checks of the snapshot validator on what a restore reads. A missing runtime type counts as Hermes, a
      missing profile as an empty one; unknown values are refused before they get here. */
  predicate Validated(n: Normalizer, snap: Snapshot) {
    && Strip(snap.systemPrompt) != "" && Strip(snap.promptTemplate) != "" && Strip(snap.model) != ""
    && IsAdapter(snap.adapter)
    && snap.responseMode.Some?
    && n(ObjectOr(snap.profile, map[]), RestoredType(Hermes, snap)).Some?
  }

  /* The lifecycle operations. */

  /** Every published version other than `id` becomes deprecated. */
  function Superseded(versions: map<nat, Version>, id: nat): map<nat, Version> {
    map v | v in versions ::
      if v != id && versions[v].status == Published then versions[v].(status := Deprecated) else versions[v]
  }

  /** `id` is now the one published version and the agent serves it. */
  function Serving(s: Store, id: nat): Store
    requires id in s.versions
  {
    s.(versions := Superseded(s.versions, id)[id := s.versions[id].(status := Published)],
       current := Some(id), status := Active, apiEnabled := true)
  }

  function Publish(n: Normalizer, s: Store, id: nat): Outcome<Store> {
    if id !in s.versions then Refused(NoSuchVersion)
    else if s.versions[id].status != ReleaseCandidate then Refused(NotReleaseCandidate)
    else
      var snap := s.versions[id].snapshot;
      var schema := Or(snap.schemaVersion, "v1");
      var api := Or(snap.apiVersion, "v1");
      if schema !in s.schemas then Refused(SchemaMissing)
      else if s.schemas[schema].status == Disabled then Refused(SchemaUnavailable)
      else if api in s.apis && s.apis[api].status == Disabled then Refused(ApiUnavailable)
      else
        var row := s.schemas[schema];
        var shown := if row.status in {Draft, InTest} then row.(status := Public) else row;
        var open := s.(schemas := s.schemas[schema := shown],
                       apis := s.apis[api := ApiRow(schema, Public)]);
        var r := Restore(n, open, snap);
        if r.Refused? then r else Done(Serving(r.value, id))
  }

  function Rollback(n: Normalizer, s: Store, id: nat): Outcome<Store> {
    if id !in s.versions then Refused(NoSuchVersion)
    else if s.versions[id].status != Deprecated then Refused(NotDeprecated)
    else
      var r := Restore(n, s, s.versions[id].snapshot);
      if r.Refused? then r else Done(Serving(r.value, id))
  }

  function Transitions(status: VersionStatus): set<VersionStatus> {
    match status
    case Development => {Testing}
    case Testing => {Development, ReleaseCandidate}
    case ReleaseCandidate => {Testing}
    case Published => {}
    case Deprecated => {}
  }

  function Move(s: Store, id: nat, target: VersionStatus): Outcome<Store> {
    if id !in s.versions then Refused(NoSuchVersion)
    else if target != s.versions[id].status && target !in Transitions(s.versions[id].status) then
      Refused(InvalidTransition)
    else Done(s.(versions := s.versions[id := s.versions[id].(status := target)]))
  }

  function Rewrite(n: Normalizer, s: Store, id: nat, snap: Snapshot): Outcome<Store> {
    if id !in s.versions then Refused(NoSuchVersion)
    else if s.versions[id].status !in {Development, Testing, ReleaseCandidate} then Refused(Immutable)
    else if !Validated(n, snap) then Refused(InvalidSnapshot)
    else Done(s.(versions := s.versions[id := s.versions[id].(snapshot := snap)]))
  }

  function Lifecycle(status: AgentStatus): set<AgentStatus> {
    match status
    case Active => {Inactive, Archived}
    case Inactive => {Active, Archived}
    case Archived => {}
  }

  function Transition(s: Store, target: AgentStatus): Outcome<Store> {
    if target != s.status && target !in Lifecycle(s.status) then Refused(InvalidTransition)
    else Done(s.(status := target, apiEnabled := target == Active && s.current.Some?))
  }

  function Create(s: Store, id: nat, name: string, snap: Snapshot): Outcome<Store> {
    if id in s.versions || (exists v | v in s.versions :: s.versions[v].name == name) then Refused(NameTaken)
    else Done(s.(versions := s.versions[id := Version(name, Development, snap)]))
  }

  /** What users do, transaction by transaction. A publication comes from the console or through the version route,
      a rollback only through the route; the routes refuse an agent that is not active, the console does not look.
      `Elsewhere` stands for every other write: to the live configuration, the schemas, the APIs, the installed
      skills and MCP servers. */
  datatype Entrance = Console | Route

  datatype Step =
    | CreateVersion(id: nat, name: string, latest: Option<string>, skillIds: seq<string>, mcpIds: seq<string>)
    | RewriteVersion(id: nat, snap: Snapshot)
    | MoveVersion(id: nat, target: VersionStatus)
    | PublishVersion(id: nat, entrance: Entrance)
    | RollbackVersion(id: nat)
    | TransitionAgent(targetStatus: AgentStatus)
    | Elsewhere(config: Config, schemas: map<string, SchemaRow>, apis: map<string, ApiRow>, skills: set<string>,
                mcps: set<string>)

  function Attempt(n: Normalizer, s: Store, step: Step): Outcome<Store> {
    match step
    case CreateVersion(id, name, latest, skillIds, mcpIds) =>
      Create(s, id, name, Build(s.config, s.schemas, SchemaOf(s, latest), skillIds, mcpIds))
    case RewriteVersion(id, snap) => Rewrite(n, s, id, snap)
    case MoveVersion(id, target) => Move(s, id, target)
    case PublishVersion(id, entrance) =>
      if entrance == Route && s.status != Active then Refused(AgentNotActive) else Publish(n, s, id)
    case RollbackVersion(id) => if s.status != Active then Refused(AgentNotActive) else Rollback(n, s, id)
    case TransitionAgent(target) => Transition(s, target)
    case Elsewhere(config, schemas, apis, skills, mcps) =>
      Done(s.(config := config, schemas := schemas, apis := apis, skills := skills, mcps := mcps))
  }

  /** The query answers a step carries are those of its state. */
  predicate Possible(s: Store, step: Step) {
    step.CreateVersion? ==> Answers(s, step.latest, step.skillIds, step.mcpIds)
  }

  /** A refused step is rolled back by the database. */
  function Next(n: Normalizer, s: Store, step: Step): Store {
    var r := Attempt(n, s, step);
    if r.Done? && Possible(s, step) then r.value else s
  }

  function Run(n: Normalizer, s: Store, steps: seq<Step>): Store
    decreases |steps|
  {
    if steps == [] then s else Run(n, Next(n, s, steps[0]), steps[1..])
  }

  /* The lifecycle invariant. */

  /** The published versions are exactly the current one, and the API is on exactly while an active agent has one. */
  ghost predicate Consistent(s: Store) {
    && (s.current.Some? ==> s.current.value in s.versions)
    && (forall id | id in s.versions :: s.versions[id].status == Published <==> s.current == Some(id))
    && (s.apiEnabled <==> s.status == Active && s.current.Some?)
  }

  lemma StepKeepsConsistent(n: Normalizer, s: Store, step: Step)
    requires Consistent(s)
    ensures Consistent(Next(n, s, step))
  {
    if Attempt(n, s, step).Done? {
      match step {
        case PublishVersion(id, _) => PublishServes(n, s, id);
        case RollbackVersion(id) => RollbackServes(n, s, id);
        case CreateVersion(id, name, latest, skillIds, mcpIds) =>
        case RewriteVersion(id, snap) =>
        case MoveVersion(id, target) =>
        case TransitionAgent(target) =>
        case Elsewhere(config, schemas, apis, skills, mcps) =>
      }
    }
  }

  /** What publishing ends in: the versions as `Serving` leaves them, whatever the contract and configuration. */
  lemma PublishServes(n: Normalizer, s: Store, id: nat)
    requires Publish(n, s, id).Done?
    ensures id in s.versions && s.versions[id].status == ReleaseCandidate
    ensures var r := Publish(n, s, id).value;
            && Consistent(r) && r.current == Some(id)
            && r.versions == Superseded(s.versions, id)[id := s.versions[id].(status := Published)]
  {
  }

  lemma RollbackServes(n: Normalizer, s: Store, id: nat)
    requires Rollback(n, s, id).Done?
    ensures id in s.versions && s.versions[id].status == Deprecated
    ensures var r := Rollback(n, s, id).value;
            && Consistent(r) && r.current == Some(id)
            && r.versions == Superseded(s.versions, id)[id := s.versions[id].(status := Published)]
  {
  }

  /** Each version of the agent has a name of its own. */
  predicate NamesUnique(versions: map<nat, Version>) {
    forall v, w | v in versions && w in versions && v != w :: versions[v].name != versions[w].name
  }

  /** A version that has been published. */
  predicate Released(s: Store, id: nat) {
    id in s.versions && s.versions[id].status in {Published, Deprecated}
  }

  lemma StepKeepsReleased(n: Normalizer, s: Store, step: Step, id: nat)
    requires Released(s, id)
    ensures Released(Next(n, s, step), id)
    ensures Next(n, s, step).versions[id].snapshot == s.versions[id].snapshot
    ensures Next(n, s, step).versions[id].name == s.versions[id].name
  {
    if Attempt(n, s, step).Done? {
      match step {
        case PublishVersion(other, _) => PublishServes(n, s, other);
        case RollbackVersion(other) => RollbackServes(n, s, other);
        case CreateVersion(other, name, latest, skillIds, mcpIds) =>
        case RewriteVersion(other, snap) =>
        case MoveVersion(other, target) =>
        case TransitionAgent(target) =>
        case Elsewhere(config, schemas, apis, skills, mcps) =>
      }
    }
  }

  /** In every state a run reaches, at most one version is published, it is the current one, and the API is on
      exactly while an active agent has one; and a version once published stays published or deprecated with the
      snapshot it had. */
  lemma {:induction false} LifecycleOverRuns(n: Normalizer, s: Store, steps: seq<Step>)
    requires Consistent(s)
    ensures Consistent(Run(n, s, steps))
    ensures forall id | Released(s, id) ::
              Released(Run(n, s, steps), id) && Run(n, s, steps).versions[id].snapshot == s.versions[id].snapshot
    decreases |steps|
  {
    if steps == [] {
    } else {
      var next := Next(n, s, steps[0]);
      StepKeepsConsistent(n, s, steps[0]);
      forall id | Released(s, id)
        ensures Released(next, id) && next.versions[id].snapshot == s.versions[id].snapshot
      {
        StepKeepsReleased(n, s, steps[0], id);
      }
      LifecycleOverRuns(n, next, steps[1..]);
    }
  }

  /** A version is published only after it was a release candidate: one that is not released and becomes released
      in a single step was a release candidate before it. */
  lemma ReleasedOnlyFromCandidate(n: Normalizer, s: Store, step: Step, id: nat)
    requires Consistent(s) && !Released(s, id) && Released(Next(n, s, step), id)
    ensures id in s.versions && s.versions[id].status == ReleaseCandidate && step.PublishVersion? && step.id == id
  {
    match step {
      case PublishVersion(other, _) => PublishServes(n, s, other);
      case RollbackVersion(other) => RollbackServes(n, s, other);
      case CreateVersion(other, name, latest, skillIds, mcpIds) =>
      case RewriteVersion(other, snap) =>
      case MoveVersion(other, target) =>
      case TransitionAgent(target) =>
      case Elsewhere(config, schemas, apis, skills, mcps) =>
    }
  }

  /** What a restore needs: the skills and MCP servers exist and are listed once, and the profile is acceptable. */
  predicate Restorable(n: Normalizer, s: Store, snap: Snapshot) {
    && Elements(snap.skillIds) <= s.skills && NoRepeats(snap.skillIds)
    && Elements(snap.mcpIds) <= s.mcps && NoRepeats(snap.mcpIds)
    && (snap.profile.Some? ==> n(snap.profile.value, RestoredType(s.config.runtimeType, snap)).Some?)
  }

  /** What publishing a snapshot needs, in terms a caller can look up. */
  predicate Available(n: Normalizer, s: Store, snap: Snapshot) {
    var schema, api := Or(snap.schemaVersion, "v1"), Or(snap.apiVersion, "v1");
    && schema in s.schemas && s.schemas[schema].status != Disabled
    && (api in s.apis ==> s.apis[api].status != Disabled)
    && Restorable(n, s, snap)
  }

  predicate Publishable(n: Normalizer, s: Store, id: nat) {
    id in s.versions && s.versions[id].status == ReleaseCandidate && Available(n, s, s.versions[id].snapshot)
  }

  lemma PublishesIff(n: Normalizer, s: Store, id: nat)
    ensures Publish(n, s, id).Done? <==> Publishable(n, s, id)
  {
  }

  lemma RollsBackIff(n: Normalizer, s: Store, id: nat)
    ensures Rollback(n, s, id).Done? <==>
            id in s.versions && s.versions[id].status == Deprecated && Restorable(n, s, s.versions[id].snapshot)
  {
  }

  /** The lifecycle table makes `Archived` final; a step takes the agent out of it if and only if the console
      publishes a release candidate whose contract and dependencies are available. */
  lemma ArchivedEndsIff(n: Normalizer, s: Store, step: Step)
    requires s.status == Archived
    ensures Next(n, s, step).status != Archived <==>
            step.PublishVersion? && step.entrance == Console && Publishable(n, s, step.id)
    ensures Next(n, s, step).status == Archived || Next(n, s, step).status == Active
  {
    if step.PublishVersion? { PublishesIff(n, s, step.id); }
  }

  /** The publication request of the console works on the newest draft, and makes one if there is none. If the
      preflight is content, it turns the draft into a release candidate, commits that, and only then publishes. */
  function ConsoleDraft(n: Normalizer, s: Store, draft: Option<nat>, create: Step): Store {
    if draft.Some? then s else Next(n, s, create)
  }

  function Promoted(s: Store, id: nat): Store
    requires id in s.versions
  {
    s.(versions := s.versions[id := s.versions[id].(status := ReleaseCandidate)])
  }

  function ConsoleRequest(n: Normalizer, s: Store, draft: Option<nat>, create: Step, ready: bool): Store
    requires DraftFound(n, s, draft, create)
  {
    var drafted := ConsoleDraft(n, s, draft, create);
    var id := if draft.Some? then draft.value else create.id;
    if ready then Next(n, Promoted(drafted, id), PublishVersion(id, Console)) else drafted
  }

  predicate Unreleased(s: Store, id: nat) {
    id in s.versions && s.versions[id].status in {Development, Testing, ReleaseCandidate}
  }

  /** The newest draft, or a new version under a free name. */
  predicate DraftFound(n: Normalizer, s: Store, draft: Option<nat>, create: Step) {
    match draft
    case Some(id) => Unreleased(s, id)
    case None => create.CreateVersion? && Possible(s, create) && Attempt(n, s, create).Done?
  }

  /** What the request will publish: the snapshot of the draft, or of the agent as it is. */
  function RequestedSnapshot(n: Normalizer, s: Store, draft: Option<nat>, create: Step): Snapshot
    requires DraftFound(n, s, draft, create)
  {
    match draft
    case Some(id) => s.versions[id].snapshot
    case None => Build(s.config, s.schemas, SchemaOf(s, create.latest), create.skillIds, create.mcpIds)
  }

  /** The whole request brings an archived agent back if and only if the preflight is content and the snapshot's
      contract and dependencies are available, whatever the state of the draft, and also without one. */
  lemma ConsoleRequestRevivesIff(n: Normalizer, s: Store, draft: Option<nat>, create: Step, ready: bool)
    requires s.status == Archived && DraftFound(n, s, draft, create)
    ensures ConsoleRequest(n, s, draft, create, ready).status != Archived <==>
            ready && Available(n, s, RequestedSnapshot(n, s, draft, create))
  {
    var drafted := ConsoleDraft(n, s, draft, create);
    var id := if draft.Some? then draft.value else create.id;
    var snap := RequestedSnapshot(n, s, draft, create);
    assert drafted == s.(versions := drafted.versions) && drafted.versions[id].snapshot == snap;
    ArchivedEndsIff(n, Promoted(drafted, id), PublishVersion(id, Console));
    assert Available(n, Promoted(drafted, id), snap) == Available(n, s, snap);
  }

  /** A new agent without versions. */
  function NewAgent(c: Config): Store {
    Store(c, Active, false, None, map[], map["v1" := SchemaRow(c.inputSchema, c.outputSchema, Draft)], map[], c.skills,
          c.mcps)
  }

  lemma RunUnfolds(n: Normalizer, s: Store, first: Step, rest: seq<Step>)
    ensures Run(n, s, [first] + rest) == Run(n, Next(n, s, first), rest)
  {
    assert ([first] + rest)[1..] == rest;
  }

  lemma RunFour(n: Normalizer, s: Store, a: Step, b: Step, c: Step, d: Step)
    ensures Run(n, s, [a, b, c, d]) == Next(n, Next(n, Next(n, Next(n, s, a), b), c), d)
  {
    assert [a, b, c, d] == [a] + [b, c, d] && [b, c, d] == [b] + [c, d] && [c, d] == [c] + [d] && [d] == [d] + [];
    var s1 := Next(n, s, a);
    var s2 := Next(n, s1, b);
    RunUnfolds(n, s, a, [b, c, d]);
    RunUnfolds(n, s1, b, [c, d]);
    RunUnfolds(n, s2, c, [d]);
    RunUnfolds(n, Next(n, s2, c), d, []);
  }

  /** It does happen: a version becomes a release candidate, the agent is archived, and the console publishes it. */
  lemma ArchivedAgentComesBack(n: Normalizer, c: Config)
    requires c.skills == {} && c.mcps == {} && n(c.profile, c.runtimeType).Some?
    ensures var steps := [CreateVersion(0, "first", Some("v1"), [], []), MoveVersion(0, Testing),
                          MoveVersion(0, ReleaseCandidate), TransitionAgent(Archived)];
            var archived := Run(n, NewAgent(c), steps);
            && archived.status == Archived
            && Next(n, archived, PublishVersion(0, Console)).status == Active
            && Next(n, archived, PublishVersion(0, Route)) == archived
  {
    var create := CreateVersion(0, "first", Some("v1"), [], []);
    RunFour(n, NewAgent(c), create, MoveVersion(0, Testing), MoveVersion(0, ReleaseCandidate),
            TransitionAgent(Archived));
    CandidateOf(n, c);
    var candidate := Next(n, Next(n, Next(n, NewAgent(c), create), MoveVersion(0, Testing)),
                          MoveVersion(0, ReleaseCandidate));
    ConsoleRevives(n, candidate);
  }

  lemma ConsoleRevives(n: Normalizer, candidate: Store)
    requires candidate.status == Active && Publishable(n, candidate.(status := Archived, apiEnabled := false), 0)
    ensures var archived := Next(n, candidate, TransitionAgent(Archived));
            && archived == candidate.(status := Archived, apiEnabled := false)
            && Next(n, archived, PublishVersion(0, Console)).status == Active
            && Next(n, archived, PublishVersion(0, Route)) == archived
  {
    var archived := candidate.(status := Archived, apiEnabled := false);
    ArchivedEndsIff(n, archived, PublishVersion(0, Console));
  }

  lemma CandidateOf(n: Normalizer, c: Config)
    requires c.skills == {} && c.mcps == {} && n(c.profile, c.runtimeType).Some?
    ensures var create := CreateVersion(0, "first", Some("v1"), [], []);
            var candidate := Next(n, Next(n, Next(n, NewAgent(c), create), MoveVersion(0, Testing)),
                                  MoveVersion(0, ReleaseCandidate));
            candidate.status == Active && Publishable(n, candidate.(status := Archived, apiEnabled := false), 0)
  {
    var s := NewAgent(c);
    assert Answers(s, Some("v1"), [], []);
    var snap := Build(c, s.schemas, Some("v1"), [], []);
    var created := Next(n, s, CreateVersion(0, "first", Some("v1"), [], []));
    assert created == s.(versions := map[0 := Version("first", Development, snap)]);
    var tested := Next(n, created, MoveVersion(0, Testing));
    assert tested == s.(versions := map[0 := Version("first", Testing, snap)]);
  }

  /* Restoring. */

  /** Everything a restore would otherwise take from the live configuration is in the snapshot. */
  predicate Complete(snap: Snapshot) {
    && snap.role != "" && snap.systemPrompt != "" && snap.promptTemplate != "" && snap.model != "" && snap.adapter != ""
    && snap.responseMode.Some? && snap.runtimeType.Some?
    && snap.runtimeId.Stored? && snap.runtimeConfig.Some? && snap.profile.Some?
  }

  ghost predicate Determined(n: Normalizer, snap: Snapshot) {
    forall a, b :: RestoredConfig(n, a, snap) == RestoredConfig(n, b, snap)
  }

  lemma CompleteIsDetermined(n: Normalizer, snap: Snapshot, a: Config, b: Config)
    requires Complete(snap)
    ensures RestoredConfig(n, a, snap) == RestoredConfig(n, b, snap)
  {
  }

  function OtherText(text: string): (other: string)
    ensures other != text
  {
    if text == "x" then "y" else "x"
  }

  function OtherObject(o: Object): (other: Object)
    ensures other != o
  {
    assert "x" in map["x" := ""];
    if o == map[] then map["x" := ""] else map[]
  }

  predicate TextOpen(snap: Snapshot) {
    snap.role == "" || snap.systemPrompt == "" || snap.promptTemplate == "" || snap.model == "" || snap.adapter == ""
  }

  /** A live configuration that differs from `live` in a text the snapshot leaves open. */
  function TwistedText(live: Config, snap: Snapshot): Config {
    if snap.role == "" then live.(role := OtherText(live.role))
    else if snap.systemPrompt == "" then live.(systemPrompt := OtherText(live.systemPrompt))
    else if snap.promptTemplate == "" then live.(promptTemplate := OtherText(live.promptTemplate))
    else if snap.model == "" then live.(model := OtherText(live.model))
    else live.(adapter := OtherText(live.adapter))
  }

  /** A live configuration that differs from `live` in another field the snapshot leaves open. */
  function TwistedRuntime(live: Config, snap: Snapshot): Config {
    if snap.responseMode.None? then live.(responseMode := if live.responseMode == Sync then Stream else Sync)
    else if snap.runtimeType.None? then live.(runtimeType := if live.runtimeType == Hermes then Pi else Hermes)
    else if snap.runtimeId.Missing? then live.(runtimeId := if live.runtimeId.None? then Some("") else None)
    else if snap.runtimeConfig.None? then live.(runtimeConfig := OtherObject(live.runtimeConfig))
    else live.(profile := OtherObject(live.profile))
  }

  function Twisted(live: Config, snap: Snapshot): Config {
    if TextOpen(snap) then TwistedText(live, snap) else TwistedRuntime(live, snap)
  }

  /** `c` takes from `live` what the snapshot leaves open. */
  predicate Keeps(c: Config, live: Config, snap: Snapshot) {
    && (snap.role == "" ==> c.role == live.role)
    && (snap.systemPrompt == "" ==> c.systemPrompt == live.systemPrompt)
    && (snap.promptTemplate == "" ==> c.promptTemplate == live.promptTemplate)
    && (snap.model == "" ==> c.model == live.model)
    && (snap.adapter == "" ==> c.adapter == live.adapter)
    && (snap.responseMode.None? ==> c.responseMode == live.responseMode)
    && (snap.runtimeType.None? ==> c.runtimeType == live.runtimeType)
    && (snap.runtimeId.Missing? ==> c.runtimeId == live.runtimeId)
    && (snap.runtimeConfig.None? ==> c.runtimeConfig == live.runtimeConfig)
    && (snap.profile.None? ==> c.profile == live.profile)
  }

  lemma TwistedTextDiffers(live: Config, snap: Snapshot, a: Config, b: Config)
    requires TextOpen(snap) && Keeps(a, live, snap) && Keeps(b, TwistedText(live, snap), snap)
    ensures a != b
  {
  }

  lemma TwistedRuntimeDiffers(live: Config, snap: Snapshot, a: Config, b: Config)
    requires !TextOpen(snap) && !Complete(snap) && Keeps(a, live, snap) && Keeps(b, TwistedRuntime(live, snap), snap)
    ensures a != b
  {
  }

  lemma RestoreKeepsOpen(n: Normalizer, live: Config, snap: Snapshot)
    requires RestoredConfig(n, live, snap).Done?
    ensures Keeps(RestoredConfig(n, live, snap).value, live, snap)
  {
  }

  lemma TwistedShows(n: Normalizer, live: Config, snap: Snapshot)
    requires !Complete(snap) && RestoredConfig(n, live, snap).Done?
    ensures RestoredConfig(n, Twisted(live, snap), snap) != RestoredConfig(n, live, snap)
  {
    var after := RestoredConfig(n, Twisted(live, snap), snap);
    if after.Done? {
      RestoreKeepsOpen(n, live, snap);
      RestoreKeepsOpen(n, Twisted(live, snap), snap);
      var before := RestoredConfig(n, live, snap);
      if TextOpen(snap) {
        TwistedTextDiffers(live, snap, before.value, after.value);
      } else {
        TwistedRuntimeDiffers(live, snap, before.value, after.value);
      }
    }
  }

  /** The configuration after a restore depends on the snapshot alone exactly when the snapshot is complete. */
  lemma DeterminedIffComplete(n: Normalizer, live: Config, snap: Snapshot)
    requires RestoredConfig(n, live, snap).Done?
    ensures Determined(n, snap) <==> Complete(snap)
  {
    if Complete(snap) {
      forall a, b
        ensures RestoredConfig(n, a, snap) == RestoredConfig(n, b, snap)
      {
        CompleteIsDetermined(n, snap, a, b);
      }
    } else {
      TwistedShows(n, live, snap);
    }
  }

  /** The value checks of the agents table. */
  predicate Storable(c: Config) {
    IsAdapter(c.adapter)
  }

  /** A snapshot built from a stored agent is complete exactly when its text fields are not empty. */
  lemma BuiltIsComplete(c: Config, schemas: map<string, SchemaRow>, schema: Option<string>, skillIds: seq<string>,
                        mcpIds: seq<string>)
    requires Storable(c)
    ensures Complete(Build(c, schemas, schema, skillIds, mcpIds)) <==>
            c.role != "" && c.systemPrompt != "" && c.promptTemplate != "" && c.model != ""
  {
  }

  /** Restoring a snapshot of `c` over any configuration gives `c` back, with the recorded schema in place of its
      own and its profile in normal form. */
  lemma RestoreInvertsBuild(n: Normalizer, c: Config, other: Config, schemas: map<string, SchemaRow>,
                            schema: Option<string>, skillIds: seq<string>, mcpIds: seq<string>)
    requires Storable(c) && c.role != "" && c.systemPrompt != "" && c.promptTemplate != "" && c.model != ""
    requires NoRepeats(skillIds) && Elements(skillIds) == c.skills && NoRepeats(mcpIds) && Elements(mcpIds) == c.mcps
    requires n(c.profile, c.runtimeType).Some?
    ensures var row := if schema.Some? && schema.value in schemas then schemas[schema.value]
                       else SchemaRow(c.inputSchema, c.outputSchema, Draft);
            RestoredConfig(n, other, Build(c, schemas, schema, skillIds, mcpIds)) ==
            Done(c.(inputSchema := row.input, outputSchema := row.output, profile := n(c.profile, c.runtimeType).value))
  {
  }

  /** What validation leaves open: a validated snapshot is complete exactly when it also has a role, a runtime
      type, a runtime reference, a runtime configuration and a capability profile. */
  lemma ValidatedIsCompleteIff(n: Normalizer, snap: Snapshot)
    requires Validated(n, snap)
    ensures Complete(snap) <==>
            snap.role != "" && snap.runtimeType.Some? && snap.runtimeId.Stored? && snap.runtimeConfig.Some?
              && snap.profile.Some?
  {
  }

  /** The served contract: the schema a complete snapshot names carries its schemas and is published, and the
      snapshot's API leads to it. */
  predicate Serves(s: Store, snap: Snapshot) {
    var schema := Strip(snap.schemaVersion);
    var api := Or(snap.apiVersion, "v1");
    && schema in s.schemas
    && s.schemas[schema] == SchemaRow(ObjectOr(snap.inputSchema, map[]), ObjectOr(snap.outputSchema, map[]), Public)
    && api in s.apis && s.apis[api] == ApiRow(schema, Public)
  }

  lemma PublishRestores(n: Normalizer, s: Store, id: nat)
    requires Publish(n, s, id).Done?
    ensures var snap := s.versions[id].snapshot;
            && RestoredConfig(n, s.config, snap) == Done(Publish(n, s, id).value.config)
            && (Strip(snap.schemaVersion) != "" ==> Serves(Publish(n, s, id).value, snap))
            && Or(snap.apiVersion, "v1") in Publish(n, s, id).value.apis
  {
  }

  lemma RollbackRestores(n: Normalizer, s: Store, id: nat)
    requires Rollback(n, s, id).Done?
    ensures var snap := s.versions[id].snapshot;
            && RestoredConfig(n, s.config, snap) == Done(Rollback(n, s, id).value.config)
            && (if Strip(snap.schemaVersion) != "" then Serves(Rollback(n, s, id).value, snap)
                else Rollback(n, s, id).value.schemas == s.schemas && Rollback(n, s, id).value.apis == s.apis)
  {
  }

  /** Whatever has become of the agent's schemas and APIs, a rollback to `id` serves the contract of its snapshot. */
  ghost predicate ContractFixed(n: Normalizer, s: Store, id: nat)
    requires id in s.versions
  {
    forall schemas, apis ::
      var r := Rollback(n, s.(schemas := schemas, apis := apis), id);
      r.Done? ==> Serves(r.value, s.versions[id].snapshot)
  }

  /** It does so exactly when the snapshot names a schema, which validation does not ask for. */
  lemma ContractFixedIff(n: Normalizer, s: Store, id: nat)
    requires Rollback(n, s, id).Done?
    ensures ContractFixed(n, s, id) <==> Strip(s.versions[id].snapshot.schemaVersion) != ""
  {
    var snap := s.versions[id].snapshot;
    forall schemas, apis | Strip(snap.schemaVersion) != ""
      ensures var r := Rollback(n, s.(schemas := schemas, apis := apis), id); r.Done? ==> Serves(r.value, snap)
    {
      var edited := s.(schemas := schemas, apis := apis);
      if Rollback(n, edited, id).Done? { RollbackRestores(n, edited, id); }
    }
    if Strip(snap.schemaVersion) == "" {
      var bare := s.(schemas := map[], apis := map[]);
      RollsBackIff(n, s, id);
      RollsBackIff(n, bare, id);
      RollbackRestores(n, bare, id);
      assert !Serves(Rollback(n, bare, id).value, snap);
    }
  }

  /** Publish a version, do anything, roll back to it: the live configuration and the version served are those that
      followed the publication. So is the contract if the snapshot names a schema; if it names none, the publication
      bound its API, and the rollback leaves schemas and APIs as they have become. */
  lemma RollbackIsHistoryIndependent(n: Normalizer, s: Store, id: nat, steps: seq<Step>)
    requires Consistent(s) && Publish(n, s, id).Done? && Complete(s.versions[id].snapshot)
    requires Rollback(n, Run(n, Publish(n, s, id).value, steps), id).Done?
    ensures var published := Publish(n, s, id).value;
            var rolledBack := Rollback(n, Run(n, published, steps), id).value;
            && rolledBack.config == published.config
            && rolledBack.current == published.current == Some(id)
            && rolledBack.versions[id] == published.versions[id]
            && rolledBack.status == Active && rolledBack.apiEnabled
            && (if Strip(s.versions[id].snapshot.schemaVersion) != ""
                then Serves(published, s.versions[id].snapshot) && Serves(rolledBack, s.versions[id].snapshot)
                else && Or(s.versions[id].snapshot.apiVersion, "v1") in published.apis
                     && rolledBack.schemas == Run(n, published, steps).schemas
                     && rolledBack.apis == Run(n, published, steps).apis)
  {
    var published := Publish(n, s, id).value;
    var later := Run(n, published, steps);
    PublishServes(n, s, id);
    LifecycleOverRuns(n, published, steps);
    assert Released(published, id);
    VersionNameKept(n, published, steps, id);
    RollbackServes(n, later, id);
    PublishRestores(n, s, id);
    RollbackRestores(n, later, id);
    CompleteIsDetermined(n, s.versions[id].snapshot, s.config, later.config);
  }

  lemma {:induction false} VersionNameKept(n: Normalizer, s: Store, steps: seq<Step>, id: nat)
    requires Released(s, id)
    ensures Released(Run(n, s, steps), id) && Run(n, s, steps).versions[id].name == s.versions[id].name
    decreases |steps|
  {
    if steps == [] {
    } else {
      StepKeepsReleased(n, s, steps[0], id);
      VersionNameKept(n, Next(n, s, steps[0]), steps[1..], id);
    }
  }

  /** An incomplete snapshot does carry history: after one write to the live configuration, rolling back to the
      same version gives a configuration it did not give before. */
  lemma IncompleteRollbackCarriesHistory(n: Normalizer, s: Store, id: nat)
    requires Rollback(n, s, id).Done? && !Complete(s.versions[id].snapshot)
    ensures var edit := Elsewhere(Twisted(s.config, s.versions[id].snapshot), s.schemas, s.apis, s.skills, s.mcps);
            var again := Rollback(n, Next(n, s, edit), id);
            again.Done? ==> again.value.config != Rollback(n, s, id).value.config
  {
    var snap := s.versions[id].snapshot;
    var edited := s.(config := Twisted(s.config, snap));
    EditOnlyConfig(n, s, Twisted(s.config, snap));
    RollbackRestores(n, s, id);
    TwistedShows(n, s.config, snap);
    if Rollback(n, edited, id).Done? {
      RollbackRestores(n, edited, id);
    }
  }

  lemma EditOnlyConfig(n: Normalizer, s: Store, c: Config)
    ensures Next(n, s, Elsewhere(c, s.schemas, s.apis, s.skills, s.mcps)) == s.(config := c)
  {
  }
}
