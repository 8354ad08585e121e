/** What the database-connection and binding routes do to the rows, and what every run of them keeps. */
module ScopeLifecycle {
  import opened Options
  import opened DatabaseScopes

  /* The routes. */

  function Implementations(connectorRevision: nat): seq<Implementation> {
    seq(|OPERATIONS|, i requires 0 <= i < |OPERATIONS| => Implementation(OPERATIONS[i], connectorRevision))
  }

  /** A new scope with its first revision. */
  function WithScope(s: Store, instance: nat, connectorRevision: nat, databaseType: string, sel: Selection): Store {
    var definition := DefinitionOf(instance, connectorRevision, databaseType, sel);
    s.(scopes := s.scopes + [Scope(instance, |s.scopeRevisions|)],
       scopeRevisions := s.scopeRevisions + [Revision(|s.scopes|, 1, definition)])
  }

  function WithScopes(s: Store, instance: nat, connectorRevision: nat, databaseType: string,
                      selections: seq<Selection>): Store {
    if selections == [] then s
    else
      var n := |selections| - 1;
      WithScope(WithScopes(s, instance, connectorRevision, databaseType, selections[..n]), instance, connectorRevision,
                databaseType, selections[n])
  }

  function CreateConnection(s: Store, name: string, databaseType: string, selections: seq<Selection>,
                            d: Discovery): Outcome<Store> {
    if exists i | 0 <= i < |selections| :: !Selectable(selections[i]) then Refused(InvalidSelection)
    else if !d.ready then Refused(NotReady)
    else if exists i | 0 <= i < |selections| :: !Validates(d, selections[i]) then Refused(NotDiscovered)
    else if exists i | 0 <= i < |s.instances| :: s.instances[i].name == name then Refused(NameTaken)
    else
      var instance, revision := |s.instances|, |s.connectorRevisions|;
      var added := s.(instances := s.instances + [Instance(name, true, Healthy, revision)],
                       connectorRevisions := s.connectorRevisions + [Revision(instance, 1, databaseType)]);
      var filled := WithScopes(added, instance, revision, databaseType, selections);
      Done(filled.(implementations := filled.implementations + Implementations(revision)))
  }

  function CreateScope(s: Store, instance: nat, sel: Selection, d: Discovery): Outcome<Store> {
    if instance >= |s.instances| then Refused(NoSuchInstance)
    else if s.instances[instance].current >= |s.connectorRevisions| then Refused(NoSuchRevision)
    else if !Selectable(sel) then Refused(InvalidSelection)
    else if !Validates(d, sel) then Refused(NotDiscovered)
    else
      var revision := s.instances[instance].current;
      Done(WithScope(s, instance, revision, s.connectorRevisions[revision].content, sel))
  }

  /** Carries the scopes from position `k` on to a new connector revision of their instance. */
  function CarryForward(s: Store, instance: nat, connectorRevision: nat, databaseType: string, d: Discovery,
                        k: nat): Outcome<Store>
    decreases |s.scopes| - k
  {
    if k >= |s.scopes| then Done(s)
    else if s.scopes[k].instance != instance || s.scopes[k].current >= |s.scopeRevisions| then
      CarryForward(s, instance, connectorRevision, databaseType, d, k + 1)
    else
      var sel := SelectionOf(s.scopeRevisions[s.scopes[k].current].content);
      if !Selectable(sel) then Refused(InvalidSelection)
      else if !Validates(d, sel) then Refused(NotDiscovered)
      else CarryForward(CarriedOne(s, instance, connectorRevision, databaseType, k), instance, connectorRevision,
                        databaseType, d, k + 1)
  }

  /** Scope `k` carried on to the connector revision. */
  function CarriedOne(s: Store, instance: nat, connectorRevision: nat, databaseType: string, k: nat): Store
    requires k < |s.scopes| && s.scopes[k].current < |s.scopeRevisions|
  {
    var current := s.scopeRevisions[s.scopes[k].current];
    WithRevision(s, k, Carried(current.content, instance, connectorRevision, databaseType), current.number + 1)
  }

  /** Scope `k` gets one more revision, which becomes its current one. */
  function WithRevision(s: Store, k: nat, definition: Definition, number: nat): Store
    requires k < |s.scopes|
  {
    s.(scopeRevisions := s.scopeRevisions + [Revision(k, number, definition)],
       scopes := s.scopes[k := s.scopes[k].(current := |s.scopeRevisions|)])
  }

  /** The instance points at a new connector revision and its scopes do not follow yet. */
  function Repointed(s: Store, instance: nat, databaseType: string): Store
    requires instance < |s.instances|
  {
    var served := s.instances[instance].(current := |s.connectorRevisions|, health := Healthy);
    s.(instances := s.instances[instance := served],
       connectorRevisions := s.connectorRevisions +
         [Revision(instance, MaxNumber(s.connectorRevisions, instance) + 1, databaseType)])
  }

  function ReplaceEndpoint(s: Store, instance: nat, databaseType: string, d: Discovery): Outcome<Store> {
    if instance >= |s.instances| then Refused(NoSuchInstance)
    else if s.instances[instance].current >= |s.connectorRevisions| then Refused(NoSuchRevision)
    else if databaseType != s.connectorRevisions[s.instances[instance].current].content then Refused(TypeChanged)
    else if !d.ready then Refused(NotReady)
    else
      var revision := |s.connectorRevisions|;
      var carried := CarryForward(Repointed(s, instance, databaseType), instance, revision, databaseType, d, 0);
      if carried.Refused? then carried
      else Done(carried.value.(implementations := carried.value.implementations + Implementations(revision)))
  }

  /** The instance row with another name and switch. */
  function Renamed(s: Store, instance: nat, name: Option<string>, enabled: Option<bool>): Store
    requires instance < |s.instances|
  {
    var row := s.instances[instance];
    s.(instances := s.instances[instance := row.(name := if name.Some? then name.value else row.name,
                                                 enabled := if enabled.Some? then enabled.value else row.enabled)])
  }

  datatype Endpoint = Endpoint(databaseType: string, discovery: Discovery)

  predicate NameFree(s: Store, instance: nat, name: Option<string>) {
    name.Some? ==> forall i | 0 <= i < |s.instances| && i != instance :: s.instances[i].name != name.value
  }

  /** One request may rename the connection, switch it and replace its endpoint; it does all of that or nothing.
      A name that is taken is refused by the table when the rows are written. */
  function UpdateConnection(s: Store, instance: nat, name: Option<string>, enabled: Option<bool>,
                            endpoint: Option<Endpoint>): Outcome<Store> {
    if instance >= |s.instances| then Refused(NoSuchInstance)
    else if s.instances[instance].current >= |s.connectorRevisions| then Refused(NoSuchRevision)
    else
      var renamed := Renamed(s, instance, name, enabled);
      var r := if endpoint.None? then Done(renamed)
               else ReplaceEndpoint(renamed, instance, endpoint.value.databaseType, endpoint.value.discovery);
      if r.Done? && !NameFree(s, instance, name) then Refused(NameTaken) else r
  }

  /** Disabling, and the outcome of a health check. */
  function SetHealth(s: Store, instance: nat, enabled: bool, health: Health): Outcome<Store> {
    if instance >= |s.instances| then Refused(NoSuchInstance)
    else Done(s.(instances := s.instances[instance := s.instances[instance].(enabled := enabled, health := health)]))
  }

  /* Bindings. */

  datatype BindingRequest = BindingRequest(scopeRevision: nat, prefix: string, operations: seq<Operation>)

  function NameOf(o: Operation): string {
    match o
    case ListSchemas => "list_schemas"
    case ListTables => "list_tables"
    case DescribeTable => "describe_table"
    case PreviewTable => "preview_table"
    case Select => "select"
    case Explain => "explain"
  }

  function Needed(o: Operation): Option<PermissionKey> {
    match o
    case DescribeTable => Some(DescribeTables)
    case PreviewTable => Some(Preview)
    case Select => Some(Query)
    case Explain => Some(Query)
    case ListSchemas => None
    case ListTables => None
  }

  predicate Permits(d: Definition, o: Operation) {
    Needed(o).None? || (Needed(o).value in d.permissions && d.permissions[Needed(o).value])
  }

  /** An implementation of the operation on the connector revision. */
  function FindImplementation(implementations: seq<Implementation>, o: Operation,
                              connectorRevision: nat): (found: Option<nat>)
    ensures found.Some? ==>
            found.value < |implementations| && implementations[found.value] == Implementation(o, connectorRevision)
    ensures found.None? <==> Implementation(o, connectorRevision) !in implementations
  {
    if implementations == [] then None
    else
      var n := |implementations| - 1;
      assert implementations == implementations[..n] + [implementations[n]];
      if implementations[n] == Implementation(o, connectorRevision) then Some(n)
      else FindImplementation(implementations[..n], o, connectorRevision)
  }

  /** Why a scope revision may not be bound; `None` when it may. */
  function Unbindable(s: Store, scopeRevision: nat): Option<Refusal> {
    if scopeRevision >= |s.scopeRevisions| || s.scopeRevisions[scopeRevision].owner >= |s.scopes| then
      Some(NoSuchRevision)
    else
      var scope := s.scopes[s.scopeRevisions[scopeRevision].owner];
      if scope.current != scopeRevision then Some(Outdated)
      else if scope.instance >= |s.instances| then Some(NoSuchInstance)
      else
        var instance := s.instances[scope.instance];
        if !instance.enabled || instance.health != Healthy then Some(InstanceUnavailable)
        else if s.scopeRevisions[scopeRevision].content.connectorRevision != instance.current then
          Some(RevisionMismatch)
        else None
  }

  function AliasOf(prefix: string, o: Operation): string {
    prefix + "_" + NameOf(o)
  }

  predicate AliasUsed(bindings: seq<Binding>, version: nat, alias: string) {
    exists i | 0 <= i < |bindings| :: bindings[i].version == version && bindings[i].alias == alias
  }

  /** Adds the binding of one operation, pinned to its implementation on `connectorRevision`. */
  function BindOne(s: Store, version: nat, scopeRevision: nat, connectorRevision: nat, prefix: string,
                   o: Operation): Outcome<Store>
    requires scopeRevision < |s.scopeRevisions|
  {
    var definition := s.scopeRevisions[scopeRevision].content;
    var alias := AliasOf(prefix, o);
    if !Permits(definition, o) then Refused(NotPermitted)
    else if AliasUsed(s.bindings, version, alias) || |alias| > 128 then Refused(AliasTaken)
    else
      var found := FindImplementation(s.implementations, o, connectorRevision);
      if found.None? then Refused(NotImplemented)
      else Done(s.(bindings := s.bindings + [Binding(version, alias, Database(found.value, scopeRevision))]))
  }

  function BindOperations(s: Store, version: nat, scopeRevision: nat, connectorRevision: nat, prefix: string,
                          operations: seq<Operation>): (r: Outcome<Store>)
    requires scopeRevision < |s.scopeRevisions|
    ensures r.Done? ==> r.value == s.(bindings := r.value.bindings)
  {
    if operations == [] then Done(s)
    else
      var n := |operations| - 1;
      var earlier := BindOperations(s, version, scopeRevision, connectorRevision, prefix, operations[..n]);
      if earlier.Refused? then earlier
      else BindOne(earlier.value, version, scopeRevision, connectorRevision, prefix, operations[n])
  }

  /** The current connector revision of the instance behind a scope revision. */
  function ServedRevision(s: Store, scopeRevision: nat): nat
    requires Unbindable(s, scopeRevision).None?
  {
    s.instances[s.scopes[s.scopeRevisions[scopeRevision].owner].instance].current
  }

  function BindAll(s: Store, version: nat, requests: seq<BindingRequest>): (r: Outcome<Store>)
    ensures r.Done? ==> r.value == s.(bindings := r.value.bindings)
  {
    if requests == [] then Done(s)
    else
      var n := |requests| - 1;
      var earlier := BindAll(s, version, requests[..n]);
      if earlier.Refused? then earlier
      else
        var reason := Unbindable(s, requests[n].scopeRevision);
        if reason.Some? then Refused(reason.value)
        else BindOperations(earlier.value, version, requests[n].scopeRevision,
                            ServedRevision(s, requests[n].scopeRevision),
                            requests[n].prefix, requests[n].operations)
  }

  /** The bindings without the database bindings of a version. */
  function Preserved(bindings: seq<Binding>, version: nat): seq<Binding> {
    if bindings == [] then []
    else
      var rest, last := Preserved(bindings[..|bindings| - 1], version), bindings[|bindings| - 1];
      if last.version == version && last.target.Database? then rest else rest + [last]
  }

  function UpdateBindings(s: Store, version: nat, isDraft: bool, requests: seq<BindingRequest>): Outcome<Store> {
    if !isDraft then Refused(NotDraft)
    else BindAll(s.(bindings := Preserved(s.bindings, version)), version, requests)
  }

  /* Steps and runs. */

  datatype Step =
    | Create(name: string, databaseType: string, selections: seq<Selection>, discovery: Discovery)
    | AddScope(instance: nat, selection: Selection, discovery: Discovery)
    | Update(instance: nat, rename: Option<string>, switch: Option<bool>, endpoint: Option<Endpoint>)
    | Set(instance: nat, enabled: bool, health: Health)
    | Bind(version: nat, isDraft: bool, requests: seq<BindingRequest>)

  function Attempt(s: Store, step: Step): Outcome<Store> {
    match step
    case Create(name, databaseType, selections, discovery) =>
      CreateConnection(s, name, databaseType, selections, discovery)
    case AddScope(instance, selection, discovery) => CreateScope(s, instance, selection, discovery)
    case Update(instance, rename, switch, endpoint) => UpdateConnection(s, instance, rename, switch, endpoint)
    case Set(instance, enabled, health) => SetHealth(s, instance, enabled, health)
    case Bind(version, isDraft, requests) => UpdateBindings(s, version, isDraft, requests)
  }

  function Next(s: Store, step: Step): Store {
    var r := Attempt(s, step);
    if r.Done? then r.value else s
  }

  function Run(s: Store, steps: seq<Step>): Store
    decreases |steps|
  {
    if steps == [] then s else Run(Next(s, steps[0]), steps[1..])
  }

  /* The invariant. */

  /** Instances and connector revisions. */
  ghost predicate ConnectorsInv(s: Store) {
    && Numbered(s.connectorRevisions)
    && (forall r | 0 <= r < |s.connectorRevisions| :: s.connectorRevisions[r].owner < |s.instances|)
    && (forall i: nat | i < |s.instances| :: IsLatest(s.connectorRevisions, i, s.instances[i].current))
    && (forall r: nat, o: Operation | r < |s.connectorRevisions| :: Implementation(o, r) in s.implementations)
  }

  /** A stored revision belongs to its scope's instance and to one of that instance's connector revisions. */
  ghost predicate RevisionInv(s: Store, r: nat)
    requires r < |s.scopeRevisions|
  {
    var revision := s.scopeRevisions[r];
    && revision.owner < |s.scopes|
    && WellStored(revision.content)
    && revision.content.instance == s.scopes[revision.owner].instance
    && revision.content.connectorRevision < |s.connectorRevisions|
    && s.connectorRevisions[revision.content.connectorRevision].owner == revision.content.instance
    && s.connectorRevisions[revision.content.connectorRevision].content == revision.content.databaseType
  }

  ghost predicate ScopesInv(s: Store) {
    && Numbered(s.scopeRevisions)
    && (forall k: nat | k < |s.scopes| ::
          s.scopes[k].instance < |s.instances| && IsLatest(s.scopeRevisions, k, s.scopes[k].current))
    && (forall r: nat | r < |s.scopeRevisions| :: RevisionInv(s, r))
  }

  /** The current revision of scope `k` names the current connector revision of its instance. */
  ghost predicate UpToDate(s: Store, k: nat)
    requires k < |s.scopes|
  {
    && s.scopes[k].current < |s.scopeRevisions| && s.scopes[k].instance < |s.instances|
    && s.scopeRevisions[s.scopes[k].current].content.connectorRevision == s.instances[s.scopes[k].instance].current
  }

  /** A database binding names an implementation and a scope revision of the same connector revision. */
  ghost predicate Coherent(s: Store, b: Binding) {
    b.target.Database? ==>
      && b.target.implementation < |s.implementations| && b.target.scopeRevision < |s.scopeRevisions|
      && s.implementations[b.target.implementation].connectorRevision
         == s.scopeRevisions[b.target.scopeRevision].content.connectorRevision
  }

  ghost predicate Inv(s: Store) {
    && ConnectorsInv(s) && ScopesInv(s)
    && (forall k: nat | k < |s.scopes| :: UpToDate(s, k))
    && (forall i | 0 <= i < |s.bindings| :: Coherent(s, s.bindings[i]))
  }

  const EMPTY := Store([], [], [], [], [], [])

  lemma EmptyInv()
    ensures Inv(EMPTY)
  {
  }

  /** Rows are only ever added: what was there keeps its place and content. */
  predicate Extends(s: Store, t: Store) {
    && s.connectorRevisions <= t.connectorRevisions
    && s.scopeRevisions <= t.scopeRevisions
    && s.implementations <= t.implementations
    && |s.instances| <= |t.instances|
    && |s.scopes| <= |t.scopes|
    && (forall k | 0 <= k < |s.scopes| :: t.scopes[k].instance == s.scopes[k].instance)
  }

  lemma CoherentKept(s: Store, t: Store, b: Binding)
    requires Coherent(s, b) && s.scopeRevisions <= t.scopeRevisions && s.implementations <= t.implementations
    ensures Coherent(t, b)
  {
  }

  lemma RevisionInvKept(s: Store, t: Store, r: nat)
    requires r < |s.scopeRevisions| && RevisionInv(s, r) && Extends(s, t)
    ensures RevisionInv(t, r)
  {
  }

  /* Adding scopes. */

  lemma WithScopeKeeps(s: Store, instance: nat, sel: Selection)
    requires ScopesInv(s) && instance < |s.instances| && Selectable(sel)
    requires s.instances[instance].current < |s.connectorRevisions|
    requires s.connectorRevisions[s.instances[instance].current].owner == instance
    requires forall k: nat | k < |s.scopes| :: UpToDate(s, k)
    ensures var current := s.instances[instance].current;
            var t := WithScope(s, instance, current, s.connectorRevisions[current].content, sel);
            && ScopesInv(t) && Extends(s, t) && forall k: nat | k < |t.scopes| :: UpToDate(t, k)
  {
    var current := s.instances[instance].current;
    var databaseType := s.connectorRevisions[current].content;
    var t := WithScope(s, instance, current, databaseType, sel);
    var row := Revision(|s.scopes|, 1, DefinitionOf(instance, current, databaseType, sel));
    NoneYet(s, |s.scopes|);
    NumberedAppended(s.scopeRevisions, row);
    SelectionRoundTrip(instance, current, databaseType, sel);
    forall r: nat | r < |t.scopeRevisions|
      ensures RevisionInv(t, r)
    {
      if r < |s.scopeRevisions| { RevisionInvKept(s, t, r); }
    }
    forall k: nat | k < |t.scopes|
      ensures t.scopes[k].instance < |t.instances| && IsLatest(t.scopeRevisions, k, t.scopes[k].current)
              && UpToDate(t, k)
    {
      if k < |s.scopes| { assert UpToDate(s, k) && IsLatest(s.scopeRevisions, k, s.scopes[k].current); }
    }
  }

  /** A scope that does not exist has no revisions. */
  lemma NoneYet(s: Store, owner: nat)
    requires ScopesInv(s) && owner >= |s.scopes|
    ensures CountOf(s.scopeRevisions, owner) == 0
  {
    forall r | 0 <= r < |s.scopeRevisions|
      ensures s.scopeRevisions[r].owner != owner
    {
      assert RevisionInv(s, r);
    }
    NoRowsNoCount(s.scopeRevisions, owner);
  }

  lemma {:induction false} NoRowsNoCount<T>(revisions: seq<Revision<T>>, owner: nat)
    requires forall r | 0 <= r < |revisions| :: revisions[r].owner != owner
    ensures CountOf(revisions, owner) == 0
  {
    if revisions == [] {
    } else {
      NoRowsNoCount(revisions[..|revisions| - 1], owner);
    }
  }

  lemma {:induction false} WithScopesKeeps(s: Store, instance: nat, selections: seq<Selection>)
    requires ScopesInv(s) && instance < |s.instances| && forall i | 0 <= i < |selections| :: Selectable(selections[i])
    requires s.instances[instance].current < |s.connectorRevisions|
    requires s.connectorRevisions[s.instances[instance].current].owner == instance
    requires forall k: nat | k < |s.scopes| :: UpToDate(s, k)
    ensures var current := s.instances[instance].current;
            var t := WithScopes(s, instance, current, s.connectorRevisions[current].content, selections);
            && t == s.(scopes := t.scopes, scopeRevisions := t.scopeRevisions)
            && ScopesInv(t) && Extends(s, t) && forall k: nat | k < |t.scopes| :: UpToDate(t, k)
  {
    if selections == [] {
    } else {
      var n := |selections| - 1;
      WithScopesKeeps(s, instance, selections[..n]);
      var current := s.instances[instance].current;
      WithScopeKeeps(WithScopes(s, instance, current, s.connectorRevisions[current].content, selections[..n]), instance,
                     selections[n]);
    }
  }

  lemma ImplementationsCover(before: seq<Implementation>, revisions: nat)
    requires forall r: nat, o: Operation | r < revisions :: Implementation(o, r) in before
    ensures forall r: nat, o: Operation | r < revisions + 1 ::
              Implementation(o, r) in before + Implementations(revisions)
  {
    forall o: Operation
      ensures Implementation(o, revisions) in Implementations(revisions)
    {
      var i := match o
        case ListSchemas => 0
        case ListTables => 1
        case DescribeTable => 2
        case PreviewTable => 3
        case Select => 4
        case Explain => 5;
      assert OPERATIONS[i] == o && Implementations(revisions)[i] == Implementation(o, revisions);
    }
  }

  /* Replacing an endpoint. */

  lemma WithRevisionKeeps(s: Store, k: nat, definition: Definition, number: nat)
    requires ScopesInv(s) && k < |s.scopes|
    requires WellStored(definition) && definition.instance == s.scopes[k].instance
    requires definition.connectorRevision < |s.connectorRevisions|
    requires s.connectorRevisions[definition.connectorRevision].owner == definition.instance
    requires s.connectorRevisions[definition.connectorRevision].content == definition.databaseType
    requires number == s.scopeRevisions[s.scopes[k].current].number + 1
    ensures var t := WithRevision(s, k, definition, number);
            ScopesInv(t) && Extends(s, t)
  {
    var t := WithRevision(s, k, definition, number);
    assert IsLatest(s.scopeRevisions, k, s.scopes[k].current);
    NumberedAppended(s.scopeRevisions, Revision(k, number, definition));
    forall j: nat | j < |t.scopes|
      ensures t.scopes[j].instance < |t.instances| && IsLatest(t.scopeRevisions, j, t.scopes[j].current)
    {
      assert IsLatest(s.scopeRevisions, j, s.scopes[j].current);
    }
    assert Extends(s, t);
    forall r: nat | r < |t.scopeRevisions|
      ensures RevisionInv(t, r)
    {
      if r < |s.scopeRevisions| { RevisionInvKept(s, t, r); }
    }
  }

  /** The current definition of scope `k`. */
  function CurrentOf(s: Store, k: nat): Definition
    requires k < |s.scopes| && s.scopes[k].current < |s.scopeRevisions|
  {
    s.scopeRevisions[s.scopes[k].current].content
  }

  /** What carrying the scopes from `k` on left behind: the scopes of the instance moved on to the connector
      revision and otherwise say what they said; all other scopes are untouched. */
  ghost predicate CarriedFrom(s: Store, t: Store, instance: nat, connectorRevision: nat, databaseType: string, k: nat) {
    && |t.scopes| == |s.scopes|
    && forall j: nat | j < |s.scopes| ::
         if j < k || s.scopes[j].instance != instance then t.scopes[j] == s.scopes[j]
         else && s.scopes[j].current < |s.scopeRevisions| && t.scopes[j].current < |t.scopeRevisions|
              && CurrentOf(t, j) ==
                 CurrentOf(s, j).(connectorRevision := connectorRevision, databaseType := databaseType)
  }

  lemma WellStoredCarried(d: Definition, connectorRevision: nat, databaseType: string)
    requires WellStored(d)
    ensures Carried(d, d.instance, connectorRevision, databaseType) ==
            d.(connectorRevision := connectorRevision, databaseType := databaseType)
    ensures WellStored(Carried(d, d.instance, connectorRevision, databaseType))
  {
    CarriedKeepsMeaningIff(d, d.instance, connectorRevision, databaseType);
    SelectionRoundTrip(d.instance, connectorRevision, databaseType, SelectionOf(d));
  }

  ghost predicate Names(s: Store, instance: nat, connectorRevision: nat, databaseType: string) {
    && instance < |s.instances| && connectorRevision < |s.connectorRevisions|
    && s.connectorRevisions[connectorRevision].owner == instance
    && s.connectorRevisions[connectorRevision].content == databaseType
  }

  lemma CurrentIsWellStored(s: Store, k: nat)
    requires ScopesInv(s) && k < |s.scopes|
    ensures s.scopes[k].current < |s.scopeRevisions|
    ensures WellStored(CurrentOf(s, k)) && CurrentOf(s, k).instance == s.scopes[k].instance
  {
    assert IsLatest(s.scopeRevisions, k, s.scopes[k].current);
    assert RevisionInv(s, s.scopes[k].current);
  }

  /** How one scope moves on. */
  ghost predicate MovedOn(s: Store, u: Store, connectorRevision: nat, databaseType: string, k: nat)
    requires k < |s.scopes| && s.scopes[k].current < |s.scopeRevisions|
  {
    && u == s.(scopes := u.scopes, scopeRevisions := u.scopeRevisions)
    && u.scopes == s.scopes[k := s.scopes[k].(current := |s.scopeRevisions|)]
    && s.scopeRevisions < u.scopeRevisions
    && CurrentOf(u, k) == CurrentOf(s, k).(connectorRevision := connectorRevision, databaseType := databaseType)
  }

  /** The definition of scope `k` on another connector revision. */
  function Moved(s: Store, connectorRevision: nat, databaseType: string, k: nat): Definition
    requires k < |s.scopes| && s.scopes[k].current < |s.scopeRevisions|
  {
    CurrentOf(s, k).(connectorRevision := connectorRevision, databaseType := databaseType)
  }

  lemma CarriedOneIs(s: Store, instance: nat, connectorRevision: nat, databaseType: string, k: nat)
    requires k < |s.scopes| && s.scopes[k].current < |s.scopeRevisions|
    requires WellStored(CurrentOf(s, k)) && CurrentOf(s, k).instance == instance
    ensures WellStored(Moved(s, connectorRevision, databaseType, k))
    ensures CarriedOne(s, instance, connectorRevision, databaseType, k)
         == WithRevision(s, k, Moved(s, connectorRevision, databaseType, k),
                         s.scopeRevisions[s.scopes[k].current].number + 1)
  {
    WellStoredCarried(CurrentOf(s, k), connectorRevision, databaseType);
  }

  lemma CarriedOneKeeps(s: Store, instance: nat, connectorRevision: nat, databaseType: string, k: nat)
    requires ScopesInv(s) && Names(s, instance, connectorRevision, databaseType)
    requires k < |s.scopes| && s.scopes[k].instance == instance
    ensures s.scopes[k].current < |s.scopeRevisions|
    ensures var u := CarriedOne(s, instance, connectorRevision, databaseType, k);
            ScopesInv(u) && Extends(s, u) && MovedOn(s, u, connectorRevision, databaseType, k)
  {
    CurrentIsWellStored(s, k);
    CarriedOneIs(s, instance, connectorRevision, databaseType, k);
    MovedKeeps(s, connectorRevision, databaseType, k);
  }

  lemma MovedKeeps(s: Store, connectorRevision: nat, databaseType: string, k: nat)
    requires ScopesInv(s) && k < |s.scopes| && s.scopes[k].current < |s.scopeRevisions|
    requires Names(s, s.scopes[k].instance, connectorRevision, databaseType)
    requires CurrentOf(s, k).instance == s.scopes[k].instance
             && WellStored(Moved(s, connectorRevision, databaseType, k))
    ensures var u := WithRevision(s, k, Moved(s, connectorRevision, databaseType, k),
                                  s.scopeRevisions[s.scopes[k].current].number + 1);
            ScopesInv(u) && Extends(s, u) && MovedOn(s, u, connectorRevision, databaseType, k)
  {
    var definition, number := Moved(s, connectorRevision, databaseType, k),
      s.scopeRevisions[s.scopes[k].current].number + 1;
    WithRevisionKeeps(s, k, definition, number);
    RevisionMovesOn(s, connectorRevision, databaseType, k, definition, number);
  }

  lemma RevisionMovesOn(s: Store, connectorRevision: nat, databaseType: string, k: nat, definition: Definition,
                        number: nat)
    requires k < |s.scopes| && s.scopes[k].current < |s.scopeRevisions|
    requires definition == CurrentOf(s, k).(connectorRevision := connectorRevision, databaseType := databaseType)
    ensures MovedOn(s, WithRevision(s, k, definition, number), connectorRevision, databaseType, k)
  {
  }

  lemma {:induction false} CarryForwardKeeps(s: Store, instance: nat, connectorRevision: nat, databaseType: string,
                                             d: Discovery, k: nat)
    requires ScopesInv(s) && Names(s, instance, connectorRevision, databaseType)
    requires CarryForward(s, instance, connectorRevision, databaseType, d, k).Done?
    ensures var t := CarryForward(s, instance, connectorRevision, databaseType, d, k).value;
            && t == s.(scopes := t.scopes, scopeRevisions := t.scopeRevisions)
            && ScopesInv(t) && Extends(s, t) && CarriedFrom(s, t, instance, connectorRevision, databaseType, k)
    decreases |s.scopes| - k
  {
    if k >= |s.scopes| {
    } else {
      assert IsLatest(s.scopeRevisions, k, s.scopes[k].current);
      if s.scopes[k].instance != instance {
        CarryForwardKeeps(s, instance, connectorRevision, databaseType, d, k + 1);
        var t := CarryForward(s, instance, connectorRevision, databaseType, d, k + 1).value;
        CarriedSkip(s, t, instance, connectorRevision, databaseType, k);
      } else {
        CurrentIsWellStored(s, k);
        CarriedOneKeeps(s, instance, connectorRevision, databaseType, k);
        var u := CarriedOne(s, instance, connectorRevision, databaseType, k);
        CarryForwardKeeps(u, instance, connectorRevision, databaseType, d, k + 1);
        var t := CarryForward(u, instance, connectorRevision, databaseType, d, k + 1).value;
        CarriedStep(s, u, t, instance, connectorRevision, databaseType, k);
        ExtendsThrough(s, u, t);
      }
    }
  }

  lemma ExtendsThrough(s: Store, u: Store, t: Store)
    requires Extends(s, u) && Extends(u, t)
    ensures Extends(s, t)
  {
  }

  lemma CarriedSkip(s: Store, t: Store, instance: nat, connectorRevision: nat, databaseType: string, k: nat)
    requires k < |s.scopes| && s.scopes[k].instance != instance
    requires CarriedFrom(s, t, instance, connectorRevision, databaseType, k + 1)
    ensures CarriedFrom(s, t, instance, connectorRevision, databaseType, k)
  {
  }

  lemma CarriedStep(s: Store, u: Store, t: Store, instance: nat, connectorRevision: nat, databaseType: string, k: nat)
    requires ScopesInv(s) && k < |s.scopes| && s.scopes[k].instance == instance
    requires s.scopes[k].current < |s.scopeRevisions|
    requires u.scopes == s.scopes[k := s.scopes[k].(current := |s.scopeRevisions|)]
    requires s.scopeRevisions < u.scopeRevisions && u.scopeRevisions <= t.scopeRevisions
    requires CurrentOf(u, k) == CurrentOf(s, k).(connectorRevision := connectorRevision, databaseType := databaseType)
    requires CarriedFrom(u, t, instance, connectorRevision, databaseType, k + 1)
    ensures CarriedFrom(s, t, instance, connectorRevision, databaseType, k)
  {
    forall j: nat | j < |s.scopes|
      ensures if j < k || s.scopes[j].instance != instance then t.scopes[j] == s.scopes[j]
              else && s.scopes[j].current < |s.scopeRevisions| && t.scopes[j].current < |t.scopeRevisions|
                   && CurrentOf(t, j) ==
                      CurrentOf(s, j).(connectorRevision := connectorRevision, databaseType := databaseType)
    {
      assert IsLatest(s.scopeRevisions, j, s.scopes[j].current);
      if j != k { assert u.scopes[j] == s.scopes[j]; }
    }
  }

  /** Carrying forward succeeds exactly when every current scope of the instance is still discovered. */
  lemma {:induction false} CarryForwardDoneIff(s: Store, instance: nat, connectorRevision: nat, databaseType: string,
                                               d: Discovery, k: nat)
    requires ScopesInv(s) && Names(s, instance, connectorRevision, databaseType)
    ensures CarryForward(s, instance, connectorRevision, databaseType, d, k).Done? <==>
            StillDiscovered(s, instance, d, k)
    decreases |s.scopes| - k
  {
    if k >= |s.scopes| {
    } else {
      CurrentIsWellStored(s, k);
      if s.scopes[k].instance != instance {
        CarryForwardDoneIff(s, instance, connectorRevision, databaseType, d, k + 1);
        OtherScopeSkipped(s, instance, connectorRevision, databaseType, d, k);
      } else {
        var u := CarriedOne(s, instance, connectorRevision, databaseType, k);
        CarriedOneKeeps(s, instance, connectorRevision, databaseType, k);
        CarryForwardDoneIff(u, instance, connectorRevision, databaseType, d, k + 1);
        LaterScopesAsBefore(s, u, instance, d, k);
        CarryForwardUnfolds(s, instance, connectorRevision, databaseType, d, k);
      }
    }
  }

  lemma OtherScopeSkipped(s: Store, instance: nat, connectorRevision: nat, databaseType: string, d: Discovery, k: nat)
    requires k < |s.scopes| && s.scopes[k].instance != instance
    ensures CarryForward(s, instance, connectorRevision, databaseType, d, k)
         == CarryForward(s, instance, connectorRevision, databaseType, d, k + 1)
    ensures StillDiscovered(s, instance, d, k) <==> StillDiscovered(s, instance, d, k + 1)
  {
  }

  lemma CarryForwardUnfolds(s: Store, instance: nat, connectorRevision: nat, databaseType: string, d: Discovery, k: nat)
    requires k < |s.scopes| && s.scopes[k].instance == instance && s.scopes[k].current < |s.scopeRevisions|
    requires WellStored(CurrentOf(s, k))
    ensures CarryForward(s, instance, connectorRevision, databaseType, d, k).Done? <==>
            Validates(d, SelectionOf(CurrentOf(s, k)))
            && CarryForward(CarriedOne(s, instance, connectorRevision, databaseType, k), instance, connectorRevision,
                            databaseType, d, k + 1).Done?
  {
  }

  lemma LaterScopesAsBefore(s: Store, u: Store, instance: nat, d: Discovery, k: nat)
    requires ScopesInv(s) && k < |s.scopes| && s.scopes[k].instance == instance
             && s.scopes[k].current < |s.scopeRevisions|
    requires u.scopes == s.scopes[k := s.scopes[k].(current := |s.scopeRevisions|)]
             && s.scopeRevisions < u.scopeRevisions
    ensures StillDiscovered(s, instance, d, k) <==>
            Validates(d, SelectionOf(CurrentOf(s, k))) && StillDiscovered(u, instance, d, k + 1)
  {
    forall j: nat | k < j < |s.scopes|
      ensures u.scopes[j] == s.scopes[j] && s.scopes[j].current < |s.scopeRevisions|
              && CurrentOf(u, j) == CurrentOf(s, j)
    {
      assert IsLatest(s.scopeRevisions, j, s.scopes[j].current);
    }
  }

  ghost predicate StillDiscovered(s: Store, instance: nat, d: Discovery, k: nat) {
    forall j: nat | k <= j < |s.scopes| && s.scopes[j].instance == instance
      && s.scopes[j].current < |s.scopeRevisions| ::
      Validates(d, SelectionOf(CurrentOf(s, j)))
  }

  lemma RepointedKeeps(s: Store, instance: nat, databaseType: string)
    requires Inv(s) && instance < |s.instances|
    ensures var t := Repointed(s, instance, databaseType);
            && ScopesInv(t) && Extends(s, t) && Names(t, instance, |s.connectorRevisions|, databaseType)
            && Numbered(t.connectorRevisions)
            && (forall r | 0 <= r < |t.connectorRevisions| :: t.connectorRevisions[r].owner < |t.instances|)
            && (forall i: nat | i < |t.instances| :: IsLatest(t.connectorRevisions, i, t.instances[i].current))
  {
    var t := Repointed(s, instance, databaseType);
    MaxNumberIsCount(s.connectorRevisions, instance);
    NumberedAppended(s.connectorRevisions, t.connectorRevisions[|s.connectorRevisions|]);
    forall i: nat | i < |t.instances|
      ensures IsLatest(t.connectorRevisions, i, t.instances[i].current)
    {
      assert IsLatest(s.connectorRevisions, i, s.instances[i].current);
    }
    assert Extends(s, t);
    forall r: nat | r < |t.scopeRevisions|
      ensures RevisionInv(t, r)
    {
      RevisionInvKept(s, t, r);
    }
  }

  /** Replacing an endpoint succeeds exactly when the type stays, the new endpoint is ready and every current
      scope of the connection is still discovered there. The scopes of the connection then move on to the new
      connector revision and otherwise say what they said, the other scopes stay as they are, and no row is lost. */
  lemma EndpointReplacement(s: Store, instance: nat, databaseType: string, d: Discovery)
    requires Inv(s) && instance < |s.instances|
    ensures var r := ReplaceEndpoint(s, instance, databaseType, d);
            && (r.Done? <==>
                  && databaseType == s.connectorRevisions[s.instances[instance].current].content
                  && d.ready && StillDiscovered(s, instance, d, 0))
            && (r.Done? ==>
                  && Inv(r.value) && Extends(s, r.value)
                  && CarriedFrom(s, r.value, instance, |s.connectorRevisions|, databaseType, 0)
                  && r.value.instances[instance].current == |s.connectorRevisions|)
  {
    assert IsLatest(s.connectorRevisions, instance, s.instances[instance].current);
    var revision := |s.connectorRevisions|;
    var u := Repointed(s, instance, databaseType);
    RepointedKeeps(s, instance, databaseType);
    CarryForwardDoneIff(u, instance, revision, databaseType, d, 0);
    assert StillDiscovered(u, instance, d, 0) <==> StillDiscovered(s, instance, d, 0) by {
      forall j: nat | j < |s.scopes| && s.scopes[j].current < |s.scopeRevisions|
        ensures CurrentOf(u, j) == CurrentOf(s, j)
      {
      }
    }
    var r := ReplaceEndpoint(s, instance, databaseType, d);
    if r.Done? {
      CarryForwardKeeps(u, instance, revision, databaseType, d, 0);
      var t := CarryForward(u, instance, revision, databaseType, d, 0).value;
      ReplacementInv(s, u, t, r.value, instance, databaseType);
      CarriedThrough(s, u, r.value, instance, revision, databaseType);
    }
  }

  lemma CarriedThrough(s: Store, u: Store, t: Store, instance: nat, connectorRevision: nat, databaseType: string)
    requires u.scopes == s.scopes && u.scopeRevisions == s.scopeRevisions
    requires CarriedFrom(u, t, instance, connectorRevision, databaseType, 0)
    ensures CarriedFrom(s, t, instance, connectorRevision, databaseType, 0)
  {
    forall j: nat | j < |s.scopes| && s.scopes[j].instance == instance
      ensures s.scopes[j].current < |s.scopeRevisions| && CurrentOf(u, j) == CurrentOf(s, j)
    {
      assert u.scopes[j] == s.scopes[j];
    }
  }

  lemma ReplacementInv(s: Store, u: Store, t: Store, last: Store, instance: nat, databaseType: string)
    requires Inv(s) && instance < |s.instances| && u == Repointed(s, instance, databaseType)
    requires Extends(s, u) && Extends(u, t) && ScopesInv(t)
             && t == u.(scopes := t.scopes, scopeRevisions := t.scopeRevisions)
    requires Numbered(u.connectorRevisions)
    requires forall r | 0 <= r < |u.connectorRevisions| :: u.connectorRevisions[r].owner < |u.instances|
    requires forall i: nat | i < |u.instances| :: IsLatest(u.connectorRevisions, i, u.instances[i].current)
    requires CarriedFrom(u, t, instance, |s.connectorRevisions|, databaseType, 0)
    requires last == t.(implementations := t.implementations + Implementations(|s.connectorRevisions|))
    ensures Inv(last) && Extends(s, last)
  {
    ImplementationsCover(s.implementations, |s.connectorRevisions|);
    assert Extends(t, last) && Extends(s, last);
    forall r: nat | r < |last.scopeRevisions|
      ensures RevisionInv(last, r)
    {
      RevisionInvKept(t, last, r);
    }
    forall k: nat | k < |last.scopes|
      ensures UpToDate(last, k)
    {
      assert UpToDate(s, k) && IsLatest(t.scopeRevisions, k, t.scopes[k].current);
      if s.scopes[k].instance != instance { assert t.scopes[k] == s.scopes[k]; }
    }
    forall i | 0 <= i < |last.bindings|
      ensures Coherent(last, last.bindings[i])
    {
      CoherentKept(s, last, s.bindings[i]);
    }
  }
}
