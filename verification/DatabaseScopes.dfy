/** Database connections, their append-only connector and scope revisions, and the agent bindings that name them. */
module DatabaseScopes {
  import opened Options

  /* What is selected and what is stored. */

  datatype Objects = Objects(tables: set<string>, views: set<string>)

  datatype Limits = Limits(maxRows: int, statementTimeout: int, lockTimeout: int, responseBytes: int,
                           requestsPerMinute: int)

  datatype Permissions = Permissions(describe: bool, query: bool, preview: bool, aggregate: bool)

  /** The members of the stored permission and limit objects. */
  datatype PermissionKey = DescribeTables | Query | Preview | Aggregate
  datatype LimitKey = MaxRows | StatementTimeout | LockTimeout | ResponseBytes | RequestsPerMinute

  /** A validated request names each schema once and each object of a schema once. */
  datatype Selection = Selection(database: string, schemas: map<string, Objects>, permissions: Permissions,
                                 limits: Limits)

  /** The stored JSON document; permissions and limits are read with defaults. */
  datatype Definition = Definition(
    instance: nat, connectorRevision: nat, databaseType: string,
    database: string, schemas: map<string, Objects>, permissions: map<PermissionKey, bool>, limits: map<LimitKey, int>)

  datatype Found = Found(ready: bool, schemas: map<string, Objects>)

  datatype Discovery = Discovery(ready: bool, databases: map<string, Found>)

  /** One row of an append-only table: the `number`-th revision of its owner. */
  datatype Revision<+T> = Revision(owner: nat, number: nat, content: T)

  datatype Health = Healthy | Offline | Unknown

  datatype Instance = Instance(name: string, enabled: bool, health: Health, current: nat)

  datatype Scope = Scope(instance: nat, current: nat)

  datatype Operation = ListSchemas | ListTables | DescribeTable | PreviewTable | Select | Explain

  datatype Implementation = Implementation(operation: Operation, connectorRevision: nat)

  datatype Target = Database(implementation: nat, scopeRevision: nat) | OtherCapability

  datatype Binding = Binding(version: nat, alias: string, target: Target)

  /** Rows are named by their position; nothing is ever removed but bindings. */
  datatype Store = Store(
    instances: seq<Instance>, connectorRevisions: seq<Revision<string>>,
    scopes: seq<Scope>, scopeRevisions: seq<Revision<Definition>>,
    implementations: seq<Implementation>, bindings: seq<Binding>)

  datatype Refusal =
    | NotReady | NotDiscovered | NameTaken | NoSuchInstance | TypeChanged | InvalidSelection
    | NotDraft | NoSuchRevision | Outdated | InstanceUnavailable | RevisionMismatch | NotPermitted
    | AliasTaken | NotImplemented

  datatype Outcome<+T> = Done(value: T) | Refused(reason: Refusal)

  const PERMISSION_KEYS: set<PermissionKey> := {DescribeTables, Query, Preview, Aggregate}
  const LIMIT_KEYS: set<LimitKey> := {MaxRows, StatementTimeout, LockTimeout, ResponseBytes, RequestsPerMinute}
  const OPERATIONS: seq<Operation> := [ListSchemas, ListTables, DescribeTable, PreviewTable, Select, Explain]

  predicate InRanges(l: Limits) {
    && 1 <= l.maxRows <= 10000 && 100 <= l.statementTimeout <= 300000 && 50 <= l.lockTimeout <= 60000
    && 1024 <= l.responseBytes <= 20971520 && 1 <= l.requestsPerMinute <= 10000
  }

  /** What the request model accepts. */
  predicate Selectable(sel: Selection) {
    && sel.database != "" && |sel.schemas| > 0
    && (exists n | n in sel.schemas :: sel.schemas[n].tables != {} || sel.schemas[n].views != {})
    && (forall n | n in sel.schemas :: sel.schemas[n].tables !! sel.schemas[n].views)
    && InRanges(sel.limits)
  }

  /** Every selected object was discovered in a database that is ready. */
  predicate Validates(d: Discovery, sel: Selection) {
    && sel.database in d.databases && d.databases[sel.database].ready
    && forall n | n in sel.schemas ::
         && n in d.databases[sel.database].schemas
         && sel.schemas[n].tables <= d.databases[sel.database].schemas[n].tables
         && sel.schemas[n].views <= d.databases[sel.database].schemas[n].views
  }

  function DefinitionOf(instance: nat, connectorRevision: nat, databaseType: string, sel: Selection): Definition {
    Definition(instance, connectorRevision, databaseType, sel.database, sel.schemas,
               map[DescribeTables := sel.permissions.describe, Query := sel.permissions.query,
                   Preview := sel.permissions.preview, Aggregate := sel.permissions.aggregate],
               map[MaxRows := sel.limits.maxRows, StatementTimeout := sel.limits.statementTimeout,
                   LockTimeout := sel.limits.lockTimeout, ResponseBytes := sel.limits.responseBytes,
                   RequestsPerMinute := sel.limits.requestsPerMinute])
  }

  function Allowed(permissions: map<PermissionKey, bool>, key: PermissionKey): bool {
    if key in permissions then permissions[key] else true
  }

  /** A missing limit and a limit of zero both read as the default. */
  function Limit(limits: map<LimitKey, int>, key: LimitKey, default: int): int {
    if key in limits && limits[key] != 0 then limits[key] else default
  }

  function SelectionOf(d: Definition): Selection {
    Selection(d.database, d.schemas,
              Permissions(Allowed(d.permissions, DescribeTables), Allowed(d.permissions, Query),
                          Allowed(d.permissions, Preview), Allowed(d.permissions, Aggregate)),
              Limits(Limit(d.limits, MaxRows, 200), Limit(d.limits, StatementTimeout, 5000),
                     Limit(d.limits, LockTimeout, 1000), Limit(d.limits, ResponseBytes, 2097152),
                     Limit(d.limits, RequestsPerMinute, 60)))
  }

  /** The definition that succeeds `d` on a new connector revision. */
  function Carried(d: Definition, instance: nat, connectorRevision: nat, databaseType: string): Definition {
    DefinitionOf(instance, connectorRevision, databaseType, SelectionOf(d))
  }

  lemma CarriedPermissionsIff(d: Definition, instance: nat, connectorRevision: nat, databaseType: string)
    ensures Carried(d, instance, connectorRevision, databaseType).permissions == d.permissions <==>
            d.permissions.Keys == PERMISSION_KEYS
  {
    var c := Carried(d, instance, connectorRevision, databaseType).permissions;
    assert c.Keys == PERMISSION_KEYS;
    if d.permissions.Keys == PERMISSION_KEYS {
      assert forall k | k in PERMISSION_KEYS :: c[k] == d.permissions[k];
    }
  }

  lemma CarriedLimitsIff(d: Definition, instance: nat, connectorRevision: nat, databaseType: string)
    ensures Carried(d, instance, connectorRevision, databaseType).limits == d.limits <==>
            d.limits.Keys == LIMIT_KEYS && forall k | k in LIMIT_KEYS :: d.limits[k] != 0
  {
    var c := Carried(d, instance, connectorRevision, databaseType).limits;
    assert c.Keys == LIMIT_KEYS;
    assert forall k | k in LIMIT_KEYS :: c[k] != 0;
    if d.limits.Keys == LIMIT_KEYS && forall k | k in LIMIT_KEYS :: d.limits[k] != 0 {
      assert forall k | k in LIMIT_KEYS :: c[k] == d.limits[k];
    }
  }

  /** A carried definition says what its predecessor said, exactly when the predecessor spelled out every
      permission and a non-zero value for every limit. */
  lemma CarriedKeepsMeaningIff(d: Definition, instance: nat, connectorRevision: nat, databaseType: string)
    ensures Carried(d, instance, connectorRevision, databaseType)
            == d.(instance := instance, connectorRevision := connectorRevision, databaseType := databaseType) <==>
            (d.permissions.Keys == PERMISSION_KEYS && d.limits.Keys == LIMIT_KEYS
             && forall k | k in LIMIT_KEYS :: d.limits[k] != 0)
  {
    CarriedPermissionsIff(d, instance, connectorRevision, databaseType);
    CarriedLimitsIff(d, instance, connectorRevision, databaseType);
  }

  /** A definition that these routes store: complete, and acceptable as a selection. */
  predicate WellStored(d: Definition) {
    d.permissions.Keys == PERMISSION_KEYS && d.limits.Keys == LIMIT_KEYS && Selectable(SelectionOf(d))
    && forall k | k in LIMIT_KEYS :: d.limits[k] != 0
  }

  /** Storing a selection and reading it back gives the selection. */
  lemma SelectionRoundTrip(instance: nat, connectorRevision: nat, databaseType: string, sel: Selection)
    requires Selectable(sel)
    ensures SelectionOf(DefinitionOf(instance, connectorRevision, databaseType, sel)) == sel
    ensures WellStored(DefinitionOf(instance, connectorRevision, databaseType, sel))
  {
    var d := DefinitionOf(instance, connectorRevision, databaseType, sel);
    assert d.permissions.Keys == PERMISSION_KEYS;
    assert d.limits.Keys == LIMIT_KEYS;
    assert SelectionOf(d).limits == sel.limits;
    assert SelectionOf(d).permissions == sel.permissions;
  }

  /* Numbering. */

  function CountOf<T>(revisions: seq<Revision<T>>, owner: nat): nat {
    if revisions == [] then 0
    else CountOf(revisions[..|revisions| - 1], owner) + if revisions[|revisions| - 1].owner == owner then 1 else 0
  }

  function MaxNumber<T>(revisions: seq<Revision<T>>, owner: nat): nat {
    if revisions == [] then 0
    else
      var rest, last := MaxNumber(revisions[..|revisions| - 1], owner), revisions[|revisions| - 1];
      if last.owner == owner && last.number > rest then last.number else rest
  }

  /** The revisions of every owner are numbered 1, 2, 3, ... in the order they were added. */
  ghost predicate Numbered<T>(revisions: seq<Revision<T>>) {
    forall r | 0 <= r < |revisions| :: revisions[r].number == CountOf(revisions[..r], revisions[r].owner) + 1
  }

  /** `current` is the last of all revisions of `owner`. */
  ghost predicate IsLatest<T>(revisions: seq<Revision<T>>, owner: nat, current: nat) {
    current < |revisions| && revisions[current].owner == owner && revisions[current].number == CountOf(revisions, owner)
  }

  lemma CountOfAppended<T>(revisions: seq<Revision<T>>, r: Revision<T>, owner: nat)
    ensures CountOf(revisions + [r], owner) == CountOf(revisions, owner) + if r.owner == owner then 1 else 0
  {
    assert (revisions + [r])[..|revisions|] == revisions;
  }

  /** The number after the highest is the number after the last. */
  lemma {:induction false} MaxNumberIsCount<T>(revisions: seq<Revision<T>>, owner: nat)
    requires Numbered(revisions)
    ensures MaxNumber(revisions, owner) == CountOf(revisions, owner)
  {
    if revisions == [] {
    } else {
      var rest := revisions[..|revisions| - 1];
      NumberedPrefix(revisions, |revisions| - 1);
      MaxNumberIsCount(rest, owner);
    }
  }

  lemma NumberedPrefix<T>(revisions: seq<Revision<T>>, n: nat)
    requires Numbered(revisions) && n <= |revisions|
    ensures Numbered(revisions[..n])
  {
    forall r | 0 <= r < n
      ensures revisions[..n][r].number == CountOf(revisions[..n][..r], revisions[..n][r].owner) + 1
    {
      assert revisions[..n][..r] == revisions[..r];
    }
  }

  lemma NumberedAppended<T>(revisions: seq<Revision<T>>, r: Revision<T>)
    requires Numbered(revisions) && r.number == CountOf(revisions, r.owner) + 1
    ensures Numbered(revisions + [r])
    ensures IsLatest(revisions + [r], r.owner, |revisions|)
    ensures forall owner: nat, current: nat | owner != r.owner && IsLatest(revisions, owner, current) ::
              IsLatest(revisions + [r], owner, current)
  {
    var all := revisions + [r];
    forall i | 0 <= i < |all|
      ensures all[i].number == CountOf(all[..i], all[i].owner) + 1
    {
      assert all[..i] == revisions[..i];
      if i == |revisions| { assert revisions[..i] == revisions; }
    }
    CountOfAppended(revisions, r, r.owner);
    forall owner: nat, current: nat | owner != r.owner && IsLatest(revisions, owner, current)
      ensures IsLatest(all, owner, current)
    {
      CountOfAppended(revisions, r, owner);
    }
  }
}
