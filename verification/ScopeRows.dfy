/** The rows behind the database-connection and binding routes, updated in place. */
module ScopeRows {
  import opened Options
  import opened DatabaseScopes
  import opened ScopeLifecycle
  import opened ScopeBindings

  /** Schema by schema: every selected object must have been discovered. */
  method ValidateScope(d: Discovery, sel: Selection) returns (valid: bool)
    ensures valid <==> Validates(d, sel)
  {
    if sel.database !in d.databases || !d.databases[sel.database].ready {
      return false;
    }
    var discovered := d.databases[sel.database].schemas;
    var pending := sel.schemas.Keys;
    while pending != {}
      invariant pending <= sel.schemas.Keys
      invariant forall n | n in sel.schemas && n !in pending ::
                  && n in discovered && sel.schemas[n].tables <= discovered[n].tables
                     && sel.schemas[n].views <= discovered[n].views
      decreases |pending|
    {
      var name :| name in pending;
      if name !in discovered {
        return false;
      }
      if !(sel.schemas[name].tables <= discovered[name].tables && sel.schemas[name].views <= discovered[name].views) {
        return false;
      }
      pending := pending - {name};
    }
    return true;
  }

  /** The checks on the requested scopes of a new connection, in the order they are made. */
  method CheckSelections(selections: seq<Selection>, d: Discovery) returns (refusal: Option<Refusal>)
    ensures refusal == if exists i | 0 <= i < |selections| :: !Selectable(selections[i]) then Some(InvalidSelection)
                       else if !d.ready then Some(NotReady)
                       else if exists i | 0 <= i < |selections| :: !Validates(d, selections[i]) then Some(NotDiscovered)
                       else None
  {
    for i := 0 to |selections|
      invariant forall j | 0 <= j < i :: Selectable(selections[j])
    {
      if !Selectable(selections[i]) {
        return Some(InvalidSelection);
      }
    }
    if !d.ready {
      return Some(NotReady);
    }
    for i := 0 to |selections|
      invariant forall j | 0 <= j < i :: Validates(d, selections[j])
    {
      var valid := ValidateScope(d, selections[i]);
      if !valid {
        return Some(NotDiscovered);
      }
    }
    return None;
  }

  class Rows {
    var instances: seq<Instance>
    var connectorRevisions: seq<Revision<string>>
    var scopes: seq<Scope>
    var scopeRevisions: seq<Revision<Definition>>
    var implementations: seq<Implementation>
    var bindings: seq<Binding>

    function State(): Store
      reads this
    {
      Store(instances, connectorRevisions, scopes, scopeRevisions, implementations, bindings)
    }

    constructor ()
      ensures State() == EMPTY
    {
      instances, connectorRevisions, scopes, scopeRevisions, implementations, bindings := [], [], [], [], [], [];
    }

    method AddScope(instance: nat, connectorRevision: nat, databaseType: string, sel: Selection)
      modifies `scopes, `scopeRevisions
      ensures State() == WithScope(old(State()), instance, connectorRevision, databaseType, sel)
    {
      var definition := DefinitionOf(instance, connectorRevision, databaseType, sel);
      scopes := scopes + [Scope(instance, |scopeRevisions|)];
      scopeRevisions := scopeRevisions + [Revision(|scopes| - 1, 1, definition)];
    }

    method CreateDatabaseScope(instance: nat, sel: Selection, d: Discovery) returns (refusal: Option<Refusal>)
      modifies this
      ensures var r := CreateScope(old(State()), instance, sel, d);
              && State() == (if r.Done? then r.value else old(State()))
              && refusal == (if r.Done? then None else Some(r.reason))
    {
      if instance >= |instances| {
        return Some(NoSuchInstance);
      }
      var revision := instances[instance].current;
      if revision >= |connectorRevisions| {
        return Some(NoSuchRevision);
      }
      if !Selectable(sel) {
        return Some(InvalidSelection);
      }
      var valid := ValidateScope(d, sel);
      if !valid {
        return Some(NotDiscovered);
      }
      AddScope(instance, revision, connectorRevisions[revision].content, sel);
      return None;
    }

    /** Carries the current scopes of an instance forward, one by one. A refusal may come after some of them; the
        caller rolls those back. */
    method ReviseScopes(instance: nat, connectorRevision: nat, databaseType: string, d: Discovery)
      returns (refusal: Option<Refusal>)
      modifies `scopes, `scopeRevisions
      ensures var r := CarryForward(old(State()), instance, connectorRevision, databaseType, d, 0);
              && (r.Done? ==> refusal == None && State() == r.value)
              && (r.Refused? ==> refusal == Some(r.reason))
    {
      var k := 0;
      while k < |scopes|
        invariant 0 <= k <= |scopes| == |old(scopes)|
        invariant CarryForward(State(), instance, connectorRevision, databaseType, d, k)
               == CarryForward(old(State()), instance, connectorRevision, databaseType, d, 0)
      {
        refusal := ReviseScope(instance, connectorRevision, databaseType, d, k);
        if refusal.Some? {
          return;
        }
        k := k + 1;
      }
      return None;
    }

    /** What the loop does with one scope. */
    method ReviseScope(instance: nat, connectorRevision: nat, databaseType: string, d: Discovery, k: nat)
      returns (refusal: Option<Refusal>)
      requires k < |scopes|
      modifies `scopes, `scopeRevisions
      ensures |scopes| == |old(scopes)|
      ensures var r := CarryForward(old(State()), instance, connectorRevision, databaseType, d, k);
              if refusal.Some? then r == Refused(refusal.value)
              else CarryForward(State(), instance, connectorRevision, databaseType, d, k + 1) == r
    {
      var scope := scopes[k];
      if scope.instance == instance && scope.current < |scopeRevisions| {
        var current := scopeRevisions[scope.current];
        var selection := SelectionOf(current.content);
        if !Selectable(selection) {
          return Some(InvalidSelection);
        }
        var valid := ValidateScope(d, selection);
        if !valid {
          return Some(NotDiscovered);
        }
        ghost var before := State();
        var definition := DefinitionOf(instance, connectorRevision, databaseType, selection);
        scopes := scopes[k := scope.(current := |scopeRevisions|)];
        scopeRevisions := scopeRevisions + [Revision(k, current.number + 1, definition)];
        assert State() == CarriedOne(before, instance, connectorRevision, databaseType, k);
      }
      return None;
    }

    method UpdateDatabaseConnection(instance: nat, name: Option<string>, enabled: Option<bool>,
                                    endpoint: Option<Endpoint>)
      returns (refusal: Option<Refusal>)
      modifies this
      ensures var r := UpdateConnection(old(State()), instance, name, enabled, endpoint);
              && State() == (if r.Done? then r.value else old(State()))
              && refusal == (if r.Done? then None else Some(r.reason))
    {
      if instance >= |instances| {
        return Some(NoSuchInstance);
      }
      if instances[instance].current >= |connectorRevisions| {
        return Some(NoSuchRevision);
      }
      var savedInstances, savedConnectors, savedImplementations := instances, connectorRevisions, implementations;
      var savedScopes, savedRevisions := scopes, scopeRevisions;
      var free := NameFree(State(), instance, name);
      if name.Some? {
        instances := instances[instance := instances[instance].(name := name.value)];
      }
      if enabled.Some? {
        instances := instances[instance := instances[instance].(enabled := enabled.value)];
      }
      assert State() == Renamed(old(State()), instance, name, enabled);
      refusal := None;
      if endpoint.Some? {
        refusal := ReplaceConnectorRevision(instance, endpoint.value.databaseType, endpoint.value.discovery);
      }
      if refusal.None? && !free {
        refusal := Some(NameTaken);
      }
      if refusal.Some? {
        instances, connectorRevisions, implementations := savedInstances, savedConnectors, savedImplementations;
        scopes, scopeRevisions := savedScopes, savedRevisions;
      }
    }

    /** The endpoint part of that request. A refusal may come after some writes; the caller rolls them back. */
    method ReplaceConnectorRevision(instance: nat, databaseType: string, d: Discovery)
      returns (refusal: Option<Refusal>)
      requires instance < |instances| && instances[instance].current < |connectorRevisions|
      modifies `instances, `connectorRevisions, `scopes, `scopeRevisions, `implementations
      ensures var r := ReplaceEndpoint(old(State()), instance, databaseType, d);
              && (r.Done? ==> refusal == None && State() == r.value)
              && (r.Refused? ==> refusal == Some(r.reason))
    {
      if databaseType != connectorRevisions[instances[instance].current].content {
        return Some(TypeChanged);
      }
      if !d.ready {
        return Some(NotReady);
      }
      var revision := |connectorRevisions|;
      connectorRevisions := connectorRevisions +
        [Revision(instance, MaxNumber(connectorRevisions, instance) + 1, databaseType)];
      instances := instances[instance := instances[instance].(current := revision, health := Healthy)];
      refusal := ReviseScopes(instance, revision, databaseType, d);
      if refusal.None? {
        implementations := implementations + Implementations(revision);
      }
    }

    method CreateDatabaseConnection(name: string, databaseType: string, selections: seq<Selection>, d: Discovery)
      returns (refusal: Option<Refusal>)
      modifies this
      ensures var r := CreateConnection(old(State()), name, databaseType, selections, d);
              && State() == (if r.Done? then r.value else old(State()))
              && refusal == (if r.Done? then None else Some(r.reason))
    {
      refusal := CheckSelections(selections, d);
      if refusal.Some? {
        return;
      }
      if exists i | 0 <= i < |instances| :: instances[i].name == name {
        return Some(NameTaken);
      }
      var instance, revision := |instances|, |connectorRevisions|;
      instances := instances + [Instance(name, true, Healthy, revision)];
      connectorRevisions := connectorRevisions + [Revision(instance, 1, databaseType)];
      ghost var added := State();
      for i := 0 to |selections|
        invariant State() == WithScopes(added, instance, revision, databaseType, selections[..i])
        invariant implementations == old(implementations)
      {
        assert selections[..i + 1][..i] == selections[..i];
        AddScope(instance, revision, databaseType, selections[i]);
      }
      assert selections[..|selections|] == selections;
      implementations := implementations + Implementations(revision);
      return None;
    }

    /** The aliases of a version, as the update collects them. */
    ghost predicate Collected(aliases: set<string>, version: nat)
      reads this
    {
      forall alias: string :: alias in aliases <==> AliasUsed(bindings, version, alias)
    }

    method BindOperation(version: nat, scopeRevision: nat, connectorRevision: nat, prefix: string, o: Operation,
                         aliases: set<string>)
      returns (refusal: Option<Refusal>, more: set<string>)
      requires scopeRevision < |scopeRevisions| && Collected(aliases, version)
      modifies `bindings
      ensures var r := BindOne(old(State()), version, scopeRevision, connectorRevision, prefix, o);
              && (r.Done? ==> refusal == None && State() == r.value)
              && (r.Refused? ==> refusal == Some(r.reason))
      ensures refusal.None? ==> Collected(more, version)
    {
      more := aliases;
      if !Permits(scopeRevisions[scopeRevision].content, o) {
        return Some(NotPermitted), more;
      }
      var alias := AliasOf(prefix, o);
      if alias in aliases || |alias| > 128 {
        return Some(AliasTaken), more;
      }
      more := aliases + {alias};
      var found := FindImplementation(implementations, o, connectorRevision);
      if found.None? {
        return Some(NotImplemented), more;
      }
      var before := bindings;
      bindings := bindings + [Binding(version, alias, Database(found.value, scopeRevision))];
      AliasAdded(before, bindings, version, alias);
      return None, more;
    }

    static lemma AliasAdded(before: seq<Binding>, after: seq<Binding>, version: nat, alias: string)
      requires |after| == |before| + 1 && before <= after
      requires after[|before|].version == version && after[|before|].alias == alias
      ensures forall a: string :: AliasUsed(after, version, a) <==> AliasUsed(before, version, a) || a == alias
    {
      forall a: string | AliasUsed(before, version, a)
        ensures AliasUsed(after, version, a)
      {
        var i :| 0 <= i < |before| && before[i].version == version && before[i].alias == a;
        assert after[i] == before[i];
      }
    }

    /** Binds the operations of one request in order, up to the first refusal. */
    method BindEach(version: nat, scopeRevision: nat, connectorRevision: nat, prefix: string,
                    operations: seq<Operation>, aliases: set<string>)
      returns (refusal: Option<Refusal>, more: set<string>)
      requires scopeRevision < |scopeRevisions| && Collected(aliases, version)
      modifies `bindings
      ensures var r := BindOperations(old(State()), version, scopeRevision, connectorRevision, prefix, operations);
              && (r.Done? ==> refusal == None && State() == r.value)
              && (r.Refused? ==> refusal == Some(r.reason))
      ensures refusal.None? ==> Collected(more, version)
    {
      more, refusal := aliases, None;
      for j := 0 to |operations|
        invariant refusal.None? && Collected(more, version)
        invariant BindOperations(old(State()), version, scopeRevision, connectorRevision, prefix, operations[..j]) ==
                  Done(State())
      {
        assert operations[..j + 1][..j] == operations[..j];
        refusal, more := BindOperation(version, scopeRevision, connectorRevision, prefix, operations[j], more);
        if refusal.Some? {
          OperationRefusedAt(old(State()), version, scopeRevision, connectorRevision, prefix, operations, j + 1);
          return;
        }
      }
      assert operations[..|operations|] == operations;
    }

    /** Replaces the database bindings of a draft version. On a refusal nothing of this call stays. */
    method UpdateDatabaseBindings(version: nat, isDraft: bool, requests: seq<BindingRequest>)
      returns (refusal: Option<Refusal>)
      modifies `bindings
      ensures var r := UpdateBindings(old(State()), version, isDraft, requests);
              && State() == (if r.Done? then r.value else old(State()))
              && refusal == (if r.Done? then None else Some(r.reason))
      ensures Inv(old(State())) && refusal.None? ==>
                forall q, o | q in requests && o in q.operations ::
                  exists b :: b in bindings && Fulfils(old(State()), version, Wish(q.scopeRevision, q.prefix, o), b)
    {
      if !isDraft {
        return Some(NotDraft);
      }
      if Inv(State()) && UpdateBindings(State(), version, isDraft, requests).Done? {
        EveryOperationIsBound(State(), version, isDraft, requests);
      }
      var saved := bindings;
      bindings := Preserved(bindings, version);
      var aliases := set i | 0 <= i < |bindings| && bindings[i].version == version :: bindings[i].alias;
      refusal := BindRequests(version, requests, aliases);
      if refusal.Some? {
        bindings := saved;
      }
    }

    /** Binds the requests in order, up to the first refusal. */
    method BindRequests(version: nat, requests: seq<BindingRequest>, taken: set<string>)
      returns (refusal: Option<Refusal>)
      requires Collected(taken, version)
      modifies `bindings
      ensures var r := BindAll(old(State()), version, requests);
              && (r.Done? ==> refusal == None && State() == r.value)
              && (r.Refused? ==> refusal == Some(r.reason))
      ensures State() == old(State()).(bindings := bindings)
    {
      var aliases := taken;
      ghost var start := State();
      for i := 0 to |requests|
        invariant BindAll(start, version, requests[..i]) == Done(State())
        invariant Collected(aliases, version)
      {
        var request := requests[i];
        BindAllStep(start, version, requests, i, State());
        var reason := Unbindable(State(), request.scopeRevision);
        if reason.Some? {
          RefusedAt(start, version, requests, i + 1);
          return reason;
        }
        var connectorRevision := ServedRevision(State(), request.scopeRevision);
        refusal, aliases := BindEach(version, request.scopeRevision, connectorRevision, request.prefix,
                                     request.operations, aliases);
        if refusal.Some? {
          RefusedAt(start, version, requests, i + 1);
          return;
        }
      }
      assert requests[..|requests|] == requests;
      return None;
    }

    static lemma BindAllStep(s: Store, version: nat, requests: seq<BindingRequest>, i: nat, u: Store)
      requires i < |requests| && BindAll(s, version, requests[..i]) == Done(u)
      ensures var q := requests[i];
              var reason := Unbindable(u, q.scopeRevision);
              BindAll(s, version, requests[..i + 1]) ==
              if reason.Some? then Refused(reason.value)
              else BindOperations(u, version, q.scopeRevision, ServedRevision(u, q.scopeRevision), q.prefix,
                                  q.operations)
    {
      assert requests[..i + 1][..i] == requests[..i];
      assert Unbindable(s, requests[i].scopeRevision) == Unbindable(u, requests[i].scopeRevision);
    }

    static lemma OperationRefusedAt(s: Store, version: nat, scopeRevision: nat, connectorRevision: nat, prefix: string,
                                    operations: seq<Operation>, n: nat)
      requires scopeRevision < |s.scopeRevisions|
      requires n <= |operations|
               && BindOperations(s, version, scopeRevision, connectorRevision, prefix, operations[..n]).Refused?
      ensures BindOperations(s, version, scopeRevision, connectorRevision, prefix, operations)
           == BindOperations(s, version, scopeRevision, connectorRevision, prefix, operations[..n])
      decreases |operations|
    {
      if n == |operations| {
        assert operations[..n] == operations;
      } else {
        var rest := operations[..|operations| - 1];
        assert rest[..n] == operations[..n];
        OperationRefusedAt(s, version, scopeRevision, connectorRevision, prefix, rest, n);
      }
    }

    static lemma RefusedAt(s: Store, version: nat, requests: seq<BindingRequest>, n: nat)
      requires n <= |requests| && BindAll(s, version, requests[..n]).Refused?
      ensures BindAll(s, version, requests) == BindAll(s, version, requests[..n])
      decreases |requests|
    {
      if n == |requests| {
        assert requests[..n] == requests;
      } else {
        var rest := requests[..|requests| - 1];
        assert rest[..n] == requests[..n];
        RefusedAt(s, version, rest, n);
      }
    }
  }
}
