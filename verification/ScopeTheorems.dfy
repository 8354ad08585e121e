/** What holds after any sequence of calls to the database-connection and binding routes. */
module ScopeTheorems {
  import opened Options
  import opened DatabaseScopes
  import opened ScopeLifecycle

  /* The other steps. */

  lemma AddScopeKeepsInv(s: Store, instance: nat, sel: Selection, d: Discovery)
    requires Inv(s) && CreateScope(s, instance, sel, d).Done?
    ensures Inv(CreateScope(s, instance, sel, d).value) && Extends(s, CreateScope(s, instance, sel, d).value)
  {
    var t := CreateScope(s, instance, sel, d).value;
    assert IsLatest(s.connectorRevisions, instance, s.instances[instance].current);
    WithScopeKeeps(s, instance, sel);
    forall i | 0 <= i < |t.bindings|
      ensures Coherent(t, t.bindings[i])
    {
      CoherentKept(s, t, s.bindings[i]);
    }
  }

  lemma NoInstanceNoRevisions(s: Store)
    requires ConnectorsInv(s)
    ensures CountOf(s.connectorRevisions, |s.instances|) == 0
  {
    NoRowsNoCount(s.connectorRevisions, |s.instances|);
  }

  /** The new instance and its first connector revision, before its scopes are added. */
  function Started(s: Store, name: string, databaseType: string): Store {
    s.(instances := s.instances + [Instance(name, true, Healthy, |s.connectorRevisions|)],
       connectorRevisions := s.connectorRevisions + [Revision(|s.instances|, 1, databaseType)])
  }

  lemma StartedKeeps(s: Store, name: string, databaseType: string)
    requires Inv(s)
    ensures var t := Started(s, name, databaseType);
            && Extends(s, t) && ScopesInv(t) && Numbered(t.connectorRevisions)
            && (forall r | 0 <= r < |t.connectorRevisions| :: t.connectorRevisions[r].owner < |t.instances|)
            && (forall i: nat | i < |t.instances| :: IsLatest(t.connectorRevisions, i, t.instances[i].current))
            && (forall k: nat | k < |t.scopes| :: UpToDate(t, k))
  {
    var t := Started(s, name, databaseType);
    NoInstanceNoRevisions(s);
    NumberedAppended(s.connectorRevisions, t.connectorRevisions[|s.connectorRevisions|]);
    forall i: nat | i < |t.instances|
      ensures IsLatest(t.connectorRevisions, i, t.instances[i].current)
    {
      if i < |s.instances| { assert IsLatest(s.connectorRevisions, i, s.instances[i].current); }
    }
    assert Extends(s, t);
    forall r: nat | r < |t.scopeRevisions|
      ensures RevisionInv(t, r)
    {
      RevisionInvKept(s, t, r);
    }
    forall k: nat | k < |t.scopes|
      ensures UpToDate(t, k)
    {
      assert UpToDate(s, k);
    }
  }

  lemma CreateKeepsInv(s: Store, name: string, databaseType: string, selections: seq<Selection>, d: Discovery)
    requires Inv(s) && CreateConnection(s, name, databaseType, selections, d).Done?
    ensures var t := CreateConnection(s, name, databaseType, selections, d).value;
            Inv(t) && Extends(s, t)
  {
    var u := Started(s, name, databaseType);
    StartedKeeps(s, name, databaseType);
    WithScopesKeeps(u, |s.instances|, selections);
    var filled := WithScopes(u, |s.instances|, |s.connectorRevisions|, databaseType, selections);
    var t := CreateConnection(s, name, databaseType, selections, d).value;
    assert t == filled.(implementations := filled.implementations + Implementations(|s.connectorRevisions|));
    ImplementationsCover(s.implementations, |s.connectorRevisions|);
    CreatedInv(s, u, filled, t);
  }

  lemma CreatedInv(s: Store, u: Store, filled: Store, t: Store)
    requires Inv(s) && Extends(s, u) && Extends(u, filled)
             && filled == u.(scopes := filled.scopes, scopeRevisions := filled.scopeRevisions)
    requires t == filled.(implementations := t.implementations) && filled.implementations <= t.implementations
    requires ScopesInv(filled) && forall k: nat | k < |filled.scopes| :: UpToDate(filled, k)
    requires ConnectorsInv(t) && u.bindings == s.bindings
    ensures Inv(t) && Extends(s, t)
  {
    ExtendsThrough(s, u, filled);
    assert Extends(filled, t);
    forall r: nat | r < |t.scopeRevisions|
      ensures RevisionInv(t, r)
    {
      RevisionInvKept(filled, t, r);
    }
    forall k: nat | k < |t.scopes|
      ensures UpToDate(t, k)
    {
      assert UpToDate(filled, k);
    }
    forall i | 0 <= i < |t.bindings|
      ensures Coherent(t, t.bindings[i])
    {
      CoherentKept(s, t, s.bindings[i]);
    }
  }

  /** Names, switches and health play no part in the invariant. */
  lemma RowsOfInstances(s: Store, t: Store)
    requires Inv(s) && t == s.(instances := t.instances) && |t.instances| == |s.instances|
    requires forall i | 0 <= i < |s.instances| :: t.instances[i].current == s.instances[i].current
    ensures Inv(t) && Extends(s, t)
  {
    assert Extends(s, t);
    forall i: nat | i < |t.instances|
      ensures IsLatest(t.connectorRevisions, i, t.instances[i].current)
    {
      assert IsLatest(s.connectorRevisions, i, s.instances[i].current);
    }
    forall r: nat | r < |t.scopeRevisions|
      ensures RevisionInv(t, r)
    {
      RevisionInvKept(s, t, r);
    }
    forall k: nat | k < |t.scopes|
      ensures UpToDate(t, k)
    {
      assert UpToDate(s, k);
    }
    forall i | 0 <= i < |t.bindings|
      ensures Coherent(t, t.bindings[i])
    {
      CoherentKept(s, t, s.bindings[i]);
    }
  }

  /** The type stays, the new endpoint is ready and every current scope of the connection is still discovered. */
  ghost predicate Replaceable(s: Store, instance: nat, endpoint: Endpoint)
    requires Inv(s) && instance < |s.instances|
  {
    assert IsLatest(s.connectorRevisions, instance, s.instances[instance].current);
    && endpoint.databaseType == s.connectorRevisions[s.instances[instance].current].content
    && endpoint.discovery.ready && StillDiscovered(s, instance, endpoint.discovery, 0)
  }

  /** A request that renames, switches and replaces at once keeps the invariant and every stored row; it succeeds
      exactly when the name is free and the endpoint, if there is one, may be replaced. */
  lemma UpdateKeepsInv(s: Store, instance: nat, name: Option<string>, enabled: Option<bool>, endpoint: Option<Endpoint>)
    requires Inv(s) && instance < |s.instances|
    ensures var r := UpdateConnection(s, instance, name, enabled, endpoint);
            && (r.Done? ==> Inv(r.value) && Extends(s, r.value))
            && (r.Done? <==>
                  NameFree(s, instance, name) && (endpoint.Some? ==> Replaceable(s, instance, endpoint.value)))
            && (r.Done? && endpoint.Some? ==>
                  && CarriedFrom(s, r.value, instance, |s.connectorRevisions|, endpoint.value.databaseType, 0)
                  && r.value.instances[instance].current == |s.connectorRevisions|)
  {
    var renamed := Renamed(s, instance, name, enabled);
    assert IsLatest(s.connectorRevisions, instance, s.instances[instance].current);
    RowsOfInstances(s, renamed);
    if endpoint.Some? {
      EndpointReplacement(renamed, instance, endpoint.value.databaseType, endpoint.value.discovery);
      SameScopes(s, renamed, instance, endpoint.value.discovery);
      var r := ReplaceEndpoint(renamed, instance, endpoint.value.databaseType, endpoint.value.discovery);
      if r.Done? {
        ExtendsThrough(s, renamed, r.value);
        CarriedThrough(s, renamed, r.value, instance, |s.connectorRevisions|, endpoint.value.databaseType);
      }
    }
  }

  lemma SameScopes(s: Store, u: Store, instance: nat, d: Discovery)
    requires u.scopes == s.scopes && u.scopeRevisions == s.scopeRevisions
    ensures StillDiscovered(u, instance, d, 0) <==> StillDiscovered(s, instance, d, 0)
  {
    forall j: nat | j < |s.scopes| && s.scopes[j].current < |s.scopeRevisions|
      ensures CurrentOf(u, j) == CurrentOf(s, j)
    {
    }
  }

  /* Binding. */

  /** No two bindings of a version share an alias. */
  predicate AliasesUnique(bindings: seq<Binding>) {
    forall i, j | 0 <= i < j < |bindings| ::
      !(bindings[i].version == bindings[j].version && bindings[i].alias == bindings[j].alias)
  }

  /** A binding of `version` that a request to bind `scopeRevision` may make: an operation the scope permits, on
      the implementation for the connector revision the scope names. */
  ghost predicate Granted(s: Store, version: nat, b: Binding) {
    && b.version == version && b.target.Database?
    && b.target.implementation < |s.implementations| && b.target.scopeRevision < |s.scopeRevisions|
    && Unbindable(s, b.target.scopeRevision).None?
    && Permits(s.scopeRevisions[b.target.scopeRevision].content, s.implementations[b.target.implementation].operation)
    && Coherent(s, b)
  }

  ghost predicate OnlyAdds(s: Store, version: nat, before: seq<Binding>, after: seq<Binding>) {
    && before <= after
    && (forall i | |before| <= i < |after| :: Granted(s, version, after[i]))
    && (AliasesUnique(before) ==> AliasesUnique(after))
  }

  lemma BindOneAdds(s: Store, version: nat, scopeRevision: nat, prefix: string, o: Operation)
    requires Unbindable(s, scopeRevision).None?
    ensures var r := BindOne(s, version, scopeRevision, ServedRevision(s, scopeRevision), prefix, o);
            r.Done? ==>
              r.value == s.(bindings := r.value.bindings) && OnlyAdds(s, version, s.bindings, r.value.bindings)
  {
  }

  lemma OnlyAddsThrough(s: Store, version: nat, a: seq<Binding>, b: seq<Binding>, c: seq<Binding>)
    requires OnlyAdds(s, version, a, b) && OnlyAdds(s, version, b, c)
    ensures OnlyAdds(s, version, a, c)
  {
  }

  /** Everything but the bindings decides what may be granted. */
  lemma GrantsSame(s: Store, u: Store, version: nat, a: seq<Binding>, b: seq<Binding>)
    requires u == s.(bindings := u.bindings) && OnlyAdds(u, version, a, b)
    ensures OnlyAdds(s, version, a, b)
  {
    forall i | |a| <= i < |b|
      ensures Granted(s, version, b[i])
    {
      assert Granted(u, version, b[i]);
    }
  }

  lemma {:induction false} BindOperationsAdds(s: Store, version: nat, scopeRevision: nat, prefix: string,
                                              operations: seq<Operation>)
    requires Unbindable(s, scopeRevision).None?
    ensures var r := BindOperations(s, version, scopeRevision, ServedRevision(s, scopeRevision), prefix, operations);
            r.Done? ==> OnlyAdds(s, version, s.bindings, r.value.bindings)
  {
    if operations == [] {
    } else {
      var n := |operations| - 1;
      var revision := ServedRevision(s, scopeRevision);
      BindOperationsAdds(s, version, scopeRevision, prefix, operations[..n]);
      var earlier := BindOperations(s, version, scopeRevision, revision, prefix, operations[..n]);
      if earlier.Done? {
        var u := earlier.value;
        BindOneAdds(u, version, scopeRevision, prefix, operations[n]);
        var last := BindOne(u, version, scopeRevision, revision, prefix, operations[n]);
        if last.Done? {
          GrantsSame(s, u, version, u.bindings, last.value.bindings);
          OnlyAddsThrough(s, version, s.bindings, u.bindings, last.value.bindings);
        }
      }
    }
  }

  lemma {:induction false} BindAllAdds(s: Store, version: nat, requests: seq<BindingRequest>)
    ensures var r := BindAll(s, version, requests);
            r.Done? ==> OnlyAdds(s, version, s.bindings, r.value.bindings)
  {
    if requests == [] {
    } else {
      var n := |requests| - 1;
      BindAllAdds(s, version, requests[..n]);
      var earlier := BindAll(s, version, requests[..n]);
      if earlier.Done? && Unbindable(s, requests[n].scopeRevision).None? {
        var u := earlier.value;
        BindOperationsAdds(u, version, requests[n].scopeRevision, requests[n].prefix, requests[n].operations);
        var last := BindAll(s, version, requests);
        if last.Done? {
          GrantsSame(s, u, version, u.bindings, last.value.bindings);
          OnlyAddsThrough(s, version, s.bindings, u.bindings, last.value.bindings);
        }
      }
    }
  }

  lemma {:induction false} PreservedIsFilter(bindings: seq<Binding>, version: nat)
    ensures forall b ::
              b in Preserved(bindings, version) <==> b in bindings && !(b.version == version && b.target.Database?)
    ensures AliasesUnique(bindings) ==> AliasesUnique(Preserved(bindings, version))
  {
    if bindings == [] {
    } else {
      var rest, last := bindings[..|bindings| - 1], bindings[|bindings| - 1];
      PreservedIsFilter(rest, version);
      assert bindings == rest + [last];
      if AliasesUnique(bindings) {
        forall b | b in rest
          ensures !(b.version == last.version && b.alias == last.alias)
        {
          var i :| 0 <= i < |rest| && rest[i] == b;
          assert bindings[i] == b && bindings[|bindings| - 1] == last;
        }
      }
    }
  }

  /** A successful update replaces exactly the database bindings of the version: every other binding stays, every
      new one is granted by a current scope of a healthy connection, and aliases stay unique. */
  lemma UpdateReplacesDatabaseBindings(s: Store, version: nat, isDraft: bool, requests: seq<BindingRequest>)
    requires UpdateBindings(s, version, isDraft, requests).Done?
    ensures var t := UpdateBindings(s, version, isDraft, requests).value;
            && t == s.(bindings := t.bindings)
            && (forall b | b in s.bindings && !(b.version == version && b.target.Database?) :: b in t.bindings)
            && (forall b | b in t.bindings ::
                  (b in s.bindings && !(b.version == version && b.target.Database?)) || Granted(s, version, b))
            && (AliasesUnique(s.bindings) ==> AliasesUnique(t.bindings))
  {
    var kept := Preserved(s.bindings, version);
    var u := s.(bindings := kept);
    PreservedIsFilter(s.bindings, version);
    BindAllAdds(u, version, requests);
    var t := UpdateBindings(s, version, isDraft, requests).value;
    GrantsSame(s, u, version, kept, t.bindings);
    forall b | b in t.bindings
      ensures b in kept || Granted(s, version, b)
    {
      var i :| 0 <= i < |t.bindings| && t.bindings[i] == b;
      if i < |kept| { assert kept[i] == b; }
    }
    forall b | b in kept
      ensures b in t.bindings
    {
      var i :| 0 <= i < |kept| && kept[i] == b;
      assert t.bindings[i] == b;
    }
  }

  lemma BindKeepsInv(s: Store, version: nat, isDraft: bool, requests: seq<BindingRequest>)
    requires Inv(s) && UpdateBindings(s, version, isDraft, requests).Done?
    ensures var t := UpdateBindings(s, version, isDraft, requests).value;
            Inv(t) && Extends(s, t)
  {
    var t := UpdateBindings(s, version, isDraft, requests).value;
    UpdateReplacesDatabaseBindings(s, version, isDraft, requests);
    assert Extends(s, t);
    forall r: nat | r < |t.scopeRevisions|
      ensures RevisionInv(t, r)
    {
      RevisionInvKept(s, t, r);
    }
    forall k: nat | k < |t.scopes|
      ensures UpToDate(t, k)
    {
      assert UpToDate(s, k);
    }
    forall i | 0 <= i < |t.bindings|
      ensures Coherent(t, t.bindings[i])
    {
      var b := t.bindings[i];
      assert b in t.bindings;
      if !Granted(s, version, b) { var j :| 0 <= j < |s.bindings| && s.bindings[j] == b; }
      CoherentKept(s, t, b);
    }
  }

  /* Runs. */

  lemma StepKeepsInv(s: Store, step: Step)
    requires Inv(s)
    ensures Inv(Next(s, step)) && Extends(s, Next(s, step))
  {
    if Attempt(s, step).Done? {
      match step {
        case Create(name, databaseType, selections, discovery) =>
          CreateKeepsInv(s, name, databaseType, selections, discovery);
        case AddScope(instance, selection, discovery) => AddScopeKeepsInv(s, instance, selection, discovery);
        case Update(instance, rename, switch, endpoint) => UpdateKeepsInv(s, instance, rename, switch, endpoint);
        case Set(instance, enabled, health) => RowsOfInstances(s, Next(s, step));
        case Bind(version, isDraft, requests) => BindKeepsInv(s, version, isDraft, requests);
      }
    }
  }

  /** In every state a run reaches, the revisions of each connection and of each scope are numbered 1, 2, 3, ...,
      the current one is the last, every current scope revision names the current connector revision, and no
      connector revision, scope revision or implementation that was ever stored has changed. */
  lemma {:induction false} RunKeepsInv(s: Store, steps: seq<Step>)
    requires Inv(s)
    ensures Inv(Run(s, steps)) && Extends(s, Run(s, steps))
    decreases |steps|
  {
    if steps == [] {
    } else {
      var next := Next(s, steps[0]);
      StepKeepsInv(s, steps[0]);
      RunKeepsInv(next, steps[1..]);
      ExtendsThrough(s, next, Run(next, steps[1..]));
    }
  }

  /* Resolving bindings. */

  datatype Issue = ImplementationMissing | ProviderUnhealthy | ResourceScopeRequired | ResourceScopeMismatch

  /** The issues the resolver raises for a database binding. */
  function Issues(s: Store, b: Binding): set<Issue>
    requires b.target.Database?
  {
    if b.target.implementation >= |s.implementations| then {ImplementationMissing}
    else
      var revision := s.implementations[b.target.implementation].connectorRevision;
      if revision >= |s.connectorRevisions| then {ImplementationMissing}
      else
        (if Available(s, s.connectorRevisions[revision].owner) then {} else {ProviderUnhealthy})
        + if b.target.scopeRevision >= |s.scopeRevisions| then {ResourceScopeRequired}
          else if s.scopeRevisions[b.target.scopeRevision].content.connectorRevision != revision then
            {ResourceScopeMismatch}
          else {}
  }

  predicate Available(s: Store, instance: nat) {
    instance < |s.instances| && s.instances[instance].enabled && s.instances[instance].health != Offline
  }

  /** However often its connection is revised after a binding was made, resolving the binding raises no issue but
      one: that the connection it was made on is disabled or offline. */
  lemma BindingsNeverMismatch(s: Store, steps: seq<Step>, b: Binding)
    requires Inv(s) && b in s.bindings && b.target.Database?
    ensures b.target.scopeRevision < |s.scopeRevisions|
    ensures var t := Run(s, steps);
            var bound := s.scopeRevisions[b.target.scopeRevision].content.instance;
            Issues(t, b) == if Available(t, bound) then {} else {ProviderUnhealthy}
  {
    var t := Run(s, steps);
    RunKeepsInv(s, steps);
    var i :| 0 <= i < |s.bindings| && s.bindings[i] == b;
    assert Coherent(s, b);
    assert RevisionInv(s, b.target.scopeRevision);
  }

  /** The resolver flags a database binding, apart from the health of its connection, exactly when the binding does not
      name an implementation and a scope revision of the same connector revision. */
  lemma FlaggedIffIncoherent(s: Store, b: Binding)
    requires Inv(s) && b.target.Database?
    ensures Issues(s, b) <= {ProviderUnhealthy} <==> Coherent(s, b)
  {
    if b.target.scopeRevision < |s.scopeRevisions| { assert RevisionInv(s, b.target.scopeRevision); }
    assert ImplementationMissing !in {ProviderUnhealthy} && ResourceScopeRequired !in {ProviderUnhealthy}
           && ResourceScopeMismatch !in {ProviderUnhealthy};
  }

  /** On these routes no operation lacks an implementation, so a request that is permitted and whose alias is free
      is never turned away for want of one. */
  lemma OperationsAreImplemented(s: Store, scopeRevision: nat, o: Operation)
    requires Inv(s) && Unbindable(s, scopeRevision).None?
    ensures FindImplementation(s.implementations, o, ServedRevision(s, scopeRevision)).Some?
  {
    var instance := s.scopes[s.scopeRevisions[scopeRevision].owner].instance;
    assert IsLatest(s.connectorRevisions, instance, s.instances[instance].current);
  }

  /** A binding outlives its scope revision: after the connection is revised, the revision it names can no longer be
      bound anew, yet the binding still resolves without a mismatch. */
  lemma OldRevisionsStayResolvable(s: Store, instance: nat, databaseType: string, d: Discovery, b: Binding)
    requires Inv(s) && b in s.bindings && b.target.Database?
    requires instance < |s.instances| && ReplaceEndpoint(s, instance, databaseType, d).Done?
    requires b.target.scopeRevision < |s.scopeRevisions|
             && s.scopeRevisions[b.target.scopeRevision].content.instance == instance
    ensures var t := ReplaceEndpoint(s, instance, databaseType, d).value;
            && Unbindable(t, b.target.scopeRevision).Some?
            && ResourceScopeMismatch !in Issues(t, b)
  {
    var r := b.target.scopeRevision;
    ReplacementExtends(s, instance, databaseType, d);
    var i :| 0 <= i < |s.bindings| && s.bindings[i] == b;
    StaysCoherent(s, ReplaceEndpoint(s, instance, databaseType, d).value, b);
    OlderIsUnbindable(s, ReplaceEndpoint(s, instance, databaseType, d).value, r);
  }

  lemma ReplacementExtends(s: Store, instance: nat, databaseType: string, d: Discovery)
    requires Inv(s) && instance < |s.instances| && ReplaceEndpoint(s, instance, databaseType, d).Done?
    ensures var t := ReplaceEndpoint(s, instance, databaseType, d).value;
            && Extends(s, t) && t.instances[instance].current == |s.connectorRevisions|
            && (forall r: nat | r < |s.scopeRevisions| :: RevisionInv(s, r) && RevisionInv(t, r))
  {
    EndpointReplacement(s, instance, databaseType, d);
  }

  lemma StaysCoherent(s: Store, t: Store, b: Binding)
    requires Coherent(s, b) && b.target.Database? && Extends(s, t)
    ensures ResourceScopeMismatch !in Issues(t, b)
  {
    CoherentKept(s, t, b);
  }

  /** A revision that names an earlier connector revision than the current one cannot be bound. */
  lemma OlderIsUnbindable(s: Store, t: Store, r: nat)
    requires r < |s.scopeRevisions| && RevisionInv(s, r) && Extends(s, t) && RevisionInv(t, r)
    requires s.scopeRevisions[r].content.instance < |t.instances|
    requires t.instances[s.scopeRevisions[r].content.instance].current >= |s.connectorRevisions|
    ensures Unbindable(t, r).Some?
  {
    assert t.scopeRevisions[r] == s.scopeRevisions[r];
  }
}
