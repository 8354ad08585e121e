/** What the requests on connections and scopes come to: when each of them succeeds, what it adds, what it writes and
    what it leaves alone. */
module ScopeRequests {
  import opened Options
  import opened DatabaseScopes
  import opened ScopeLifecycle
  import opened ScopeTheorems
  import opened ScopeBindings

  /** Object by object: whatever is selected was found in a database that is ready. */
  predicate Discovered(d: Discovery, sel: Selection) {
    && sel.database in d.databases && d.databases[sel.database].ready
    && var found := d.databases[sel.database].schemas;
       && (forall n | n in sel.schemas :: n in found)
       && (forall n, table | n in sel.schemas && table in sel.schemas[n].tables :: table in found[n].tables)
       && (forall n, view | n in sel.schemas && view in sel.schemas[n].views :: view in found[n].views)
  }

  lemma ValidatesIff(d: Discovery, sel: Selection)
    ensures Validates(d, sel) <==> Discovered(d, sel)
  {
  }

  /** Scope `k` exists, says what the selection says about its instance and connector revision, and its one revision
      may be bound. */
  predicate Stores(t: Store, k: nat, instance: nat, databaseType: string, sel: Selection) {
    && k < |t.scopes| && t.scopes[k].instance == instance && t.scopes[k].current < |t.scopeRevisions|
    && instance < |t.instances|
    && t.scopeRevisions[t.scopes[k].current].owner == k && t.scopeRevisions[t.scopes[k].current].number == 1
    && CurrentOf(t, k).instance == instance && CurrentOf(t, k).connectorRevision == t.instances[instance].current
    && CurrentOf(t, k).databaseType == databaseType
    && SelectionOf(CurrentOf(t, k)) == sel
  }

  /** The scopes from position `first` on are the selections. */
  ghost predicate StoresAll(t: Store, first: nat, instance: nat, databaseType: string, selections: seq<Selection>) {
    forall k: nat | k < |selections| :: Stores(t, first + k, instance, databaseType, selections[k])
  }

  lemma ScopeStored(s: Store, instance: nat, databaseType: string, sel: Selection)
    requires instance < |s.instances| && Selectable(sel)
    ensures var t := WithScope(s, instance, s.instances[instance].current, databaseType, sel);
            && t == s.(scopes := t.scopes, scopeRevisions := t.scopeRevisions)
            && |t.scopes| == |s.scopes| + 1 && s.scopes <= t.scopes && s.scopeRevisions <= t.scopeRevisions
            && Stores(t, |s.scopes|, instance, databaseType, sel)
  {
    SelectionRoundTrip(instance, s.instances[instance].current, databaseType, sel);
  }

  lemma StoredStays(t: Store, u: Store, k: nat, instance: nat, databaseType: string, sel: Selection)
    requires Stores(t, k, instance, databaseType, sel)
    requires t.scopes <= u.scopes && t.scopeRevisions <= u.scopeRevisions && u.instances == t.instances
    ensures Stores(u, k, instance, databaseType, sel)
  {
  }

  lemma {:induction false} ScopesStored(s: Store, instance: nat, databaseType: string, selections: seq<Selection>)
    requires instance < |s.instances| && forall i | 0 <= i < |selections| :: Selectable(selections[i])
    ensures var t := WithScopes(s, instance, s.instances[instance].current, databaseType, selections);
            && t == s.(scopes := t.scopes, scopeRevisions := t.scopeRevisions)
            && |t.scopes| == |s.scopes| + |selections| && s.scopes <= t.scopes && s.scopeRevisions <= t.scopeRevisions
            && StoresAll(t, |s.scopes|, instance, databaseType, selections)
    decreases |selections|
  {
    if selections == [] {
    } else {
      var n := |selections| - 1;
      ScopesStored(s, instance, databaseType, selections[..n]);
      var u := WithScopes(s, instance, s.instances[instance].current, databaseType, selections[..n]);
      ScopeStored(u, instance, databaseType, selections[n]);
      var t := WithScope(u, instance, s.instances[instance].current, databaseType, selections[n]);
      forall k: nat | k < |selections|
        ensures Stores(t, |s.scopes| + k, instance, databaseType, selections[k])
      {
        if k < n { StoredStays(u, t, |s.scopes| + k, instance, databaseType, selections[..n][k]); }
      }
    }
  }

  predicate NameUsed(s: Store, name: string) {
    exists i | 0 <= i < |s.instances| :: s.instances[i].name == name
  }

  predicate AllAcceptable(selections: seq<Selection>) {
    forall sel | sel in selections :: Selectable(sel)
  }

  predicate AllDiscovered(d: Discovery, selections: seq<Selection>) {
    forall sel | sel in selections :: Discovered(d, sel)
  }

  lemma ChecksIff(selections: seq<Selection>, d: Discovery)
    ensures AllAcceptable(selections) <==> forall i | 0 <= i < |selections| :: Selectable(selections[i])
    ensures AllDiscovered(d, selections) <==> forall i | 0 <= i < |selections| :: Validates(d, selections[i])
  {
    forall i | 0 <= i < |selections|
      ensures selections[i] in selections
      ensures Validates(d, selections[i]) <==> Discovered(d, selections[i])
    {
      ValidatesIff(d, selections[i]);
    }
  }

  lemma ConnectionStored(s: Store, name: string, databaseType: string, selections: seq<Selection>, d: Discovery)
    requires CreateConnection(s, name, databaseType, selections, d).Done?
    ensures var t := CreateConnection(s, name, databaseType, selections, d).value;
            && t.instances == s.instances + [Instance(name, true, Healthy, |s.connectorRevisions|)]
            && t.connectorRevisions == s.connectorRevisions + [Revision(|s.instances|, 1, databaseType)]
            && |t.scopes| == |s.scopes| + |selections| && s.scopes <= t.scopes
            && StoresAll(t, |s.scopes|, |s.instances|, databaseType, selections)
            && t.bindings == s.bindings
  {
    var t := CreateConnection(s, name, databaseType, selections, d).value;
    var u := Started(s, name, databaseType);
    ScopesStored(u, |s.instances|, databaseType, selections);
    var filled := WithScopes(u, |s.instances|, |s.connectorRevisions|, databaseType, selections);
    assert t == filled.(implementations := t.implementations);
    forall k: nat | k < |selections|
      ensures Stores(t, |s.scopes| + k, |s.instances|, databaseType, selections[k])
    {
      StoredStays(filled, t, |s.scopes| + k, |s.instances|, databaseType, selections[k]);
    }
  }

  /** A connection is created exactly when its selections are acceptable and discovered on a ready endpoint and its
      name is free; it then serves one scope for each selection, every one of which may be bound at once, and nothing
      that was there has changed. The first requirement that fails is the one that is named. */
  lemma ConnectionOutcome(s: Store, name: string, databaseType: string, selections: seq<Selection>, d: Discovery)
    ensures var r := CreateConnection(s, name, databaseType, selections, d);
            && (r.Done? <==>
                  AllAcceptable(selections) && d.ready && AllDiscovered(d, selections) && !NameUsed(s, name))
            && (r == Refused(InvalidSelection) <==> !AllAcceptable(selections))
            && (r == Refused(NotReady) <==> AllAcceptable(selections) && !d.ready)
            && (r == Refused(NotDiscovered) <==>
                  AllAcceptable(selections) && d.ready && !AllDiscovered(d, selections))
            && (r.Done? ==>
                  && r.value.instances == s.instances + [Instance(name, true, Healthy, |s.connectorRevisions|)]
                  && r.value.connectorRevisions == s.connectorRevisions + [Revision(|s.instances|, 1, databaseType)]
                  && |r.value.scopes| == |s.scopes| + |selections| && s.scopes <= r.value.scopes
                  && StoresAll(r.value, |s.scopes|, |s.instances|, databaseType, selections)
                  && r.value.bindings == s.bindings)
  {
    ChecksIff(selections, d);
    if CreateConnection(s, name, databaseType, selections, d).Done? {
      ConnectionStored(s, name, databaseType, selections, d);
    }
  }

  /** A stored scope of an enabled and healthy connection may be bound. */
  lemma StoredIsOffered(t: Store, k: nat, instance: nat, databaseType: string, sel: Selection)
    requires Inv(t) && Stores(t, k, instance, databaseType, sel)
    ensures Offered(t, t.scopes[k].current) <==>
            t.instances[instance].enabled && t.instances[instance].health == Healthy
  {
  }

  /** A scope is added exactly when the connection exists and the selection is acceptable and discovered. */
  lemma ScopeOutcome(s: Store, instance: nat, sel: Selection, d: Discovery)
    requires Inv(s)
    ensures var r := CreateScope(s, instance, sel, d);
            && (r.Done? <==> instance < |s.instances| && Selectable(sel) && Discovered(d, sel))
            && (r == Refused(NoSuchInstance) <==> instance >= |s.instances|)
            && (r == Refused(InvalidSelection) <==> instance < |s.instances| && !Selectable(sel))
            && (r.Done? ==>
                  && r.value == s.(scopes := r.value.scopes, scopeRevisions := r.value.scopeRevisions)
                  && |r.value.scopes| == |s.scopes| + 1 && s.scopes <= r.value.scopes
                  && s.scopeRevisions <= r.value.scopeRevisions
                  && s.instances[instance].current < |s.connectorRevisions|
                  && Stores(r.value, |s.scopes|, instance, s.connectorRevisions[s.instances[instance].current].content,
                            sel))
  {
    ValidatesIff(d, sel);
    if instance < |s.instances| {
      assert IsLatest(s.connectorRevisions, instance, s.instances[instance].current);
      if Selectable(sel) {
        ScopeStored(s, instance, s.connectorRevisions[s.instances[instance].current].content, sel);
      }
    }
  }

  lemma ReplacementTouches(s: Store, instance: nat, databaseType: string, d: Discovery)
    requires Inv(s) && instance < |s.instances| && ReplaceEndpoint(s, instance, databaseType, d).Done?
    ensures var t := ReplaceEndpoint(s, instance, databaseType, d).value;
            && t.instances == s.instances[instance := s.instances[instance].(current := |s.connectorRevisions|,
                                                                             health := Healthy)]
            && t.bindings == s.bindings
            && |t.connectorRevisions| == |s.connectorRevisions| + 1
            && t.connectorRevisions[|s.connectorRevisions|].content == databaseType
  {
    var u := Repointed(s, instance, databaseType);
    RepointedKeeps(s, instance, databaseType);
    assert CarryForward(u, instance, |s.connectorRevisions|, databaseType, d, 0).Done?;
    CarryForwardKeeps(u, instance, |s.connectorRevisions|, databaseType, d, 0);
  }

  /** What a successful update writes: the name and the switch that were asked for, and with an endpoint a new connector
      revision on a connection that counts as healthy. No other connection and no binding is touched. */
  lemma UpdateOutcomeOf(s: Store, instance: nat, name: Option<string>, enabled: Option<bool>,
                        endpoint: Option<Endpoint>)
    requires Inv(s) && instance < |s.instances| && UpdateConnection(s, instance, name, enabled, endpoint).Done?
    ensures var t := UpdateConnection(s, instance, name, enabled, endpoint).value;
            && |t.instances| == |s.instances| && t.bindings == s.bindings
            && (forall i | 0 <= i < |s.instances| && i != instance :: t.instances[i] == s.instances[i])
            && (name.Some? ==> t.instances[instance].name == name.value)
            && (name.None? ==> t.instances[instance].name == s.instances[instance].name)
            && (enabled.Some? ==> t.instances[instance].enabled == enabled.value)
            && (enabled.None? ==> t.instances[instance].enabled == s.instances[instance].enabled)
            && (endpoint.None? ==>
                  && t == s.(instances := t.instances)
                  && t.instances[instance].health == s.instances[instance].health
                  && t.instances[instance].current == s.instances[instance].current)
            && (endpoint.Some? ==>
                  && t.instances[instance].health == Healthy
                  && t.instances[instance].current == |s.connectorRevisions|
                  && |t.connectorRevisions| == |s.connectorRevisions| + 1
                  && t.connectorRevisions[|s.connectorRevisions|].content == endpoint.value.databaseType)
  {
    var renamed := Renamed(s, instance, name, enabled);
    RowsOfInstances(s, renamed);
    if endpoint.Some? {
      ReplacementTouches(renamed, instance, endpoint.value.databaseType, endpoint.value.discovery);
    }
  }

  /** Switching a connection or recording its health decides whether its current scope revisions may be bound, and
      nothing else about anything. */
  lemma SwitchOutcome(s: Store, instance: nat, enabled: bool, health: Health, r: nat)
    requires Inv(s)
    ensures var result := SetHealth(s, instance, enabled, health);
            && (result.Done? <==> instance < |s.instances|)
            && (result.Done? ==>
                  && result.value == s.(instances := result.value.instances)
                  && |result.value.instances| == |s.instances|
                  && (Offered(result.value, r) <==>
                        if IsCurrent(s, r) && s.scopes[s.scopeRevisions[r].owner].instance == instance
                        then enabled && health == Healthy else Offered(s, r)))
  {
    if r < |s.scopeRevisions| { assert RevisionInv(s, r); }
  }

  /** The revision is the current one of its scope. */
  predicate IsCurrent(s: Store, r: nat) {
    r < |s.scopeRevisions| && s.scopeRevisions[r].owner < |s.scopes|
    && s.scopes[s.scopeRevisions[r].owner].current == r
  }
}
