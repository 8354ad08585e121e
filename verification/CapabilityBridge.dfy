/** The two shared dictionaries and the tool registry behind the Hermes capability bridge. */
module CapabilityBridge {
  import opened Options

  /** Who owns a registry entry. */
  datatype Toolset = Platform | Foreign(name: string)

  datatype RunBinding = RunBinding(runId: string, sessionId: string, tools: seq<string>, active: bool)

  /** `bindings` maps keys to binding objects, named by their handle in `objects`. */
  datatype Bridge = Bridge(
    bindings: map<string, nat>,
    objects: map<nat, RunBinding>,
    aliases: map<string, nat>,
    registry: map<string, Toolset>)

  datatype Outcome = Registered | NothingToRegister | IdentityActive | AliasConflict(alias: string)

  predicate Distinct(tools: seq<string>) {
    forall i, j | 0 <= i < j < |tools| :: tools[i] != tools[j]
  }

  function Count(aliases: map<string, nat>, a: string): nat {
    if a in aliases then aliases[a] else 0
  }

  predicate Conflicts(registry: map<string, Toolset>, a: string) {
    a in registry && registry[a] != Platform
  }

  /** The position of the first tool whose name is taken by a foreign tool, or the length. */
  function FirstConflict(registry: map<string, Toolset>, tools: seq<string>): (c: nat)
    ensures c <= |tools|
    ensures forall i | 0 <= i < c :: !Conflicts(registry, tools[i])
    ensures c < |tools| ==> Conflicts(registry, tools[c])
  {
    if tools == [] then 0
    else if Conflicts(registry, tools[0]) then 0
    else
      var rest := FirstConflict(registry, tools[1..]);
      assert forall i | 1 <= i < 1 + rest :: tools[i] == tools[1..][i - 1];
      1 + rest
  }

  /** The aliases of `added` that were not counted before. */
  function Created(aliases: map<string, nat>, added: seq<string>): set<string> {
    set t | t in added && t !in aliases
  }

  /** Every alias of `tools` counted once more. */
  function CountedUp(aliases: map<string, nat>, tools: seq<string>): map<string, nat> {
    map a | a in aliases.Keys + (set t | t in tools) :: Count(aliases, a) + if a in tools then 1 else 0
  }

  /** Every alias of `tools` that was not counted before is entered as a platform tool. */
  function Entered(registry: map<string, Toolset>, aliases: map<string, nat>,
                   tools: seq<string>): map<string, Toolset> {
    map a | a in registry.Keys + Created(aliases, tools)
      :: if a in Created(aliases, tools) then Platform else registry[a]
  }

  /** The rollback: one less for every counted alias of the list; aliases this call created are dropped. */
  function RolledBackAliases(aliases: map<string, nat>, created: set<string>, tools: seq<string>): map<string, nat> {
    map a | a in aliases && !(a in tools && a in created && aliases[a] <= 1)
      :: if a in tools && aliases[a] > 0 then aliases[a] - 1 else aliases[a]
  }

  function RolledBackRegistry(registry: map<string, Toolset>, aliases: map<string, nat>, created: set<string>,
                              tools: seq<string>): map<string, Toolset> {
    registry - set a | a in created && a in tools && a in aliases && aliases[a] <= 1
  }

  /** The bridge after the tools of `added` were entered and the whole list was rolled back. */
  function RolledBack(b: Bridge, added: seq<string>, tools: seq<string>): Bridge {
    var aliases := CountedUp(b.aliases, added);
    var created := Created(b.aliases, added);
    b.(aliases := RolledBackAliases(aliases, created, tools),
       registry := RolledBackRegistry(Entered(b.registry, b.aliases, added), aliases, created, tools))
  }

  function Register(b: Bridge, handle: nat, runId: string, sessionId: string,
                    tools: seq<string>): (r: (Outcome, Bridge)) {
    if tools == [] then (NothingToRegister, b)
    else if runId in b.bindings || (sessionId != runId && sessionId in b.bindings) then (IdentityActive, b)
    else
      var c := FirstConflict(b.registry, tools);
      var added := tools[..c];
      var aliases := CountedUp(b.aliases, added);
      var registry := Entered(b.registry, b.aliases, added);
      if c < |tools| then
        (AliasConflict(tools[c]), RolledBack(b, added, tools))
      else
        (Registered,
         Bridge(b.bindings[runId := handle][sessionId := handle],
                b.objects[handle := RunBinding(runId, sessionId, tools, true)],
                aliases, registry))
  }

  function Unregister(b: Bridge, key: string): Bridge {
    if key !in b.bindings || b.bindings[key] !in b.objects then b
    else
      var handle := b.bindings[key];
      var binding := b.objects[handle];
      var popped := b.bindings - {key};
      var bindings :=
        if binding.sessionId != key && binding.sessionId in popped && popped[binding.sessionId] == handle
        then popped - {binding.sessionId} else popped;
      Bridge(bindings,
             b.objects[handle := binding.(active := false, tools := [])],
             CountedDown(b.aliases, binding.tools),
             LeftEntered(b.registry, b.aliases, binding.tools))
  }

  function CountedDown(aliases: map<string, nat>, tools: seq<string>): map<string, nat> {
    map a | a in aliases && !(a in tools && aliases[a] <= 1)
      :: if a in tools then aliases[a] - 1 else aliases[a]
  }

  /** The registry without the tools whose last reference is being given up. */
  function LeftEntered(registry: map<string, Toolset>, aliases: map<string, nat>,
                       tools: seq<string>): map<string, Toolset> {
    registry - set t | t in tools && Count(aliases, t) <= 1
  }

  /* The invariant. */

  /** Key `k` is the run id of an active binding that holds alias `a`. */
  predicate Holds(b: Bridge, k: string, a: string) {
    k in b.bindings && b.bindings[k] in b.objects &&
    b.objects[b.bindings[k]].runId == k && a in b.objects[b.bindings[k]].tools
  }

  function Holders(b: Bridge, a: string): set<string> {
    set k | k in b.bindings && Holds(b, k, a)
  }

  /** Both keys of a binding lead to it, and it is active. */
  predicate OwnBinding(b: Bridge, k: string) {
    k in b.bindings && b.bindings[k] in b.objects &&
    var o := b.objects[b.bindings[k]];
    && o.active && o.tools != [] && Distinct(o.tools)
    && (k == o.runId || k == o.sessionId)
    && o.runId in b.bindings && b.bindings[o.runId] == b.bindings[k]
    && o.sessionId in b.bindings && b.bindings[o.sessionId] == b.bindings[k]
  }

  ghost predicate Sound(b: Bridge) {
    && (forall k | k in b.bindings :: OwnBinding(b, k))
    && (forall a :: Count(b.aliases, a) == |Holders(b, a)|)
    && (forall a | a in b.aliases :: b.aliases[a] > 0)
    && (forall a :: a in b.aliases <==> a in b.registry && b.registry[a] == Platform)
  }

  /** What callers can observe: everything but dead binding objects. */
  function Observable(b: Bridge): (map<string, nat>, map<string, nat>, map<string, Toolset>) {
    (b.bindings, b.aliases, b.registry)
  }

  /* When a run is registered. */

  /** The name of tool `c` belongs to somebody else, and it is the first such name of the list. */
  ghost predicate FirstTaken(registry: map<string, Toolset>, tools: seq<string>, c: nat) {
    && c < |tools| && tools[c] in registry && registry[tools[c]] != Platform
    && forall i | 0 <= i < c :: tools[i] in registry ==> registry[tools[i]] == Platform
  }

  ghost predicate NamesFree(registry: map<string, Toolset>, tools: seq<string>) {
    forall t | t in tools && t in registry :: registry[t] == Platform
  }

  lemma FirstConflictIs(registry: map<string, Toolset>, tools: seq<string>)
    ensures FirstConflict(registry, tools) == |tools| <==> NamesFree(registry, tools)
    ensures forall c: nat :: FirstTaken(registry, tools, c) <==> c < |tools| && c == FirstConflict(registry, tools)
  {
    var first := FirstConflict(registry, tools);
    if first < |tools| { assert tools[first] in tools; }
    forall c: nat
      ensures FirstTaken(registry, tools, c) <==> c < |tools| && c == first
    {
      assert first < |tools| ==> Conflicts(registry, tools[first]);
    }
  }

  /** Each answer to a registration, with the one situation in which it is given. Only a success, and a rollback that
      finds held tools, change anything. */
  lemma RegistrationOutcome(b: Bridge, handle: nat, runId: string, sessionId: string, tools: seq<string>)
    ensures var (outcome, after) := Register(b, handle, runId, sessionId, tools);
            var keysFree := runId !in b.bindings && sessionId !in b.bindings;
            && (outcome == Registered <==> |tools| > 0 && keysFree && NamesFree(b.registry, tools))
            && (outcome == NothingToRegister <==> |tools| == 0)
            && (outcome == IdentityActive <==> |tools| > 0 && !keysFree)
            && (forall a :: outcome == AliasConflict(a) <==>
                  |tools| > 0 && keysFree && exists c: nat :: FirstTaken(b.registry, tools, c) && tools[c] == a)
            && (outcome in {NothingToRegister, IdentityActive} ==> after == b)
            && (outcome.AliasConflict? ==> after.bindings == b.bindings && after.objects == b.objects)
  {
    FirstConflictIs(b.registry, tools);
    var (outcome, after) := Register(b, handle, runId, sessionId, tools);
    var first := FirstConflict(b.registry, tools);
    assert first < |tools| ==> FirstTaken(b.registry, tools, first);
    forall a
      ensures outcome == AliasConflict(a) <==>
              |tools| > 0 && runId !in b.bindings && sessionId !in b.bindings
              && exists c: nat :: FirstTaken(b.registry, tools, c) && tools[c] == a
    {
      if c: nat :| FirstTaken(b.registry, tools, c) && tools[c] == a { assert c == first; }
    }
  }

  /** A new binding under two free keys holds its tools and disturbs no other holder. */
  lemma NewHolder(b: Bridge, after: Bridge, handle: nat, o: RunBinding, a: string)
    requires forall k | k in b.bindings :: OwnBinding(b, k)
    requires handle !in b.objects && o.runId !in b.bindings && o.sessionId !in b.bindings
    requires after.bindings == b.bindings[o.runId := handle][o.sessionId := handle]
    requires after.objects == b.objects[handle := o]
    ensures Holders(after, a) == Holders(b, a) + (if a in o.tools then {o.runId} else {})
    ensures o.runId !in Holders(b, a)
  {
    forall k
      ensures k in Holders(after, a) <==> k in Holders(b, a) || (k == o.runId && a in o.tools)
    {
      if k in b.bindings { assert OwnBinding(b, k); }
    }
  }

  lemma RegisteredObject(b: Bridge, handle: nat, runId: string, sessionId: string, tools: seq<string>)
    requires Register(b, handle, runId, sessionId, tools).0 == Registered
    ensures var after := Register(b, handle, runId, sessionId, tools).1;
            && runId !in b.bindings && sessionId !in b.bindings && tools != []
            && after.bindings == b.bindings[runId := handle][sessionId := handle]
            && after.objects == b.objects[handle := RunBinding(runId, sessionId, tools, true)]
  {
  }

  lemma OwnBindingKept(b: Bridge, after: Bridge, k: string)
    requires OwnBinding(b, k)
    requires forall x | x in b.bindings :: x in after.bindings && after.bindings[x] == b.bindings[x]
    requires forall h | h in b.objects :: h in after.objects && after.objects[h] == b.objects[h]
    ensures OwnBinding(after, k)
  {
  }

  lemma RegisteredBindings(b: Bridge, handle: nat, runId: string, sessionId: string, tools: seq<string>)
    requires (forall k | k in b.bindings :: OwnBinding(b, k)) && handle !in b.objects && Distinct(tools)
    requires Register(b, handle, runId, sessionId, tools).0 == Registered
    ensures var after := Register(b, handle, runId, sessionId, tools).1;
            forall k | k in after.bindings :: OwnBinding(after, k)
  {
    var after := Register(b, handle, runId, sessionId, tools).1;
    RegisteredObject(b, handle, runId, sessionId, tools);
    forall k | k in after.bindings
      ensures OwnBinding(after, k)
    {
      if k in b.bindings {
        OwnBindingKept(b, after, k);
      } else {
        assert after.bindings[k] == handle && after.bindings[runId] == handle;
      }
    }
  }

  lemma RegisteredWithoutConflict(b: Bridge, handle: nat, runId: string, sessionId: string, tools: seq<string>)
    requires Register(b, handle, runId, sessionId, tools).0 == Registered
    ensures forall t | t in tools :: !Conflicts(b.registry, t)
    ensures Register(b, handle, runId, sessionId, tools).1.registry == Entered(b.registry, b.aliases, tools)
  {
    assert tools[..FirstConflict(b.registry, tools)] == tools;
  }

  lemma RegisteredAliases(b: Bridge, handle: nat, runId: string, sessionId: string, tools: seq<string>)
    requires Register(b, handle, runId, sessionId, tools).0 == Registered
    ensures var after := Register(b, handle, runId, sessionId, tools).1;
            && (forall a :: Count(after.aliases, a) == Count(b.aliases, a) + if a in tools then 1 else 0)
            && (forall a :: a in after.aliases <==> a in b.aliases || a in tools)
            && (forall a :: a in after.registry && after.registry[a] == Platform <==>
                  (a in b.registry && b.registry[a] == Platform) || (a in tools && a !in b.aliases))
  {
    assert tools[..FirstConflict(b.registry, tools)] == tools;
    forall a
      ensures a in tools ==> !Conflicts(b.registry, a)
    {
      if a in tools { var i :| 0 <= i < |tools| && tools[i] == a; }
    }
  }

  lemma RegisterKeepsSound(b: Bridge, handle: nat, runId: string, sessionId: string, tools: seq<string>)
    requires Sound(b) && handle !in b.objects && Distinct(tools)
    requires !Register(b, handle, runId, sessionId, tools).0.AliasConflict?
    ensures Sound(Register(b, handle, runId, sessionId, tools).1)
  {
    var (outcome, after) := Register(b, handle, runId, sessionId, tools);
    if outcome == Registered {
      RegisteredObject(b, handle, runId, sessionId, tools);
      RegisteredBindings(b, handle, runId, sessionId, tools);
      RegisteredAliases(b, handle, runId, sessionId, tools);
      NewBindingIsSound(b, after, handle, RunBinding(runId, sessionId, tools, true));
    }
  }

  lemma NewBindingIsSound(b: Bridge, after: Bridge, handle: nat, o: RunBinding)
    requires Sound(b) && handle !in b.objects && o.runId !in b.bindings && o.sessionId !in b.bindings
    requires after.bindings == b.bindings[o.runId := handle][o.sessionId := handle]
             && after.objects == b.objects[handle := o]
    requires forall k | k in after.bindings :: OwnBinding(after, k)
    requires forall a :: Count(after.aliases, a) == Count(b.aliases, a) + if a in o.tools then 1 else 0
    requires forall a :: a in after.aliases <==> a in b.aliases || a in o.tools
    requires forall a :: a in after.registry && after.registry[a] == Platform <==>
               (a in b.registry && b.registry[a] == Platform) || (a in o.tools && a !in b.aliases)
    ensures Sound(after)
  {
    forall a
      ensures Count(after.aliases, a) == |Holders(after, a)|
    {
      NewHolder(b, after, handle, o, a);
    }
    forall a | a in after.aliases
      ensures after.aliases[a] > 0
    {
      assert Count(after.aliases, a) == Count(b.aliases, a) + if a in o.tools then 1 else 0;
    }
  }

  lemma UnregisterHolders(b: Bridge, runId: string, a: string)
    requires Sound(b) && runId in b.bindings && b.objects[b.bindings[runId]].runId == runId
    ensures Holders(Unregister(b, runId), a) == Holders(b, a) - {runId}
  {
    var after := Unregister(b, runId);
    var o := b.objects[b.bindings[runId]];
    assert OwnBinding(b, runId);
    forall k
      ensures k in Holders(after, a) <==> k in Holders(b, a) && k != runId
    {
      if k in b.bindings { assert OwnBinding(b, k); }
    }
  }

  /** Unregistering by run id keeps the dictionaries and the registry in agreement. */
  lemma UnregisterKeepsSound(b: Bridge, runId: string)
    requires Sound(b) && (runId in b.bindings ==> b.objects[b.bindings[runId]].runId == runId)
    ensures Sound(Unregister(b, runId))
    ensures runId !in Unregister(b, runId).bindings
  {
    if runId in b.bindings {
      var after := Unregister(b, runId);
      var o := b.objects[b.bindings[runId]];
      assert OwnBinding(b, runId);
      forall k | k in after.bindings
        ensures OwnBinding(after, k)
      {
        assert OwnBinding(b, k);
        assert b.bindings[k] != b.bindings[runId];
      }
      forall a
        ensures Count(after.aliases, a) == |Holders(after, a)|
      {
        UnregisterHolders(b, runId, a);
        assert runId in Holders(b, a) <==> a in o.tools;
      }
      forall a
        ensures a in after.aliases <==> a in after.registry && after.registry[a] == Platform
      {
        if a in o.tools { assert Count(b.aliases, a) == |Holders(b, a)| && runId in Holders(b, a); }
      }
    }
  }

  /** Unregistering undoes a successful registration exactly. */
  lemma UnregisterUndoesRegister(b: Bridge, handle: nat, runId: string, sessionId: string, tools: seq<string>)
    requires Sound(b) && handle !in b.objects && Distinct(tools)
    requires Register(b, handle, runId, sessionId, tools).0 == Registered
    ensures Observable(Unregister(Register(b, handle, runId, sessionId, tools).1, runId)) == Observable(b)
  {
    var after := Register(b, handle, runId, sessionId, tools).1;
    RegisteredAliases(b, handle, runId, sessionId, tools);
    RegisteredWithoutConflict(b, handle, runId, sessionId, tools);
    UndoneBindings(b, handle, runId, sessionId, tools);
    assert after.objects[after.bindings[runId]].tools == tools;
    UndoneAliases(b.aliases, after.aliases, tools);
    UndoneRegistry(b, after, tools);
  }

  lemma PutAndTake(m: map<string, nat>, k1: string, k2: string, v: nat)
    requires k1 !in m && k2 !in m
    ensures m[k1 := v][k2 := v] - {k1} - {k2} == m
    ensures k1 == k2 ==> m[k1 := v][k2 := v] - {k1} == m
  {
  }

  lemma UndoneBindings(b: Bridge, handle: nat, runId: string, sessionId: string, tools: seq<string>)
    requires Register(b, handle, runId, sessionId, tools).0 == Registered
    ensures Unregister(Register(b, handle, runId, sessionId, tools).1, runId).bindings == b.bindings
  {
    var after := Register(b, handle, runId, sessionId, tools).1;
    PutAndTake(b.bindings, runId, sessionId, handle);
    assert after.bindings == b.bindings[runId := handle][sessionId := handle];
    assert after.objects[handle] == RunBinding(runId, sessionId, tools, true);
    assert after.bindings[runId] == handle;
  }

  lemma UndoneAliases(before: map<string, nat>, after: map<string, nat>, tools: seq<string>)
    requires forall a | a in before :: before[a] > 0
    requires forall a :: Count(after, a) == Count(before, a) + if a in tools then 1 else 0
    requires forall a :: a in after <==> a in before || a in tools
    ensures CountedDown(after, tools) == before
  {
    var down := CountedDown(after, tools);
    forall a
      ensures a in down <==> a in before
      ensures a in before ==> down[a] == before[a]
    {
      assert Count(after, a) == Count(before, a) + if a in tools then 1 else 0;
    }
  }

  lemma UndoneRegistry(b: Bridge, after: Bridge, tools: seq<string>)
    requires Sound(b) && (forall t | t in tools :: !Conflicts(b.registry, t))
    requires after.registry == Entered(b.registry, b.aliases, tools)
    requires forall a :: Count(after.aliases, a) == Count(b.aliases, a) + if a in tools then 1 else 0
    ensures LeftEntered(after.registry, after.aliases, tools) == b.registry
  {
    var undone := LeftEntered(after.registry, after.aliases, tools);
    forall a
      ensures a in undone <==> a in b.registry
      ensures a in b.registry ==> undone[a] == b.registry[a]
    {
      assert Count(after.aliases, a) == Count(b.aliases, a) + if a in tools then 1 else 0;
      if a in tools { assert a in b.aliases <==> a in b.registry; }
    }
  }

  /** The key a call is looked up by: its task id if that is bound, and otherwise its session id. */
  function KeyOf(b: Bridge, taskId: string, sessionId: string): string {
    if taskId in b.bindings then taskId else sessionId
  }

  predicate Authorized(b: Bridge, taskId: string, sessionId: string, a: string) {
    var key := KeyOf(b, taskId, sessionId);
    key in b.bindings && b.bindings[key] in b.objects &&
    b.objects[b.bindings[key]].active && a in b.objects[b.bindings[key]].tools
  }

  /** A call is let through exactly when the run that owns its key holds the tool. */
  lemma AuthorizedIffHeld(b: Bridge, taskId: string, sessionId: string, a: string)
    requires Sound(b)
    ensures var key := KeyOf(b, taskId, sessionId);
            Authorized(b, taskId, sessionId, a) <==>
              key in b.bindings && b.bindings[key] in b.objects && Holds(b, b.objects[b.bindings[key]].runId, a)
  {
    var key := KeyOf(b, taskId, sessionId);
    if key in b.bindings { assert OwnBinding(b, key); }
  }

  /** A new run changes what is let through only where its own keys decide: with either key as task id, and with
      either key as session id behind an unbound task id. There its tools pass and nothing else does. */
  lemma DispatchIsIsolated(b: Bridge, handle: nat, runId: string, sessionId: string, tools: seq<string>, a: string)
    requires Sound(b) && handle !in b.objects && Distinct(tools)
    requires Register(b, handle, runId, sessionId, tools).0 == Registered
    ensures var after := Register(b, handle, runId, sessionId, tools).1;
            forall t, s ::
              Authorized(after, t, s, a) <==>
                if t in {runId, sessionId} || (t !in b.bindings && s in {runId, sessionId}) then a in tools
                else Authorized(b, t, s, a)
  {
    RegisteredObject(b, handle, runId, sessionId, tools);
    var after := Register(b, handle, runId, sessionId, tools).1;
    forall k | k in b.bindings
      ensures k != runId && k != sessionId && b.bindings[k] in b.objects && b.bindings[k] != handle
    {
      assert OwnBinding(b, k);
    }
  }

  /** The rollback gives back the aliases counted up before the conflict, and takes one away from every later
      alias that is counted. */
  lemma RolledBackCounts(before: map<string, nat>, added: seq<string>, tools: seq<string>)
    requires (forall a | a in before :: before[a] > 0) && (forall t | t in added :: t in tools)
    ensures var created := set t | t in added && t !in before;
            var back := RolledBackAliases(CountedUp(before, added), created, tools);
            && back.Keys == before.Keys
            && forall a | a in before :: back[a] == before[a] - if a in tools && a !in added then 1 else 0
  {
    var created := Created(before, added);
    var back := RolledBackAliases(CountedUp(before, added), created, tools);
    forall a
      ensures a in back <==> a in before
      ensures a in before ==> back[a] == before[a] - if a in tools && a !in added then 1 else 0
    {
    }
  }

  /** The dictionaries alone: every alias is counted, and counted exactly while it is a platform tool. */
  ghost predicate Tidy(b: Bridge) {
    && (forall a | a in b.aliases :: b.aliases[a] > 0)
    && (forall a :: a in b.aliases <==> a in b.registry && b.registry[a] == Platform)
  }

  lemma RolledBackEntries(b: Bridge, added: seq<string>, tools: seq<string>)
    requires Tidy(b) && (forall t | t in added :: t in tools && !Conflicts(b.registry, t))
    ensures var created := set t | t in added && t !in b.aliases;
            RolledBackRegistry(Entered(b.registry, b.aliases, added), CountedUp(b.aliases, added), created, tools) ==
              b.registry
  {
    var created := Created(b.aliases, added);
    var up := CountedUp(b.aliases, added);
    var back := RolledBackRegistry(Entered(b.registry, b.aliases, added), up, created, tools);
    forall a
      ensures a in back <==> a in b.registry
      ensures a in b.registry ==> back[a] == b.registry[a]
    {
      if a in created { assert a !in b.registry && up[a] == 1; }
    }
  }

  /** One reference taken away from every counted alias of `later`. */
  function TakenFrom(aliases: map<string, nat>, later: seq<string>): map<string, nat> {
    map a | a in aliases :: if a in later && aliases[a] > 0 then aliases[a] - 1 else aliases[a]
  }

  lemma SplitAt(tools: seq<string>, c: nat, a: string)
    requires Distinct(tools) && c < |tools| && a != tools[c]
    ensures a in tools && a !in tools[..c] <==> a in tools[c + 1..]
  {
    assert tools == tools[..c] + [tools[c]] + tools[c + 1..];
    if a in tools[c + 1..] {
      var i :| 0 <= i < |tools[c + 1..]| && tools[c + 1..][i] == a;
      assert tools[c + 1 + i] == a;
    }
  }

  lemma RolledBackIsTaken(before: map<string, nat>, tools: seq<string>, c: nat)
    requires Distinct(tools) && c < |tools| && tools[c] !in before
    requires forall a | a in before :: before[a] > 0
    ensures var added := tools[..c];
            RolledBackAliases(CountedUp(before, added), Created(before, added), tools) ==
              TakenFrom(before, tools[c + 1..])
  {
    var added := tools[..c];
    RolledBackCounts(before, added, tools);
    forall a | a in before
      ensures TakenFrom(before, tools[c + 1..])[a] == before[a] - if a in tools && a !in added then 1 else 0
    {
      SplitAt(tools, c, a);
    }
  }

  lemma RolledBackAt(b: Bridge, tools: seq<string>, c: nat)
    requires Tidy(b) && Distinct(tools)
    requires c < |tools| && tools[c] !in b.aliases
    requires forall i | 0 <= i < c :: !Conflicts(b.registry, tools[i])
    ensures RolledBack(b, tools[..c], tools) == b.(aliases := TakenFrom(b.aliases, tools[c + 1..]))
  {
    forall t | t in tools[..c]
      ensures t in tools && !Conflicts(b.registry, t)
    {
      var i :| 0 <= i < c && tools[i] == t;
    }
    RolledBackEntries(b, tools[..c], tools);
    RolledBackIsTaken(b.aliases, tools, c);
  }

  lemma NothingTakenIff(aliases: map<string, nat>, later: seq<string>)
    requires forall a | a in aliases :: aliases[a] > 0
    ensures TakenFrom(aliases, later) == aliases <==> forall t | t in later :: t !in aliases
  {
    if t :| t in later && t in aliases {
      assert TakenFrom(aliases, later)[t] != aliases[t];
    } else {
      assert TakenFrom(aliases, later) == aliases;
    }
  }

  lemma ConflictRollsBack(b: Bridge, handle: nat, runId: string, sessionId: string, tools: seq<string>)
    requires Register(b, handle, runId, sessionId, tools).0.AliasConflict?
    ensures var c := FirstConflict(b.registry, tools);
            c < |tools| && Conflicts(b.registry, tools[c])
            && Register(b, handle, runId, sessionId, tools).1 == RolledBack(b, tools[..c], tools)
  {
  }

  lemma HeldIffCounted(b: Bridge, tools: seq<string>)
    requires Sound(b)
    ensures (forall t | t in tools :: Holders(b, t) == {}) <==> (forall t | t in tools :: t !in b.aliases)
  {
    forall t | t in tools
      ensures Holders(b, t) == {} <==> t !in b.aliases
    {
      assert Count(b.aliases, t) == |Holders(b, t)|;
    }
  }

  /** The rollback after tool `c` could not be entered, because its name is taken or because the registry raised:
      it restores the bridge exactly when no later tool is counted. */
  lemma RolledBackRestoresIff(b: Bridge, tools: seq<string>, c: nat)
    requires Tidy(b) && Distinct(tools)
    requires c < |tools| && tools[c] !in b.aliases
    requires forall i | 0 <= i < c :: !Conflicts(b.registry, tools[i])
    ensures RolledBack(b, tools[..c], tools) == b <==> forall t | t in tools[c + 1..] :: t !in b.aliases
  {
    RolledBackAt(b, tools, c);
    NothingTakenIff(b.aliases, tools[c + 1..]);
  }

  /** The rollback after a name conflict restores the bridge exactly when no tool listed after the
      conflicting one is held by an active run. Otherwise it takes a reference from each such tool. */
  lemma RollbackRestoresIff(b: Bridge, handle: nat, runId: string, sessionId: string, tools: seq<string>)
    requires Sound(b) && Distinct(tools)
    requires Register(b, handle, runId, sessionId, tools).0.AliasConflict?
    ensures var c := FirstConflict(b.registry, tools);
            c < |tools| &&
            var after := Register(b, handle, runId, sessionId, tools).1;
            && (after == b <==> forall t | t in tools[c + 1..] :: Holders(b, t) == {})
            && after == b.(aliases := TakenFrom(b.aliases, tools[c + 1..]))
  {
    var c := FirstConflict(b.registry, tools);
    ConflictRollsBack(b, handle, runId, sessionId, tools);
    HeldIffCounted(b, tools[c + 1..]);
    RolledBackAt(b, tools, c);
    RolledBackRestoresIff(b, tools, c);
  }

  /** What a registration leaves behind when the renewal thread cannot be started: both keys are bound by then, and
      the rollback takes back the tools only. */
  function Unrenewed(b: Bridge, handle: nat, runId: string, sessionId: string, tools: seq<string>): Bridge {
    RolledBack(b, tools, tools).(bindings := b.bindings[runId := handle][sessionId := handle],
                                 objects := b.objects[handle := RunBinding(runId, sessionId, tools, true)])
  }

  lemma UnrenewedIsBound(b: Bridge, handle: nat, runId: string, sessionId: string, tools: seq<string>)
    requires Tidy(b) && Register(b, handle, runId, sessionId, tools).0 == Registered
    ensures Unrenewed(b, handle, runId, sessionId, tools)
         == b.(bindings := b.bindings[runId := handle][sessionId := handle],
               objects := b.objects[handle := RunBinding(runId, sessionId, tools, true)])
  {
    RegisteredWithoutConflict(b, handle, runId, sessionId, tools);
    RolledBackEntries(b, tools, tools);
    RolledBackCounts(b.aliases, tools, tools);
    assert RolledBackAliases(CountedUp(b.aliases, tools), Created(b.aliases, tools), tools) == b.aliases;
  }

  lemma UncountedHolder(b: Bridge, after: Bridge, handle: nat, o: RunBinding, a: string)
    requires Sound(b) && handle !in b.objects && o.runId !in b.bindings && o.sessionId !in b.bindings && a in o.tools
    requires after == b.(bindings := b.bindings[o.runId := handle][o.sessionId := handle],
                         objects := b.objects[handle := o])
    ensures Holds(after, o.runId, a) && Count(after.aliases, a) == |Holders(after, a)| - 1
  {
    NewHolder(b, after, handle, o, a);
    assert Count(b.aliases, a) == |Holders(b, a)|;
  }

  /** Counts and registry are restored, but the run stays bound with tools that are not counted for it, and nobody
      can register it again. */
  lemma FailedRenewerLeavesRunBound(b: Bridge, handle: nat, runId: string, sessionId: string, tools: seq<string>)
    requires Sound(b) && handle !in b.objects && Distinct(tools)
    requires Register(b, handle, runId, sessionId, tools).0 == Registered
    ensures var after := Unrenewed(b, handle, runId, sessionId, tools);
            && after.aliases == b.aliases && after.registry == b.registry
            && (forall a | a in tools :: Holds(after, runId, a) && Count(after.aliases, a) == |Holders(after, a)| - 1)
            && !Sound(after)
            && forall other :: Register(after, other, runId, sessionId, tools) == (IdentityActive, after)
  {
    var after := Unrenewed(b, handle, runId, sessionId, tools);
    RegisteredObject(b, handle, runId, sessionId, tools);
    UnrenewedIsBound(b, handle, runId, sessionId, tools);
    forall a | a in tools
      ensures Holds(after, runId, a) && Count(after.aliases, a) == |Holders(after, a)| - 1
    {
      UncountedHolder(b, after, handle, RunBinding(runId, sessionId, tools, true), a);
    }
    assert tools[0] in tools && Count(after.aliases, tools[0]) != |Holders(after, tools[0])|;
  }

  const WEB := Foreign("hermes")

  /** A host with one tool of its own, before and after a run took "x". */
  function Fresh(): Bridge {
    Bridge(map[], map[], map[], map["web" := WEB])
  }

  function OneRun(): Bridge {
    Bridge(map["a" := 0], map[0 := RunBinding("a", "a", ["x"], true)], map["x" := 1],
           map["web" := WEB, "x" := Platform])
  }

  lemma OneRunIsReached()
    ensures Sound(Fresh()) && Register(Fresh(), 0, "a", "a", ["x"]) == (Registered, OneRun()) && Sound(OneRun())
  {
    var b := Fresh();
    assert FirstConflict(b.registry, ["x"]) == 1 by { assert ["x"][1..] == []; }
    assert ["x"][..1] == ["x"];
    assert CountedUp(b.aliases, ["x"]) == map["x" := 1];
    assert Entered(b.registry, b.aliases, ["x"]) == map["web" := WEB, "x" := Platform];
    var r := Register(b, 0, "a", "a", ["x"]);
    assert r.0 == Registered;
    RegisteredObject(b, 0, "a", "a", ["x"]);
    assert r.1.bindings == OneRun().bindings && r.1.objects == OneRun().objects;
    assert r.1.aliases == OneRun().aliases && r.1.registry == OneRun().registry;
    RegisterKeepsSound(b, 0, "a", "a", ["x"]);
  }

  /** The failing family is real. From a fresh host run `a` takes "x"; a run asking for a foreign name and then "x"
      is turned away; run `c` takes "x", run `a` ends, and "x" has left the registry although `c` still holds it. */
  lemma RollbackLosesATool()
    ensures var one := Register(Fresh(), 0, "a", "a", ["x"]);
            var two := Register(one.1, 1, "b", "b", ["web", "x"]);
            var three := Register(two.1, 2, "c", "c", ["x"]);
            var last := Unregister(three.1, "a");
            && Sound(Fresh()) && one.0 == Registered && two.0 == AliasConflict("web") && two.1 != one.1
            && three.0 == Registered && Holds(last, "c", "x") && "x" !in last.registry
  {
    OneRunIsReached();
    FirstRefusal(OneRun());
    ToolIsLost(OneRun().(aliases := map["x" := 0]));
    assert OneRun().aliases["x"] == 1;
  }

  lemma ToolIsLost(two: Bridge)
    requires two == OneRun().(aliases := map["x" := 0])
    ensures var three := Register(two, 2, "c", "c", ["x"]);
            var last := Unregister(three.1, "a");
            three.0 == Registered && Holds(last, "c", "x") && "x" !in last.registry
  {
    assert FirstConflict(two.registry, ["x"]) == 1 by { assert ["x"][1..] == []; }
    assert ["x"][..1] == ["x"];
    var three := Register(two, 2, "c", "c", ["x"]).1;
    assert three.bindings["c"] == 2 && three.bindings["a"] == 0;
    assert three.aliases["x"] == 1;
  }

  lemma FirstRefusal(one: Bridge)
    requires one.bindings.Keys == {"a"} && one.aliases == map["x" := 1]
    requires one.registry == map["web" := Foreign("hermes"), "x" := Platform]
    ensures Register(one, 1, "b", "b", ["web", "x"]) == (AliasConflict("web"), one.(aliases := map["x" := 0]))
  {
    assert FirstConflict(one.registry, ["web", "x"]) == 0;
    assert ["web", "x"][..0] == [];
    assert CountedUp(one.aliases, []) == one.aliases;
    assert Created(one.aliases, []) == {};
    assert RolledBackAliases(one.aliases, {}, ["web", "x"]) == map["x" := 0];
    assert RolledBackRegistry(one.registry, one.aliases, {}, ["web", "x"]) == one.registry;
    assert Entered(one.registry, one.aliases, []) == one.registry;
  }

  /** Unregistering by the session id of a run leaves its run id occupied by a dead binding, so the run cannot
      be registered again before its run id is unregistered as well. */
  lemma UnregisterBySessionLeavesRunKey(b: Bridge, handle: nat, runId: string, sessionId: string, tools: seq<string>)
    requires Sound(b) && sessionId in b.bindings && tools != []
    requires b.objects[b.bindings[sessionId]] ==
             RunBinding(runId, sessionId, b.objects[b.bindings[sessionId]].tools, true)
    requires runId != sessionId
    ensures var after := Unregister(b, sessionId);
            && !Sound(after)
            && runId in after.bindings && !after.objects[after.bindings[runId]].active
            && Register(after, handle, runId, sessionId, tools).0 == IdentityActive
            && Observable(Unregister(after, runId)) == Observable(Unregister(b, runId))
  {
    var after := Unregister(b, sessionId);
    assert OwnBinding(b, sessionId);
    assert runId in after.bindings;
    assert !OwnBinding(after, runId);
    var twice := Unregister(after, runId);
    assert twice.bindings == Unregister(b, runId).bindings;
    assert twice.aliases == Unregister(b, runId).aliases;
    assert twice.registry == Unregister(b, runId).registry;
  }

  /* Whole histories. */

  datatype Call =
    | Start(handle: nat, runId: string, sessionId: string, tools: seq<string>)
    | End(runId: string)

  function Apply(b: Bridge, call: Call): Bridge {
    match call
    case Start(handle, runId, sessionId, tools) => Register(b, handle, runId, sessionId, tools).1
    case End(runId) => Unregister(b, runId)
  }

  /** A start uses a new object, and when it hits a name conflict no tool after the conflicting one is held; an end
      names a run. */
  predicate Regular(b: Bridge, call: Call) {
    match call
    case Start(handle, runId, sessionId, tools) =>
      && handle !in b.objects && Distinct(tools)
      && (Register(b, handle, runId, sessionId, tools).0.AliasConflict? ==>
            var c := FirstConflict(b.registry, tools);
            c < |tools| && forall t | t in tools[c + 1..] :: Holders(b, t) == {})
    case End(runId) =>
      runId in b.bindings && b.bindings[runId] in b.objects ==> b.objects[b.bindings[runId]].runId == runId
  }

  predicate RegularHistory(b: Bridge, calls: seq<Call>)
    decreases |calls|
  {
    calls == [] || (Regular(b, calls[0]) && RegularHistory(Apply(b, calls[0]), calls[1..]))
  }

  function ApplyAll(b: Bridge, calls: seq<Call>): Bridge
    decreases |calls|
  {
    if calls == [] then b else ApplyAll(Apply(b, calls[0]), calls[1..])
  }

  /** The tools of the host itself. */
  function ForeignTools(registry: map<string, Toolset>): map<string, Toolset> {
    map a | a in registry && registry[a] != Platform :: registry[a]
  }

  lemma UnknownEndsNothing(b: Bridge, key: string)
    requires Sound(b)
    ensures key !in b.bindings <==> Unregister(b, key) == b
  {
    if key in b.bindings { assert OwnBinding(b, key) && key !in Unregister(b, key).bindings; }
  }

  /** A run that ends takes its own keys and tools with it and nothing else: every other run keeps its keys, its
      binding and its tools. */
  lemma EndIsIsolated(b: Bridge, runId: string, other: string)
    requires Sound(b) && runId in b.bindings && b.objects[b.bindings[runId]].runId == runId
    requires other in b.bindings && b.bindings[other] != b.bindings[runId]
    ensures var after := Unregister(b, runId);
            && other in after.bindings && after.bindings[other] == b.bindings[other]
            && after.objects[after.bindings[other]] == b.objects[b.bindings[other]]
            && forall a | a in b.objects[b.bindings[other]].tools ::
                 a in after.registry && after.registry[a] == Platform
  {
    var after := Unregister(b, runId);
    UnregisterKeepsSound(b, runId);
    assert OwnBinding(b, runId) && OwnBinding(b, other) && OwnBinding(after, other);
    var owner := b.objects[b.bindings[other]].runId;
    assert OwnBinding(b, owner);
    forall a | a in b.objects[b.bindings[other]].tools
      ensures a in after.registry && after.registry[a] == Platform
    {
      assert owner in Holders(after, a);
      assert Count(after.aliases, a) == |Holders(after, a)|;
    }
  }

  lemma StartKeepsForeign(b: Bridge, handle: nat, runId: string, sessionId: string, tools: seq<string>)
    requires Sound(b) && Regular(b, Start(handle, runId, sessionId, tools))
    ensures ForeignTools(Register(b, handle, runId, sessionId, tools).1.registry) == ForeignTools(b.registry)
  {
    var outcome := Register(b, handle, runId, sessionId, tools).0;
    if outcome == Registered {
      RegisteredWithoutConflict(b, handle, runId, sessionId, tools);
    } else if outcome.AliasConflict? {
      RollbackRestoresIff(b, handle, runId, sessionId, tools);
    }
  }

  lemma EndKeepsForeign(b: Bridge, runId: string)
    requires Sound(b) && Regular(b, End(runId))
    ensures ForeignTools(Unregister(b, runId).registry) == ForeignTools(b.registry)
  {
    if runId in b.bindings {
      assert OwnBinding(b, runId);
      forall a | a in b.objects[b.bindings[runId]].tools
        ensures a in b.registry && b.registry[a] == Platform
      {
        assert runId in Holders(b, a) && Count(b.aliases, a) == |Holders(b, a)|;
      }
    }
  }

  lemma CallKeepsForeign(b: Bridge, call: Call)
    requires Sound(b) && Regular(b, call)
    ensures ForeignTools(Apply(b, call).registry) == ForeignTools(b.registry)
  {
    match call
    case Start(handle, runId, sessionId, tools) => StartKeepsForeign(b, handle, runId, sessionId, tools);
    case End(runId) => EndKeepsForeign(b, runId);
  }

  /** No history of runs touches the tools of the host itself. */
  lemma {:induction false} ForeignToolsStay(b: Bridge, calls: seq<Call>)
    requires Sound(b) && RegularHistory(b, calls)
    ensures ForeignTools(ApplyAll(b, calls).registry) == ForeignTools(b.registry)
    decreases |calls|
  {
    if calls == [] {
    } else {
      CallKeepsForeign(b, calls[0]);
      CallKeepsSound(b, calls[0]);
      ForeignToolsStay(Apply(b, calls[0]), calls[1..]);
    }
  }

  lemma CallKeepsSound(b: Bridge, call: Call)
    requires Sound(b) && Regular(b, call)
    ensures Sound(Apply(b, call))
  {
    match call
    case Start(handle, runId, sessionId, tools) => StartKeepsSound(b, handle, runId, sessionId, tools);
    case End(runId) =>
      if runId in b.bindings { assert OwnBinding(b, runId); }
      UnregisterKeepsSound(b, runId);
  }

  lemma StartKeepsSound(b: Bridge, handle: nat, runId: string, sessionId: string, tools: seq<string>)
    requires Sound(b) && Regular(b, Start(handle, runId, sessionId, tools))
    ensures Sound(Register(b, handle, runId, sessionId, tools).1)
  {
    if Register(b, handle, runId, sessionId, tools).0.AliasConflict? {
      RollbackRestoresIff(b, handle, runId, sessionId, tools);
    } else {
      RegisterKeepsSound(b, handle, runId, sessionId, tools);
    }
  }

  /** Over every interleaving of regular starts and ends, each alias is counted once per active run that holds
      it and is in the registry exactly while that count is positive. */
  lemma {:induction false} ReferenceCountsAgree(b: Bridge, calls: seq<Call>, a: string)
    requires Sound(b) && RegularHistory(b, calls)
    ensures Sound(ApplyAll(b, calls))
    ensures var last := ApplyAll(b, calls);
            && Count(last.aliases, a) == |Holders(last, a)|
            && (a in last.registry && last.registry[a] == Platform <==> Holders(last, a) != {})
    decreases |calls|
  {
    if calls == [] {
      assert Count(b.aliases, a) == |Holders(b, a)|;
    } else {
      CallKeepsSound(b, calls[0]);
      ReferenceCountsAgree(Apply(b, calls[0]), calls[1..], a);
    }
  }
}
