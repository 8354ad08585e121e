/** The capability bridge as it runs: shared dictionaries updated in place, alias by alias, under one lock. */
module CapabilityHost {
  import opened CapabilityBridge

  /** The keys of the dictionary built from the listed tools: each name once, where it first occurs. */
  function ToolNames(items: seq<string>): (tools: seq<string>)
    ensures Distinct(tools)
    ensures forall t :: t in tools <==> t in items
  {
    if items == [] then []
    else
      var earlier := ToolNames(items[..|items| - 1]);
      var last := items[|items| - 1];
      assert items == items[..|items| - 1] + [last];
      if last in earlier then earlier else earlier + [last]
  }

  /** The names stand in the order in which they first occur. */
  lemma {:induction false} ToolNamesInOrder(items: seq<string>, i: nat, j: nat)
    requires i < j < |ToolNames(items)|
    ensures exists k :: 0 <= k < |items| && items[k] == ToolNames(items)[i] && ToolNames(items)[j] !in items[..k + 1]
  {
    var n := |items| - 1;
    var earlier := ToolNames(items[..n]);
    if j < |earlier| {
      ToolNamesInOrder(items[..n], i, j);
      var k :| 0 <= k < n && items[..n][k] == earlier[i] && earlier[j] !in items[..n][..k + 1];
      assert items[..n][..k + 1] == items[..k + 1];
    } else {
      assert earlier[i] in items[..n];
      var k :| 0 <= k < n && items[k] == earlier[i];
      assert forall t | t in items[..k + 1] :: t in items[..n];
    }
  }

  lemma PrefixGrows(tools: seq<string>, i: nat)
    requires i < |tools|
    ensures forall t :: t in tools[..i + 1] <==> t in tools[..i] || t == tools[i]
    ensures Distinct(tools) ==> tools[i] !in tools[..i]
  {
    assert tools[..i + 1] == tools[..i] + [tools[i]];
  }

  lemma CountedUpMembers(before: map<string, nat>, tools: seq<string>, i: nat)
    requires Distinct(tools) && i < |tools|
    ensures tools[i] in CountedUp(before, tools[..i]) <==> tools[i] in before
    ensures CountedUp(before, tools[..i + 1]).Keys == CountedUp(before, tools[..i]).Keys + {tools[i]}
  {
    PrefixGrows(tools, i);
  }

  lemma CountedUpValue(before: map<string, nat>, tools: seq<string>, i: nat, a: string)
    requires Distinct(tools) && i < |tools| && a in CountedUp(before, tools[..i + 1])
    ensures CountedUp(before, tools[..i + 1])[a] == CountedOnce(CountedUp(before, tools[..i]), tools[i])[a]
  {
    PrefixGrows(tools, i);
  }

  lemma CountedUpStep(before: map<string, nat>, tools: seq<string>, i: nat)
    requires Distinct(tools) && i < |tools|
    ensures tools[i] in CountedUp(before, tools[..i]) <==> tools[i] in before
    ensures CountedUp(before, tools[..i + 1]) == CountedOnce(CountedUp(before, tools[..i]), tools[i])
  {
    CountedUpMembers(before, tools, i);
    forall a | a in CountedUp(before, tools[..i + 1])
      ensures CountedUp(before, tools[..i + 1])[a] == CountedOnce(CountedUp(before, tools[..i]), tools[i])[a]
    {
      CountedUpValue(before, tools, i, a);
    }
  }

  lemma EnteredStep(registry: map<string, Toolset>, before: map<string, nat>, tools: seq<string>, i: nat)
    requires i < |tools|
    ensures var now := Entered(registry, before, tools[..i]);
            Entered(registry, before, tools[..i + 1]) == if tools[i] in before then now else now[tools[i] := Platform]
  {
    CreatedStep(before, tools, i);
  }

  lemma NotYetEntered(registry: map<string, Toolset>, before: map<string, nat>, tools: seq<string>, i: nat)
    requires Distinct(tools) && i < |tools|
    ensures Conflicts(Entered(registry, before, tools[..i]), tools[i]) == Conflicts(registry, tools[i])
  {
    PrefixGrows(tools, i);
  }

  lemma CreatedStep(before: map<string, nat>, tools: seq<string>, i: nat)
    requires i < |tools|
    ensures Created(before, tools[..i + 1]) ==
            Created(before, tools[..i]) + if tools[i] in before then {} else {tools[i]}
  {
    PrefixGrows(tools, i);
  }

  /** The dictionaries after the first `i` tools were entered and counted. */
  ghost predicate CountedTo(before: Bridge, tools: seq<string>, i: nat,
                            aliases: map<string, nat>, registry: map<string, Toolset>, created: set<string>)
  {
    && i <= |tools|
    && aliases == CountedUp(before.aliases, tools[..i])
    && registry == Entered(before.registry, before.aliases, tools[..i])
    && created == Created(before.aliases, tools[..i])
    && forall j | 0 <= j < i :: !Conflicts(before.registry, tools[j])
  }

  /** One more reference to the alias. */
  function CountedOnce(aliases: map<string, nat>, a: string): map<string, nat> {
    aliases[a := Count(aliases, a) + 1]
  }

  lemma CountStep(before: Bridge, tools: seq<string>, i: nat,
                  aliases: map<string, nat>, registry: map<string, Toolset>, created: set<string>)
    requires Distinct(tools) && i < |tools| && CountedTo(before, tools, i, aliases, registry, created)
    requires !Conflicts(registry, tools[i])
    ensures var a := tools[i];
            CountedTo(before, tools, i + 1, CountedOnce(aliases, a),
                      if a in aliases then registry else registry[a := Platform],
                      if a in aliases then created else created + {a})
  {
    CountedUpStep(before.aliases, tools, i);
    NotYetEntered(before.registry, before.aliases, tools, i);
    EnteredStep(before.registry, before.aliases, tools, i);
    CreatedStep(before.aliases, tools, i);
  }

  lemma CountingStops(before: Bridge, tools: seq<string>, i: nat,
                      aliases: map<string, nat>, registry: map<string, Toolset>, created: set<string>)
    requires Distinct(tools) && CountedTo(before, tools, i, aliases, registry, created)
    requires i < |tools| ==> Conflicts(registry, tools[i])
    ensures i == FirstConflict(before.registry, tools)
  {
    if i < |tools| { NotYetEntered(before.registry, before.aliases, tools, i); }
  }

  lemma RolledBackStep(up: map<string, nat>, registry: map<string, Toolset>, created: set<string>, tools: seq<string>,
                       i: nat)
    requires Distinct(tools) && i < |tools|
    ensures var now := RolledBackAliases(up, created, tools[..i]);
            var a := tools[i];
            var less := if a in now && now[a] > 0 then now[a := now[a] - 1] else now;
            var entries := RolledBackRegistry(registry, up, created, tools[..i]);
            var drop := a in created && a in less && less[a] == 0;
            && RolledBackAliases(up, created, tools[..i + 1]) == (if drop then less - {a} else less)
            && RolledBackRegistry(registry, up, created, tools[..i + 1]) == (if drop then entries - {a} else entries)
  {
    PrefixGrows(tools, i);
    var now := RolledBackAliases(up, created, tools[..i]);
    assert tools[i] in now <==> tools[i] in up;
    assert tools[i] in up ==> now[tools[i]] == up[tools[i]];
  }

  lemma CountedDownStep(before: map<string, nat>, registry: map<string, Toolset>, tools: seq<string>, i: nat)
    requires Distinct(tools) && i < |tools|
    ensures var now := CountedDown(before, tools[..i]);
            var entries := LeftEntered(registry, before, tools[..i]);
            var a := tools[i];
            && CountedDown(before, tools[..i + 1]) == (if Count(now, a) <= 1 then now - {a} else now[a := now[a] - 1])
            && LeftEntered(registry, before, tools[..i + 1]) == (if Count(now, a) <= 1 then entries - {a} else entries)
  {
    PrefixGrows(tools, i);
    assert Count(CountedDown(before, tools[..i]), tools[i]) == Count(before, tools[i]);
  }

  lemma RegisteredIff(b: Bridge, handle: nat, runId: string, sessionId: string, items: seq<string>)
    ensures Register(b, handle, runId, sessionId, ToolNames(items)).0 == Registered <==>
            items != [] && runId !in b.bindings && sessionId !in b.bindings && NamesFree(b.registry, items)
  {
    RegistrationOutcome(b, handle, runId, sessionId, ToolNames(items));
    if items != [] { assert items[0] in ToolNames(items); }
  }

  class Host {
    var bindings: map<string, nat>
    var objects: map<nat, RunBinding>
    var aliases: map<string, nat>
    var registry: map<string, Toolset>

    ghost function State(): Bridge
      reads this
    {
      Bridge(bindings, objects, aliases, registry)
    }

    /** The tools of a binding are the keys of a dictionary. */
    ghost predicate Valid()
      reads this
    {
      && (forall k | k in bindings :: bindings[k] in objects)
      && (forall h | h in objects :: Distinct(objects[h].tools))
    }

    constructor (tools: map<string, Toolset>)
      ensures Valid() && State() == Bridge(map[], map[], map[], tools)
      ensures (forall name | name in tools :: tools[name] != Platform) ==> Sound(State())
    {
      bindings, objects, aliases, registry := map[], map[], map[], tools;
      new;
      assert forall a :: Holders(State(), a) == {};
    }

    method RegisterRun(handle: nat, runId: string, sessionId: string, items: seq<string>) returns (outcome: Outcome)
      requires Valid() && handle !in objects
      modifies this
      ensures Valid()
      ensures (outcome, State()) == Register(old(State()), handle, runId, sessionId, ToolNames(items))
      ensures outcome == Registered <==>
              items != [] && runId !in old(bindings) && sessionId !in old(bindings) && NamesFree(old(registry), items)
    {
      RegisteredIff(State(), handle, runId, sessionId, items);
      if items == [] {
        return NothingToRegister;
      }
      var tools := ToolNames(items);
      assert items[0] in tools;
      outcome := RegisterLocked(handle, runId, sessionId, tools);
    }

    /** The part under the lock: the identity, the tools one by one, and then both keys or the rollback. */
    method RegisterLocked(handle: nat, runId: string, sessionId: string, tools: seq<string>) returns (outcome: Outcome)
      requires Valid() && handle !in objects && Distinct(tools) && tools != []
      modifies this
      ensures Valid()
      ensures (outcome, State()) == Register(old(State()), handle, runId, sessionId, tools)
    {
      if runId in bindings || (sessionId != runId && sessionId in bindings) {
        return IdentityActive;
      }
      var created, i := CountUp(tools);
      if i < |tools| {
        outcome := AliasConflict(tools[i]);
        Rollback(created, tools);
      } else {
        bindings := bindings[runId := handle][sessionId := handle];
        objects := objects[handle := RunBinding(runId, sessionId, tools, true)];
        outcome := Registered;
      }
    }

    /** Enters and counts the tools in order, up to the first whose name is taken by a foreign tool. */
    method CountUp(tools: seq<string>) returns (created: set<string>, i: nat)
      requires Distinct(tools)
      modifies `aliases, `registry
      ensures i == FirstConflict(old(registry), tools)
      ensures CountedTo(old(State()), tools, i, aliases, registry, created)
    {
      created, i := {}, 0;
      ghost var before := State();
      while i < |tools| && !(tools[i] in registry && registry[tools[i]] != Platform)
        invariant CountedTo(before, tools, i, aliases, registry, created)
      {
        ghost var counted, entered, known := aliases, registry, created;
        created := CountOne(tools[i], created);
        CountStep(before, tools, i, counted, entered, known);
        i := i + 1;
      }
      CountingStops(before, tools, i, aliases, registry, created);
    }

    method CountOne(alias: string, created: set<string>) returns (more: set<string>)
      modifies `aliases, `registry
      ensures aliases == CountedOnce(old(aliases), alias)
      ensures registry == if alias in old(aliases) then old(registry) else old(registry)[alias := Platform]
      ensures more == if alias in old(aliases) then created else created + {alias}
    {
      more := created;
      if alias !in aliases {
        registry := registry[alias := Platform];
        aliases := aliases[alias := 0];
        more := created + {alias};
      }
      aliases := aliases[alias := aliases[alias] + 1];
    }

    method Rollback(created: set<string>, tools: seq<string>)
      requires Distinct(tools)
      modifies `aliases, `registry
      ensures aliases == RolledBackAliases(old(aliases), created, tools)
      ensures registry == RolledBackRegistry(old(registry), old(aliases), created, tools)
    {
      for i := 0 to |tools|
        invariant aliases == RolledBackAliases(old(aliases), created, tools[..i])
        invariant registry == RolledBackRegistry(old(registry), old(aliases), created, tools[..i])
      {
        var alias := tools[i];
        RolledBackStep(old(aliases), old(registry), created, tools, i);
        if alias in aliases && aliases[alias] > 0 {
          aliases := aliases[alias := aliases[alias] - 1];
        }
        if alias in created && alias in aliases && aliases[alias] == 0 {
          aliases := aliases - {alias};
          registry := registry - {alias};
        }
      }
      assert tools[..|tools|] == tools;
    }

    method UnregisterRun(key: string)
      requires Valid()
      modifies this
      ensures Valid()
      ensures State() == Unregister(old(State()), key)
    {
      if key !in bindings {
        return;
      }
      var handle := bindings[key];
      var binding := objects[handle];
      bindings := bindings - {key};
      if binding.sessionId != key && binding.sessionId in bindings && bindings[binding.sessionId] == handle {
        bindings := bindings - {binding.sessionId};
      }
      Release(binding.tools);
      objects := objects[handle := binding.(active := false, tools := [])];
    }

    /** Gives up one reference to each tool; a tool without references leaves the registry. */
    method Release(tools: seq<string>)
      requires Distinct(tools)
      modifies `aliases, `registry
      ensures aliases == CountedDown(old(aliases), tools)
      ensures registry == LeftEntered(old(registry), old(aliases), tools)
    {
      for i := 0 to |tools|
        invariant aliases == CountedDown(old(aliases), tools[..i])
        invariant registry == LeftEntered(old(registry), old(aliases), tools[..i])
      {
        var alias := tools[i];
        CountedDownStep(old(aliases), old(registry), tools, i);
        var remaining := Count(aliases, alias) - 1;
        if remaining <= 0 {
          aliases := aliases - {alias};
          registry := registry - {alias};
        } else {
          aliases := aliases[alias := remaining];
        }
      }
      assert tools[..|tools|] == tools;
    }

    /** The guard of the tool handler: the binding behind the task id, or failing that the session id, must be
        active and hold the tool. */
    method Dispatch(taskId: string, sessionId: string, alias: string) returns (allowed: bool)
      requires Valid()
      ensures allowed == Authorized(State(), taskId, sessionId, alias)
      ensures Sound(State()) ==>
                var key := KeyOf(State(), taskId, sessionId);
                allowed <==> key in bindings && Holds(State(), objects[bindings[key]].runId, alias)
    {
      var key := if taskId in bindings then taskId else sessionId;
      if Sound(State()) { AuthorizedIffHeld(State(), taskId, sessionId, alias); }
      if key !in bindings {
        return false;
      }
      var binding := objects[bindings[key]];
      allowed := binding.active && alias in binding.tools;
    }
  }
}
