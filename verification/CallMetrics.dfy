/** Public calls: the audit log, the running totals per agent and day, and the figures read from them. */
module CallMetrics {
  import opened Options

  datatype CallStatus = Succeeded | Failed | Rejected

  /** One audit row, with the day its call was counted on. */
  datatype Entry = Entry(requestId: string, agent: Option<string>, day: int, status: CallStatus,
                         latency: nat, tokens: Option<nat>, mcpCalls: nat)

  /** One row of totals. */
  datatype Totals = Totals(calls: nat, successes: nat, failures: nat, latency: nat, tokens: nat, observed: nat,
                           mcpCalls: nat)

  type Key = (string, int)

  datatype Ledger = Ledger(log: seq<Entry>, rows: map<Key, Totals>, publications: map<string, nat>)

  datatype CallError = RequestSeen | NegativeTokens | NotASuccess

  datatype Outcome = Recorded(ledger: Ledger) | Refused(error: CallError)

  function Zero(): Totals {
    Totals(0, 0, 0, 0, 0, 0, 0)
  }

  function Plus(a: Totals, b: Totals): Totals {
    Totals(a.calls + b.calls, a.successes + b.successes, a.failures + b.failures, a.latency + b.latency,
           a.tokens + b.tokens, a.observed + b.observed, a.mcpCalls + b.mcpCalls)
  }

  /** What one call adds. */
  function Of(e: Entry): Totals {
    var success := if e.status == Succeeded then 1 else 0;
    Totals(1, success, 1 - success, e.latency,
           if e.tokens.Some? then e.tokens.value else 0, if e.tokens.Some? then 1 else 0, e.mcpCalls)
  }

  function NonNegative(n: int): nat {
    if n > 0 then n else 0
  }

  function KeyOf(e: Entry): Option<Key> {
    if e.agent.Some? then Some((e.agent.value, e.day)) else None
  }

  function Counted(rows: map<Key, Totals>, e: Entry): map<Key, Totals> {
    if e.agent.None? then rows
    else
      var key := (e.agent.value, e.day);
      rows[key := if key in rows then Plus(rows[key], Of(e)) else Of(e)]
  }

  /** The audit row of a call; negative latencies and call counts are stored as zero. */
  function EntryOf(requestId: string, agent: Option<string>, day: int, status: CallStatus, latency: int,
                   tokens: Option<nat>, mcpCalls: int): Entry {
    Entry(requestId, agent, day, status, NonNegative(latency), tokens, NonNegative(mcpCalls))
  }

  predicate Seen(log: seq<Entry>, requestId: string) {
    exists i | 0 <= i < |log| :: log[i].requestId == requestId
  }

  function Record(l: Ledger, requestId: string, agent: Option<string>, day: int, status: CallStatus,
                  latency: int, tokens: Option<int>, mcpCalls: int, increment: bool): Outcome
  {
    if Seen(l.log, requestId) then Refused(RequestSeen)
    else if tokens.Some? && tokens.value < 0 then Refused(NegativeTokens)
    else if increment && (status != Succeeded || agent.None?) then Refused(NotASuccess)
    else
      var e := EntryOf(requestId, agent, day, status, latency,
                       if tokens.Some? then Some(tokens.value) else None, mcpCalls);
      Recorded(Ledger(l.log + [e], Counted(l.rows, e),
                      if increment && agent.value in l.publications
                      then l.publications[agent.value := l.publications[agent.value] + 1] else l.publications))
  }

  function Unattributed(log: seq<Entry>, agent: string): seq<Entry> {
    seq(|log|, i requires 0 <= i < |log| => if log[i].agent == Some(agent) then log[i].(agent := None) else log[i])
  }

  /** Deleting an agent drops its totals and its publication, and detaches its audit rows. */
  function Deleted(l: Ledger, agent: string): Ledger {
    Ledger(Unattributed(l.log, agent),
           map key | key in l.rows && key.0 != agent :: l.rows[key],
           l.publications - {agent})
  }

  /* Folds of the log. */

  /** The totals of the log entries that satisfy `p`. */
  function Total(log: seq<Entry>, p: Entry -> bool): Totals {
    if log == [] then Zero()
    else
      var e := log[|log| - 1];
      var rest := Total(log[..|log| - 1], p);
      if p(e) then Plus(rest, Of(e)) else rest
  }

  function On(key: Key): Entry -> bool {
    (e: Entry) => KeyOf(e) == Some(key)
  }

  function By(agent: string): Entry -> bool {
    (e: Entry) => e.agent == Some(agent)
  }

  function Attributed(): Entry -> bool {
    (e: Entry) => e.agent.Some?
  }

  lemma {:induction false} SamePredicate(log: seq<Entry>, p: Entry -> bool, q: Entry -> bool)
    requires forall i | 0 <= i < |log| :: p(log[i]) == q(log[i])
    ensures Total(log, p) == Total(log, q)
  {
    if log == [] {
    } else {
      SamePredicate(log[..|log| - 1], p, q);
    }
  }

  lemma TotalOfAppended(log: seq<Entry>, e: Entry, p: Entry -> bool)
    ensures Total(log + [e], p) == if p(e) then Plus(Total(log, p), Of(e)) else Total(log, p)
  {
    assert (log + [e])[..|log|] == log;
  }

  /** The rows hold the totals of the log, key by key, and there is a row exactly where there was a call. */
  ghost predicate Exact(l: Ledger) {
    && (forall key: Key :: key in l.rows <==> Total(l.log, On(key)).calls > 0)
    && (forall key | key in l.rows :: l.rows[key] == Total(l.log, On(key)))
    && (forall i, j | 0 <= i < j < |l.log| :: l.log[i].requestId != l.log[j].requestId)
  }

  lemma NoCallsNothing(log: seq<Entry>, p: Entry -> bool)
    ensures Total(log, p).calls == 0 ==> Total(log, p) == Zero()
  {
    if log != [] {
      NoCallsNothing(log[..|log| - 1], p);
    }
  }

  /** Recording a call keeps the rows exact. */
  lemma RecordKeepsExact(l: Ledger, requestId: string, agent: Option<string>, day: int, status: CallStatus,
                         latency: int, tokens: Option<int>, mcpCalls: int, increment: bool)
    requires Exact(l) && Record(l, requestId, agent, day, status, latency, tokens, mcpCalls, increment).Recorded?
    ensures Exact(Record(l, requestId, agent, day, status, latency, tokens, mcpCalls, increment).ledger)
  {
    var after := Record(l, requestId, agent, day, status, latency, tokens, mcpCalls, increment).ledger;
    var e := after.log[|l.log|];
    assert after.log == l.log + [e] && after.rows == Counted(l.rows, e);
    forall key: Key
      ensures key in after.rows <==> Total(after.log, On(key)).calls > 0
      ensures key in after.rows ==> after.rows[key] == Total(after.log, On(key))
    {
      TotalOfAppended(l.log, e, On(key));
      NoCallsNothing(l.log, On(key));
    }
  }

  lemma {:induction false} TotalOfDetached(log: seq<Entry>, agent: string, key: Key)
    ensures Total(Unattributed(log, agent), On(key)) == if key.0 == agent then Zero() else Total(log, On(key))
  {
    if log == [] {
    } else {
      TotalOfDetached(log[..|log| - 1], agent, key);
      assert Unattributed(log, agent)[..|log| - 1] == Unattributed(log[..|log| - 1], agent);
    }
  }

  lemma DeleteKeepsExact(l: Ledger, agent: string)
    requires Exact(l)
    ensures Exact(Deleted(l, agent))
  {
    var after := Deleted(l, agent);
    forall key: Key
      ensures key in after.rows <==> Total(after.log, On(key)).calls > 0
      ensures key in after.rows ==> after.rows[key] == Total(after.log, On(key))
    {
      TotalOfDetached(l.log, agent, key);
    }
  }

  /* Reading the totals. */

  function Sum(rows: map<Key, Totals>, keys: seq<Key>): Totals
    requires forall k | k in keys :: k in rows
  {
    if keys == [] then Zero() else Plus(Sum(rows, keys[..|keys| - 1]), rows[keys[|keys| - 1]])
  }

  predicate NoRepeats<T(==)>(s: seq<T>) {
    forall i, j | 0 <= i < j < |s| :: s[i] != s[j]
  }

  function Among(keys: seq<Key>): Entry -> bool {
    (e: Entry) => KeyOf(e).Some? && KeyOf(e).value in keys
  }

  /** Summing exact rows is totalling the log over the keys that were summed. */
  lemma {:induction false} SumIsTotal(l: Ledger, keys: seq<Key>)
    requires Exact(l) && NoRepeats(keys) && forall k | k in keys :: k in l.rows
    ensures Sum(l.rows, keys) == Total(l.log, Among(keys))
  {
    if keys == [] {
      TotalOfNone(l.log);
    } else {
      var rest, k := keys[..|keys| - 1], keys[|keys| - 1];
      assert keys == rest + [k];
      SumIsTotal(l, rest);
      assert k !in rest;
      forall e | e in l.log
        ensures Among(keys)(e) <==> Among(rest)(e) || On(k)(e)
        ensures !(Among(rest)(e) && On(k)(e))
      {
      }
      DisjointTotals(l.log, Among(rest), On(k), Among(keys));
    }
  }

  lemma {:induction false} TotalOfNone(log: seq<Entry>)
    ensures Total(log, Among([])) == Zero()
  {
    if log == [] {
    } else {
      TotalOfNone(log[..|log| - 1]);
    }
  }

  lemma PlusZero(a: Totals, z: Totals)
    requires z == Zero()
    ensures Plus(a, z) == a
  {
  }

  lemma PlusRearranged(a: Totals, b: Totals, c: Totals)
    ensures Plus(Plus(a, b), c) == Plus(a, Plus(b, c)) == Plus(Plus(a, c), b)
  {
  }

  /** A call added to the right one of two parts, or to neither. */
  lemma PlusOnOneSide(left: bool, right: bool, a: Totals, b: Totals, c: Totals)
    requires !(left && right)
    ensures (if left || right then Plus(Plus(a, b), c) else Plus(a, b))
         == Plus(if left then Plus(a, c) else a, if right then Plus(b, c) else b)
  {
    PlusRearranged(a, b, c);
  }

  lemma TotalUnfolded(log: seq<Entry>, p: Entry -> bool)
    requires log != []
    ensures var rest, e := log[..|log| - 1], log[|log| - 1];
            Total(log, p) == if p(e) then Plus(Total(rest, p), Of(e)) else Total(rest, p)
  {
  }

  /** Totals over disjoint parts of the log add up. */
  lemma {:induction false} DisjointTotals(log: seq<Entry>, p: Entry -> bool, q: Entry -> bool, both: Entry -> bool)
    requires forall e | e in log :: (both(e) <==> p(e) || q(e)) && !(p(e) && q(e))
    ensures Total(log, both) == Plus(Total(log, p), Total(log, q))
  {
    if log == [] {
      PlusZero(Total(log, p), Total(log, q));
    } else {
      var rest, e := log[..|log| - 1], log[|log| - 1];
      assert e in log;
      DisjointTotals(rest, p, q, both);
      TotalUnfolded(log, p);
      TotalUnfolded(log, q);
      TotalUnfolded(log, both);
      PlusOnOneSide(p(e), q(e), Total(rest, p), Total(rest, q), Of(e));
    }
  }

  /** `keys` lists the rows of one agent, each once. */
  ghost predicate ListsAgent(rows: map<Key, Totals>, keys: seq<Key>, agent: string) {
    NoRepeats(keys) && forall k :: k in keys <==> k in rows && k.0 == agent
  }

  ghost predicate ListsAll(rows: map<Key, Totals>, keys: seq<Key>) {
    NoRepeats(keys) && forall k :: k in keys <==> k in rows
  }

  lemma EntryHasRow(l: Ledger, i: nat)
    requires Exact(l) && i < |l.log| && l.log[i].agent.Some?
    ensures KeyOf(l.log[i]).value in l.rows
  {
    var key := KeyOf(l.log[i]).value;
    CallsAtLeastOne(l.log, On(key), i);
  }

  lemma {:induction false} CallsAtLeastOne(log: seq<Entry>, p: Entry -> bool, i: nat)
    requires i < |log| && p(log[i])
    ensures Total(log, p).calls > 0
  {
    if i == |log| - 1 {
    } else {
      CallsAtLeastOne(log[..|log| - 1], p, i);
    }
  }

  /** The figures of an agent, in whatever order its rows are summed, are the totals of its part of the log. */
  lemma AgentFiguresEqualLog(l: Ledger, agent: string, keys: seq<Key>)
    requires Exact(l) && ListsAgent(l.rows, keys, agent)
    ensures Sum(l.rows, keys) == Total(l.log, By(agent))
  {
    SumIsTotal(l, keys);
    forall i | 0 <= i < |l.log|
      ensures Among(keys)(l.log[i]) == By(agent)(l.log[i])
    {
      if l.log[i].agent.Some? { EntryHasRow(l, i); }
    }
    SamePredicate(l.log, Among(keys), By(agent));
  }

  /** The overall figures are the totals of the part of the log that names an agent. */
  lemma OverallFiguresEqualLog(l: Ledger, keys: seq<Key>)
    requires Exact(l) && ListsAll(l.rows, keys)
    ensures Sum(l.rows, keys) == Total(l.log, Attributed())
  {
    SumIsTotal(l, keys);
    forall i | 0 <= i < |l.log|
      ensures Among(keys)(l.log[i]) == Attributed()(l.log[i])
    {
      if l.log[i].agent.Some? { EntryHasRow(l, i); }
    }
    SamePredicate(l.log, Among(keys), Attributed());
  }

  /** The sum of the figures of the listed agents, as the summary adds them up. */
  function SumOfAgents(log: seq<Entry>, agents: seq<string>): Totals {
    if agents == [] then Zero()
    else Plus(SumOfAgents(log, agents[..|agents| - 1]), Total(log, By(agents[|agents| - 1])))
  }

  lemma {:induction false} SumOfAgentsAppended(log: seq<Entry>, e: Entry, agents: seq<string>)
    requires NoRepeats(agents)
    ensures SumOfAgents(log + [e], agents) ==
            if e.agent.Some? && e.agent.value in agents then Plus(SumOfAgents(log, agents), Of(e))
              else SumOfAgents(log, agents)
  {
    if agents == [] {
    } else {
      var rest, a := agents[..|agents| - 1], agents[|agents| - 1];
      SumOfAgentsAppended(log, e, rest);
      TotalOfAppended(log, e, By(a));
      assert agents == rest + [a] && a !in rest;
      PlusOnOneSide(e.agent.Some? && e.agent.value in rest, By(a)(e), SumOfAgents(log, rest), Total(log, By(a)), Of(e));
    }
  }

  /** The two halves of the summary agree: call counts added up agent by agent and the totals taken over all
      rows are figures of the same calls. */
  lemma {:induction false} SummaryAgrees(log: seq<Entry>, agents: seq<string>)
    requires NoRepeats(agents) && forall i | 0 <= i < |log| && log[i].agent.Some? :: log[i].agent.value in agents
    ensures SumOfAgents(log, agents) == Total(log, Attributed())
  {
    if log == [] {
      SumOfNothing(agents);
    } else {
      var rest := log[..|log| - 1];
      SummaryAgrees(rest, agents);
      assert log == rest + [log[|log| - 1]];
      SumOfAgentsAppended(rest, log[|log| - 1], agents);
    }
  }

  lemma {:induction false} SumOfNothing(agents: seq<string>)
    ensures SumOfAgents([], agents) == Zero()
  {
    if agents == [] {
    } else {
      var rest, a := agents[..|agents| - 1], agents[|agents| - 1];
      SumOfNothing(rest);
      PlusZero(SumOfAgents([], rest), Total([], By(a)));
    }
  }

  /** `listing` gives the rows of each agent. */
  ghost predicate ListsEach(rows: map<Key, Totals>, agents: seq<string>, listing: map<string, seq<Key>>) {
    forall a | a in agents :: a in listing && ListsAgent(rows, listing[a], a)
  }

  /** The figures of every agent, added up agent by agent. */
  ghost function AddedUp(rows: map<Key, Totals>, agents: seq<string>, listing: map<string, seq<Key>>): Totals
    requires ListsEach(rows, agents, listing)
  {
    if agents == [] then Zero()
    else
      var last := agents[|agents| - 1];
      Plus(AddedUp(rows, agents[..|agents| - 1], listing), Sum(rows, listing[last]))
  }

  lemma {:induction false} AddedUpIsSumOfAgents(l: Ledger, agents: seq<string>, listing: map<string, seq<Key>>)
    requires Exact(l) && ListsEach(l.rows, agents, listing)
    ensures AddedUp(l.rows, agents, listing) == SumOfAgents(l.log, agents)
  {
    if agents == [] {
    } else {
      var last := agents[|agents| - 1];
      AddedUpIsSumOfAgents(l, agents[..|agents| - 1], listing);
      AgentFiguresEqualLog(l, last, listing[last]);
    }
  }

  /** What is shown: a rate or a mean only when there were calls, a token total only when every call reported one. */
  datatype Figures = Figures(calls: nat, successes: nat, failures: nat, successRate: Option<real>,
                             meanLatency: Option<real>, tokens: Option<nat>, mcpCalls: nat)

  function Read(t: Totals): Figures {
    Figures(t.calls, t.successes, t.failures,
            if t.calls > 0 then Some(t.successes as real / t.calls as real) else None,
            if t.calls > 0 then Some(t.latency as real / t.calls as real) else None,
            if t.observed == t.calls && t.calls > 0 then Some(t.tokens) else None,
            t.mcpCalls)
  }

  function TokensOf(log: seq<Entry>, p: Entry -> bool): nat {
    if log == [] then 0
    else
      var e := log[|log| - 1];
      TokensOf(log[..|log| - 1], p) + if p(e) && e.tokens.Some? then e.tokens.value else 0
  }

  lemma {:induction false} TotalsAddUp(log: seq<Entry>, p: Entry -> bool)
    ensures var t := Total(log, p);
            && t.calls == t.successes + t.failures && t.observed <= t.calls
            && t.tokens == TokensOf(log, p)
            && (t.calls > 0 <==> exists i | 0 <= i < |log| :: p(log[i]))
            && (t.observed == t.calls <==> forall i | 0 <= i < |log| && p(log[i]) :: log[i].tokens.Some?)
  {
    if log == [] {
    } else {
      var rest, e := log[..|log| - 1], log[|log| - 1];
      TotalsAddUp(rest, p);
      assert log == rest + [e];
    }
  }

  lemma RateIsProper(part: nat, whole: nat)
    requires part <= whole && whole > 0
    ensures 0.0 <= part as real / whole as real <= 1.0
  {
    assert part as real <= whole as real;
  }

  /** A token total is shown exactly when there was a call and every call reported its tokens, and then it is
      their exact sum; calls are successes and failures, and rates lie between zero and one. */
  lemma FiguresAreHonest(log: seq<Entry>, p: Entry -> bool)
    ensures var f := Read(Total(log, p));
            && (f.tokens.Some? <==>
                  (exists i | 0 <= i < |log| :: p(log[i]))
                    && (forall i | 0 <= i < |log| && p(log[i]) :: log[i].tokens.Some?))
            && (f.tokens.Some? ==> f.tokens.value == TokensOf(log, p))
            && f.calls == f.successes + f.failures
            && (f.successRate.Some? ==> 0.0 <= f.successRate.value <= 1.0)
  {
    TotalsAddUp(log, p);
    var t := Total(log, p);
    if t.calls > 0 {
      RateIsProper(t.successes, t.calls);
    }
  }

  lemma RateTimesWhole(part: nat, whole: nat)
    requires whole > 0
    ensures (part as real / whole as real) * whole as real == part as real
  {
  }

  /** The figures of so many calls: the rate is the share of successes and the mean that of the latencies, and both are
      shown exactly when there was a call. */
  ghost predicate Shares(f: Figures, calls: nat, successes: nat, failures: nat, latency: nat, mcpCalls: nat) {
    && f.calls == calls && f.successes == successes && f.failures == failures && f.mcpCalls == mcpCalls
    && (f.successRate.Some? <==> calls > 0) && (f.meanLatency.Some? <==> calls > 0)
    && (calls > 0 ==> f.successRate.value * calls as real == successes as real)
    && (calls > 0 ==> f.meanLatency.value * calls as real == latency as real)
  }

  lemma FiguresOf(t: Totals)
    ensures Shares(Read(t), t.calls, t.successes, t.failures, t.latency, t.mcpCalls)
  {
    if t.calls > 0 {
      RateTimesWhole(t.successes, t.calls);
      RateTimesWhole(t.latency, t.calls);
    }
  }

  /** What is shown are the shares of the calls, successes, failures, latencies and MCP calls in the log. */
  lemma FiguresAreShares(log: seq<Entry>, p: Entry -> bool)
    ensures Shares(Read(Total(log, p)), Gathered(log, Calls(p)), Gathered(log, Successes(p)),
                   Gathered(log, Failures(p)), Gathered(log, Latencies(p)), Gathered(log, McpCalls(p)))
  {
    var t := Total(log, p);
    FiguresOf(t);
    TotalsCount(log, p);
    assert t.calls == Gathered(log, Calls(p)) && t.successes == Gathered(log, Successes(p))
           && t.failures == Gathered(log, Failures(p)) && t.latency == Gathered(log, Latencies(p))
           && t.mcpCalls == Gathered(log, McpCalls(p));
  }

  /** The platform's summary: call counts added up over the agents, everything else summed over all rows. */
  ghost function Summary(rows: map<Key, Totals>, agents: seq<string>, listing: map<string, seq<Key>>,
                         keys: seq<Key>): Figures
    requires ListsEach(rows, agents, listing) && ListsAll(rows, keys)
  {
    var counts, sums := AddedUp(rows, agents, listing), Sum(rows, keys);
    Read(Totals(counts.calls, counts.successes, counts.failures, sums.latency, sums.tokens, sums.observed,
                sums.mcpCalls))
  }

  /** The summary, though it mixes two queries, reads off the part of the audit log that names an agent: its token
      total in particular compares calls and observations of the same calls. */
  lemma SummaryEqualsLog(l: Ledger, agents: seq<string>, listing: map<string, seq<Key>>, keys: seq<Key>)
    requires Exact(l) && NoRepeats(agents) && ListsAll(l.rows, keys)
    requires forall i | 0 <= i < |l.log| && l.log[i].agent.Some? :: l.log[i].agent.value in agents
    requires ListsEach(l.rows, agents, listing)
    ensures Summary(l.rows, agents, listing, keys) == Read(Total(l.log, Attributed()))
  {
    AddedUpIsSumOfAgents(l, agents, listing);
    SummaryAgrees(l.log, agents);
    OverallFiguresEqualLog(l, keys);
  }

  /* What the totals count. */

  /** The sum of `f` over the log. */
  function Gathered(log: seq<Entry>, f: Entry -> nat): nat {
    if log == [] then 0 else Gathered(log[..|log| - 1], f) + f(log[|log| - 1])
  }

  function Calls(p: Entry -> bool): Entry -> nat {
    (e: Entry) => if p(e) then 1 else 0
  }

  function Successes(p: Entry -> bool): Entry -> nat {
    (e: Entry) => if p(e) && e.status == Succeeded then 1 else 0
  }

  function Failures(p: Entry -> bool): Entry -> nat {
    (e: Entry) => if p(e) && (e.status == Failed || e.status == Rejected) then 1 else 0
  }

  function Latencies(p: Entry -> bool): Entry -> nat {
    (e: Entry) => if p(e) then e.latency else 0
  }

  function Observations(p: Entry -> bool): Entry -> nat {
    (e: Entry) => if p(e) && e.tokens.Some? then 1 else 0
  }

  function McpCalls(p: Entry -> bool): Entry -> nat {
    (e: Entry) => if p(e) then e.mcpCalls else 0
  }

  /** Every figure of the totals counts or adds up what its name says. */
  lemma {:induction false} TotalsCount(log: seq<Entry>, p: Entry -> bool)
    ensures Total(log, p) ==
            Totals(Gathered(log, Calls(p)), Gathered(log, Successes(p)), Gathered(log, Failures(p)),
                   Gathered(log, Latencies(p)), TokensOf(log, p), Gathered(log, Observations(p)),
                   Gathered(log, McpCalls(p)))
  {
    if log == [] {
    } else {
      TotalsCount(log[..|log| - 1], p);
      TotalUnfolded(log, p);
    }
  }

  /** What the row of an agent and a day says, after any events: the calls, successes, failures, latencies, observed
      tokens and MCP calls that the audit log holds for it. */
  lemma RowsCount(l: Ledger, events: seq<Event>, key: Key)
    requires Exact(l) && key in Run(l, events).rows
    ensures var last := Run(l, events);
            var row, of := last.rows[key], On(key);
            && row.calls == Gathered(last.log, Calls(of))
            && row.successes == Gathered(last.log, Successes(of)) && row.failures == Gathered(last.log, Failures(of))
            && row.latency == Gathered(last.log, Latencies(of)) && row.tokens == TokensOf(last.log, of)
            && row.observed == Gathered(last.log, Observations(of)) && row.mcpCalls == Gathered(last.log, McpCalls(of))
  {
    MetricsEqualLog(l, events);
    TotalsCount(Run(l, events).log, On(key));
  }

  /* When a call is recorded. */

  /** A call is recorded exactly when its request is new, its token count is not negative, and it increments a
      publication only as an attributed success. It then adds one audit row, with nothing negative in it, and moves at
      most one publication counter, by one; the refusal that is named is the first that applies. */
  lemma RecordOutcome(l: Ledger, requestId: string, agent: Option<string>, day: int, status: CallStatus,
                      latency: int, tokens: Option<int>, mcpCalls: int, increment: bool)
    ensures var r := Record(l, requestId, agent, day, status, latency, tokens, mcpCalls, increment);
            var isNew := forall i | 0 <= i < |l.log| :: l.log[i].requestId != requestId;
            var sane := tokens.Some? ==> tokens.value >= 0;
            && (r.Recorded? <==> isNew && sane && (increment ==> status == Succeeded && agent.Some?))
            && (r == Refused(RequestSeen) <==> !isNew)
            && (r == Refused(NegativeTokens) <==> isNew && !sane)
            && (r.Recorded? ==>
                  && |r.ledger.log| == |l.log| + 1 && l.log <= r.ledger.log
                  && var e := r.ledger.log[|l.log|];
                     && e.requestId == requestId && e.agent == agent && e.day == day && e.status == status
                     && e.latency >= latency && e.latency in {latency, 0}
                     && e.mcpCalls >= mcpCalls && e.mcpCalls in {mcpCalls, 0}
                     && (e.tokens.Some? <==> tokens.Some?) && (tokens.Some? ==> e.tokens.value == tokens.value))
            && (r.Recorded? ==>
                  && r.ledger.publications.Keys == l.publications.Keys
                  && forall a | a in l.publications ::
                       r.ledger.publications[a] == l.publications[a] + (if increment && agent == Some(a) then 1 else 0))
  {
  }

  /** The calls among `events` that were recorded and increment the publication of `name`. */
  function Increments(l: Ledger, events: seq<Event>, name: string): nat
    decreases |events|
  {
    if events == [] then 0
    else
      (if CountsFor(l, events[0], name) then 1 else 0) + Increments(Next(l, events[0]), events[1..], name)
  }

  predicate CountsFor(l: Ledger, event: Event, name: string) {
    && event.Call? && event.increment && event.agent == Some(name) && event.status == Succeeded
    && (forall i | 0 <= i < |l.log| :: l.log[i].requestId != event.requestId)
    && (event.tokens.Some? ==> event.tokens.value >= 0)
  }

  /** As long as its agent is not deleted, the counter of a publication grows by exactly the recorded calls that
      increment it. */
  lemma {:induction false} PublicationCountsCalls(l: Ledger, events: seq<Event>, name: string)
    requires name in l.publications && AgentDeleted(name) !in events
    ensures name in Run(l, events).publications
    ensures Run(l, events).publications[name] == l.publications[name] + Increments(l, events, name)
    decreases |events|
  {
    if events == [] {
    } else {
      assert events[0] in events;
      match events[0] {
        case Call(requestId, agent, day, status, latency, tokens, mcpCalls, increment) =>
          RecordOutcome(l, requestId, agent, day, status, latency, tokens, mcpCalls, increment);
        case AgentDeleted(other) =>
      }
      PublicationCountsCalls(Next(l, events[0]), events[1..], name);
    }
  }

  function Any(): Entry -> bool {
    (e: Entry) => true
  }

  /** Deleting an agent takes its calls away from nobody else, and none out of the audit log. */
  lemma {:induction false} DeletionDetaches(log: seq<Entry>, agent: string, other: string)
    ensures |Unattributed(log, agent)| == |log|
    ensures Total(Unattributed(log, agent), Any()) == Total(log, Any())
    ensures Total(Unattributed(log, agent), By(other)) == if other == agent then Zero() else Total(log, By(other))
  {
    if log == [] {
    } else {
      var rest, e := log[..|log| - 1], log[|log| - 1];
      DeletionDetaches(rest, agent, other);
      assert Unattributed(log, agent)[..|log| - 1] == Unattributed(rest, agent);
      TotalUnfolded(log, By(other));
      TotalUnfolded(Unattributed(log, agent), By(other));
      TotalUnfolded(log, Any());
      TotalUnfolded(Unattributed(log, agent), Any());
    }
  }

  /* Whole histories. */

  datatype Event =
    | Call(requestId: string, agent: Option<string>, day: int, status: CallStatus,
           latency: int, tokens: Option<int>, mcpCalls: int, increment: bool)
    | AgentDeleted(name: string)

  function Next(l: Ledger, event: Event): Ledger {
    match event
    case Call(requestId, agent, day, status, latency, tokens, mcpCalls, increment) =>
      var r := Record(l, requestId, agent, day, status, latency, tokens, mcpCalls, increment);
      if r.Recorded? then r.ledger else l
    case AgentDeleted(name) => Deleted(l, name)
  }

  function Run(l: Ledger, events: seq<Event>): Ledger
    decreases |events|
  {
    if events == [] then l else Run(Next(l, events[0]), events[1..])
  }

  lemma EmptyIsExact(publications: map<string, nat>)
    ensures Exact(Ledger([], map[], publications))
  {
  }

  /** After any sequence of calls and deletions, however the rows are listed, an agent's figures and the overall
      figures are those of the audit log. */
  lemma {:induction false} MetricsEqualLog(l: Ledger, events: seq<Event>)
    requires Exact(l)
    ensures var last := Run(l, events);
            && Exact(last)
            && (forall agent, keys | ListsAgent(last.rows, keys, agent) ::
                  Sum(last.rows, keys) == Total(last.log, By(agent)))
            && (forall keys | ListsAll(last.rows, keys) :: Sum(last.rows, keys) == Total(last.log, Attributed()))
    decreases |events|
  {
    if events == [] {
      forall agent, keys | ListsAgent(l.rows, keys, agent)
        ensures Sum(l.rows, keys) == Total(l.log, By(agent))
      {
        AgentFiguresEqualLog(l, agent, keys);
      }
      forall keys | ListsAll(l.rows, keys)
        ensures Sum(l.rows, keys) == Total(l.log, Attributed())
      {
        OverallFiguresEqualLog(l, keys);
      }
    } else {
      match events[0] {
        case Call(requestId, agent, day, status, latency, tokens, mcpCalls, increment) =>
          if Record(l, requestId, agent, day, status, latency, tokens, mcpCalls, increment).Recorded? {
            RecordKeepsExact(l, requestId, agent, day, status, latency, tokens, mcpCalls, increment);
          }
        case AgentDeleted(name) => DeleteKeepsExact(l, name);
      }
      MetricsEqualLog(Next(l, events[0]), events[1..]);
    }
  }

  class MetricStore {
    var log: seq<Entry>
    var rows: map<Key, Totals>
    var publications: map<string, nat>

    ghost function State(): Ledger
      reads this
    {
      Ledger(log, rows, publications)
    }

    constructor (publications: map<string, nat>)
      ensures State() == Ledger([], map[], publications)
    {
      this.log, this.rows, this.publications := [], map[], publications;
    }

    method RecordPublicCall(requestId: string, agent: Option<string>, day: int, status: CallStatus,
                            latency: int, tokens: Option<int>, mcpCalls: int, increment: bool)
      returns (error: Option<CallError>)
      modifies this
      ensures var r := Record(old(State()), requestId, agent, day, status, latency, tokens, mcpCalls, increment);
              && State() == (if r.Recorded? then r.ledger else old(State()))
              && error == (if r.Recorded? then None else Some(r.error))
    {
      if Seen(log, requestId) {
        return Some(RequestSeen);
      }
      if tokens.Some? && tokens.value < 0 {
        return Some(NegativeTokens);
      }
      var savedLog, savedRows := log, rows;
      var observed := if tokens.Some? then Some(tokens.value) else None;
      var e := EntryOf(requestId, agent, day, status, latency, observed, mcpCalls);
      log := log + [e];
      if agent.Some? {
        var key := (agent.value, day);
        if key in rows {
          rows := rows[key := Plus(rows[key], Of(e))];
        } else {
          rows := rows[key := Of(e)];
        }
      }
      if increment {
        if status != Succeeded || agent.None? {
          log, rows := savedLog, savedRows;
          return Some(NotASuccess);
        }
        if agent.value in publications {
          publications := publications[agent.value := publications[agent.value] + 1];
        }
      }
      return None;
    }
  }
}
