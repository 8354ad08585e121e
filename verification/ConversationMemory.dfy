/** The bounded conversation memory, against the full history of every conversation. */
module ConversationMemory {
  import opened Options
  import opened MemoryKeys

  datatype Role = User | Assistant

  datatype Message = Message(role: Role, content: string)

  /** One exchange as it was spoken. */
  datatype Turn = Turn(input: string, output: string)

  /** What a key holds: a message list, or some other value. */
  datatype Value = Messages(messages: seq<Message>) | Other(json: string)

  type Conversation = (string, string)

  const MESSAGES_KEY := "messages"

  function Truncated(text: string, limit: nat): string {
    if |text| <= limit then text else text[..limit]
  }

  function Spoken(turn: Turn, limit: nat): seq<Message> {
    [Message(User, Truncated(turn.input, limit)), Message(Assistant, Truncated(turn.output, limit))]
  }

  /** The whole history as messages. */
  function Flattened(turns: seq<Turn>, limit: nat): (messages: seq<Message>)
    ensures |messages| == 2 * |turns|
  {
    if turns == [] then [] else Flattened(turns[..|turns| - 1], limit) + Spoken(turns[|turns| - 1], limit)
  }

  /** The last `n` messages. */
  function Window(messages: seq<Message>, n: nat): seq<Message> {
    if |messages| <= n then messages else messages[|messages| - n..]
  }

  /** Cutting to the window before a message is added loses nothing the window would show. */
  lemma WindowAbsorbs(messages: seq<Message>, more: seq<Message>, n: nat)
    ensures Window(Window(messages, n) + more, n) == Window(messages + more, n)
  {
  }

  lemma {:induction false} FlattenedAlternates(turns: seq<Turn>, limit: nat, i: nat)
    requires i < 2 * |turns|
    ensures Flattened(turns, limit)[i] == Message(if i % 2 == 0 then User else Assistant,
              Truncated(if i % 2 == 0 then turns[i / 2].input else turns[i / 2].output, limit))
  {
    if i < 2 * |turns| - 2 {
      FlattenedAlternates(turns[..|turns| - 1], limit, i);
    } else {
      assert i == 2 * |turns| - 2 || i == 2 * |turns| - 1;
    }
  }

  /** A text cut to length: its beginning, all of it if it is short enough. */
  predicate CutTo(shown: string, said: string, limit: nat) {
    shown <= said && |shown| == if |said| <= limit then |said| else limit
  }

  /** Turn `i` is told by messages `2 * i` and `2 * i + 1`: what the user said, then what the assistant answered. */
  predicate Tells(shown: seq<Message>, turn: Turn, i: nat, limit: nat)
    requires 2 * i + 1 < |shown|
  {
    && shown[2 * i].role == User && CutTo(shown[2 * i].content, turn.input, limit)
    && shown[2 * i + 1].role == Assistant && CutTo(shown[2 * i + 1].content, turn.output, limit)
  }

  lemma FlattenedTells(turns: seq<Turn>, limit: nat, i: nat)
    requires i < |turns|
    ensures Tells(Flattened(turns, limit), turns[i], i, limit)
  {
    FlattenedAlternates(turns, limit, 2 * i);
    FlattenedAlternates(turns, limit, 2 * i + 1);
  }

  lemma {:induction false} FlattenedSplits(front: seq<Turn>, back: seq<Turn>, limit: nat)
    ensures Flattened(front + back, limit) == Flattened(front, limit) + Flattened(back, limit)
    decreases |back|
  {
    if back == [] {
      assert front + back == front;
    } else {
      var n := |back| - 1;
      FlattenedSplits(front, back[..n], limit);
      assert (front + back)[..|front| + n] == front + back[..n] && (front + back)[|front| + n] == back[n];
    }
  }

  lemma WindowIsOfLastTurns(turns: seq<Turn>, limit: nat, maxTurns: nat)
    ensures Window(Flattened(turns, limit), 2 * maxTurns)
         == Flattened(if |turns| <= maxTurns then turns else turns[|turns| - maxTurns..], limit)
  {
    if |turns| > maxTurns {
      var skipped := |turns| - maxTurns;
      assert turns == turns[..skipped] + turns[skipped..];
      FlattenedSplits(turns[..skipped], turns[skipped..], limit);
    }
  }

  /** What a conversation shows: the last `maxTurns` turns in order and nothing else, cut to length. */
  lemma WindowShowsLastTurns(turns: seq<Turn>, limit: nat, maxTurns: nat)
    ensures var shown := Window(Flattened(turns, limit), 2 * maxTurns);
            var kept := if |turns| <= maxTurns then turns else turns[|turns| - maxTurns..];
            && |shown| == 2 * |kept| && shown == Flattened(kept, limit)
            && forall i: nat | i < |kept| :: Tells(shown, kept[i], i, limit)
  {
    var kept := if |turns| <= maxTurns then turns else turns[|turns| - maxTurns..];
    WindowIsOfLastTurns(turns, limit, maxTurns);
    forall i: nat | i < |kept|
      ensures Tells(Flattened(kept, limit), kept[i], i, limit)
    {
      FlattenedTells(kept, limit, i);
    }
  }

  function TurnsOf(histories: map<Conversation, seq<Turn>>, agent: string, session: string): seq<Turn> {
    if (agent, session) in histories then histories[(agent, session)] else []
  }

  /** The stored value of a conversation is the window of its own history. */
  ghost predicate Shows(values: map<string, Value>, ns: Namespace, turns: seq<Turn>, limit: nat, maxTurns: nat) {
    var key := KeyOf(ns, MESSAGES_KEY);
    if turns == [] then key !in values
    else key in values && values[key] == Messages(Window(Flattened(turns, limit), 2 * maxTurns))
  }

  /** Every conversation is stored as the window of its own history. */
  ghost predicate Agrees(values: map<string, Value>, histories: map<Conversation, seq<Turn>>, kind: string, limit: nat,
                         maxTurns: nat) {
    forall agent: string, session: string | ValidNamespace(Namespace(agent, session, kind)) ::
      Shows(values, Namespace(agent, session, kind), TurnsOf(histories, agent, session), limit, maxTurns)
  }

  lemma MessagesKeyIsValid()
    ensures ValidKey(MESSAGES_KEY)
  {
  }

  /** Writing the value of one conversation shows in that conversation and in no other. */
  lemma WriteAgrees(values: map<string, Value>, after: map<string, Value>, histories: map<Conversation, seq<Turn>>,
                    turns: seq<Turn>, ns: Namespace, limit: nat, maxTurns: nat)
    requires Agrees(values, histories, ns.kind, limit, maxTurns) && ValidNamespace(ns)
    requires forall key: string | key != KeyOf(ns, MESSAGES_KEY) ::
               (key in after <==> key in values) && (key in values ==> after[key] == values[key])
    requires Shows(after, ns, turns, limit, maxTurns)
    ensures Agrees(after, histories[(ns.agent, ns.session) := turns], ns.kind, limit, maxTurns)
  {
    var now := histories[(ns.agent, ns.session) := turns];
    forall agent: string, session: string | ValidNamespace(Namespace(agent, session, ns.kind))
      ensures Shows(after, Namespace(agent, session, ns.kind), TurnsOf(now, agent, session), limit, maxTurns)
    {
      var m := Namespace(agent, session, ns.kind);
      KeyIsInjective(m, MESSAGES_KEY, ns, MESSAGES_KEY);
      assert Shows(values, m, TurnsOf(histories, agent, session), limit, maxTurns);
    }
  }

  /** A value under another key, or of another kind, shows in no conversation. */
  lemma OtherKeyAgrees(values: map<string, Value>, after: map<string, Value>, histories: map<Conversation, seq<Turn>>,
                       ns: Namespace, key: string, kind: string, limit: nat, maxTurns: nat)
    requires Agrees(values, histories, kind, limit, maxTurns) && ValidNamespace(ns)
             && (ns.kind != kind || key != MESSAGES_KEY)
    requires forall k: string | k != KeyOf(ns, key) ::
               (k in after <==> k in values) && (k in values ==> after[k] == values[k])
    ensures Agrees(after, histories, kind, limit, maxTurns)
  {
    forall agent: string, session: string | ValidNamespace(Namespace(agent, session, kind))
      ensures Shows(after, Namespace(agent, session, kind), TurnsOf(histories, agent, session), limit, maxTurns)
    {
      KeyIsInjective(Namespace(agent, session, kind), MESSAGES_KEY, ns, key);
      assert Shows(values, Namespace(agent, session, kind), TurnsOf(histories, agent, session), limit, maxTurns);
    }
  }

  function Cleared(values: map<string, Value>, pattern: string): map<string, Value> {
    map key | key in values && !Glob(pattern, key) :: values[key]
  }

  function Without(histories: map<Conversation, seq<Turn>>, agent: string): map<Conversation, seq<Turn>> {
    map c | c in histories && c.0 != agent :: histories[c]
  }

  /** Clearing an agent forgets its conversations and no other agent's. */
  lemma ClearAgrees(values: map<string, Value>, histories: map<Conversation, seq<Turn>>, agent: string, kind: string,
                    limit: nat, maxTurns: nat)
    requires Agrees(values, histories, kind, limit, maxTurns) && NamespacePart(agent, 64)
    ensures Agrees(Cleared(values, Pattern(agent, None, None)), Without(histories, agent), kind, limit, maxTurns)
  {
    MessagesKeyIsValid();
    forall a: string, session: string | ValidNamespace(Namespace(a, session, kind))
      ensures Shows(Cleared(values, Pattern(agent, None, None)), Namespace(a, session, kind),
                    TurnsOf(Without(histories, agent), a, session), limit, maxTurns)
    {
      PatternIsExact(agent, None, None, Namespace(a, session, kind), MESSAGES_KEY);
      assert Shows(values, Namespace(a, session, kind), TurnsOf(histories, a, session), limit, maxTurns);
    }
  }

  class Memory {
    const maxTurns: nat
    const limit: nat
    const kind: string
    var values: map<string, Value>
    /** The turns of each conversation since it was last forgotten. */
    ghost var histories: map<Conversation, seq<Turn>>

    ghost predicate Valid()
      reads this
    {
      maxTurns > 0 && Agrees(values, histories, kind, limit, maxTurns)
    }

    constructor (maxTurns: nat, limit: nat, kind: string)
      requires maxTurns > 0
      ensures Valid() && histories == map[] && this.maxTurns == maxTurns && this.limit == limit && this.kind == kind
    {
      this.maxTurns, this.limit, this.kind := maxTurns, limit, kind;
      values, histories := map[], map[];
    }

    method Load(agent: string, session: string) returns (messages: Option<seq<Message>>)
      requires Valid()
      ensures messages.Some? <==> ValidNamespace(Namespace(agent, session, kind))
      ensures messages.Some? ==>
              messages.value == Window(Flattened(TurnsOf(histories, agent, session), limit), 2 * maxTurns)
    {
      var ns := Namespace(agent, session, kind);
      if !ValidNamespace(ns) {
        return None;
      }
      assert Shows(values, ns, TurnsOf(histories, agent, session), limit, maxTurns);
      var key := KeyOf(ns, MESSAGES_KEY);
      if key !in values {
        return Some([]);
      }
      match values[key]
      case Messages(stored) => return Some(Window(stored, 2 * maxTurns));
      case Other(_) => return None;
    }

    method AppendTurn(agent: string, session: string, input: string, output: string) returns (ok: bool)
      requires Valid()
      modifies this
      ensures Valid()
      ensures ok <==> ValidNamespace(Namespace(agent, session, kind))
      ensures histories ==
              if ok then
                old(histories)[(agent, session) := TurnsOf(old(histories), agent, session) + [Turn(input, output)]]
              else old(histories)
    {
      var ns := Namespace(agent, session, kind);
      if !ValidNamespace(ns) {
        return false;
      }
      ghost var before := TurnsOf(histories, agent, session);
      assert Shows(values, ns, before, limit, maxTurns);
      var key := KeyOf(ns, MESSAGES_KEY);
      var current := [];
      if key in values {
        match values[key]
        case Messages(stored) => current := stored;
        case Other(_) => return false;
      }
      var turn := Turn(input, output);
      ghost var turns := before + [turn];
      assert turns[..|turns| - 1] == before;
      WindowAbsorbs(Flattened(before, limit), Spoken(turn, limit), 2 * maxTurns);
      current := current + Spoken(turn, limit);
      ghost var oldValues := values;
      values := values[key := Messages(Window(current, 2 * maxTurns))];
      WriteAgrees(oldValues, values, histories, turns, ns, limit, maxTurns);
      histories := histories[(agent, session) := turns];
      return true;
    }

    /** Deletes a conversation; an expired one goes the same way. */
    method Forget(agent: string, session: string) returns (ok: bool)
      requires Valid()
      modifies this
      ensures Valid()
      ensures ok <==> ValidNamespace(Namespace(agent, session, kind))
      ensures histories == if ok then old(histories)[(agent, session) := []] else old(histories)
    {
      var ns := Namespace(agent, session, kind);
      if !ValidNamespace(ns) {
        return false;
      }
      ghost var before := values;
      values := values - {KeyOf(ns, MESSAGES_KEY)};
      WriteAgrees(before, values, histories, [], ns, limit, maxTurns);
      histories := histories[(agent, session) := []];
      return true;
    }

    /** Stores a value other than a conversation of this memory. */
    method Set(ns: Namespace, key: string, value: Value) returns (ok: bool)
      requires Valid() && (ns.kind != kind || key != MESSAGES_KEY)
      modifies `values
      ensures Valid()
      ensures ok <==> ValidNamespace(ns) && ValidKey(key)
      ensures values == if ok then old(values)[KeyOf(ns, key) := value] else old(values)
    {
      if !ValidNamespace(ns) || !ValidKey(key) {
        return false;
      }
      ghost var before := values;
      values := values[KeyOf(ns, key) := value];
      OtherKeyAgrees(before, values, histories, ns, key, kind, limit, maxTurns);
      return true;
    }

    /** Removes every key the agent's pattern matches. */
    method ClearAgent(agent: string) returns (ok: bool)
      requires Valid()
      modifies this
      ensures Valid()
      ensures ok <==> NamespacePart(agent, 64) && NamespacePart(kind, 64)
      ensures values == if ok then Cleared(old(values), Pattern(agent, None, None)) else old(values)
      ensures histories == if ok then Without(old(histories), agent) else old(histories)
    {
      if !ValidNamespace(Namespace(agent, "validation", kind)) {
        return false;
      }
      ClearAgrees(values, histories, agent, kind, limit, maxTurns);
      values := Cleared(values, Pattern(agent, None, None));
      histories := Without(histories, agent);
      return true;
    }
  }
}
