/** The flat keys of the conversation memory and the patterns that clear it. */
module MemoryKeys {
  import opened Options

  datatype Namespace = Namespace(agent: string, session: string, kind: string)

  const KEY_PREFIX := "hermes:agent-memory:v2"

  predicate Alphanumeric(c: char) {
    'A' <= c <= 'Z' || 'a' <= c <= 'z' || '0' <= c <= '9'
  }

  /** A letter or digit, then letters, digits, dots, underscores and hyphens. */
  predicate NamespacePart(part: string, limit: nat) {
    && 0 < |part| <= limit && Alphanumeric(part[0])
    && forall i | 0 <= i < |part| :: Alphanumeric(part[i]) || part[i] == '.' || part[i] == '_' || part[i] == '-'
  }

  predicate ValidNamespace(ns: Namespace) {
    NamespacePart(ns.agent, 64) && NamespacePart(ns.session, 128) && NamespacePart(ns.kind, 64)
  }

  predicate ValidKey(key: string) {
    NamespacePart(key, 128)
  }

  /** `a`, a colon, and `rest`. */
  function Joined(a: string, rest: string): string {
    a + ":" + rest
  }

  function KeyOf(ns: Namespace, key: string): string {
    Joined(KEY_PREFIX, Joined(ns.agent, Joined(ns.session, Joined(ns.kind, key))))
  }

  function OrAny(part: Option<string>): string {
    if part.Some? then part.value else "*"
  }

  /** The pattern that clears an agent, or one session of it, or one kind of memory. */
  function Pattern(agent: string, session: Option<string>, kind: Option<string>): string {
    Joined(KEY_PREFIX, Joined(agent, Joined(OrAny(session), Joined(OrAny(kind), "*"))))
  }

  /** Glob matching: a star stands for any text, a question mark for any character. */
  predicate Glob(pattern: string, text: string)
    decreases |pattern| + |text|
  {
    if pattern == "" then text == ""
    else if pattern[0] == '*' then Glob(pattern[1..], text) || (text != "" && Glob(pattern, text[1..]))
    else text != "" && (pattern[0] == '?' || pattern[0] == text[0]) && Glob(pattern[1..], text[1..])
  }

  /** A text without pattern characters. */
  predicate Plain(text: string) {
    forall i | 0 <= i < |text| :: text[i] !in {'*', '?', '[', ']', '\\'}
  }

  predicate NoColon(text: string) {
    forall i | 0 <= i < |text| :: text[i] != ':'
  }

  lemma PartsAreSafe(part: string, limit: nat)
    requires NamespacePart(part, limit)
    ensures NoColon(part) && Plain(part)
  {
  }

  /* Keys determine their namespace. */

  lemma SplitAtColon(a: string, x: string, b: string, y: string)
    requires NoColon(a) && NoColon(b) && Joined(a, x) == Joined(b, y)
    ensures a == b && x == y
  {
    var t := Joined(a, x);
    assert t[|a|] == ':' && t[|b|] == ':';
    assert (forall i | 0 <= i < |a| :: t[i] == a[i]) && (forall i | 0 <= i < |b| :: t[i] == b[i]);
    assert |a| == |b|;
    assert a == t[..|a|] && b == t[..|b|];
    assert x == t[|a| + 1..] && y == t[|b| + 1..];
  }

  lemma SamePrefix(p: string, x: string, y: string)
    requires Joined(p, x) == Joined(p, y)
    ensures x == y
  {
    assert x == Joined(p, x)[|p| + 1..] && y == Joined(p, y)[|p| + 1..];
  }

  /** Different namespaces or keys never share a flat key. */
  lemma KeyIsInjective(m: Namespace, j: string, n: Namespace, k: string)
    requires ValidNamespace(m) && ValidNamespace(n)
    ensures KeyOf(m, j) == KeyOf(n, k) <==> m == n && j == k
  {
    if KeyOf(m, j) == KeyOf(n, k) {
      PartsAreSafe(m.agent, 64);
      PartsAreSafe(n.agent, 64);
      PartsAreSafe(m.session, 128);
      PartsAreSafe(n.session, 128);
      PartsAreSafe(m.kind, 64);
      PartsAreSafe(n.kind, 64);
      SamePrefix(KEY_PREFIX, Joined(m.agent, Joined(m.session, Joined(m.kind, j))),
                 Joined(n.agent, Joined(n.session, Joined(n.kind, k))));
      SplitAtColon(m.agent, Joined(m.session, Joined(m.kind, j)), n.agent, Joined(n.session, Joined(n.kind, k)));
      SplitAtColon(m.session, Joined(m.kind, j), n.session, Joined(n.kind, k));
      SplitAtColon(m.kind, j, n.kind, k);
    }
  }

  /* Patterns match what they should. */

  lemma {:induction false} PlainHead(plain: string, pattern: string, text: string)
    requires Plain(plain)
    ensures Glob(plain + pattern, text) <==> plain <= text && Glob(pattern, text[|plain|..])
  {
    if plain == "" {
      assert plain + pattern == pattern && text[0..] == text;
    } else {
      assert (plain + pattern)[0] == plain[0] && (plain + pattern)[1..] == plain[1..] + pattern;
      if text != "" && text[0] == plain[0] {
        PlainHead(plain[1..], pattern, text[1..]);
        if plain[1..] <= text[1..] { assert text[1..][|plain| - 1..] == text[|plain|..]; }
        assert plain == [plain[0]] + plain[1..] && text == [text[0]] + text[1..];
        assert plain <= text <==> plain[1..] <= text[1..];
      }
    }
  }

  /** A plain part of the pattern and its colon must be the first part of the text. */
  lemma PlainPart(a: string, pattern: string, b: string, rest: string)
    requires Plain(a) && NoColon(a) && NoColon(b)
    ensures Glob(Joined(a, pattern), Joined(b, rest)) <==> a == b && Glob(pattern, rest)
  {
    var head, text := a + ":", Joined(b, rest);
    assert Joined(a, pattern) == head + pattern;
    PlainHead(head, pattern, text);
    assert Joined(b, rest) == (b + ":") + rest;
    if head <= text {
      assert text == Joined(a, text[|head|..]);
      SplitAtColon(a, text[|head|..], b, rest);
    }
  }

  function Colons(text: string): nat {
    if text == "" then 0 else (if text[0] == ':' then 1 else 0) + Colons(text[1..])
  }

  lemma {:induction false} ColonsOfSum(a: string, b: string)
    ensures Colons(a + b) == Colons(a) + Colons(b)
  {
    if a == "" {
      assert a + b == b;
    } else {
      ColonsOfSum(a[1..], b);
      assert (a + b)[1..] == a[1..] + b;
    }
  }

  lemma {:induction false} NoColonNoColons(text: string)
    requires NoColon(text)
    ensures Colons(text) == 0
  {
    if text == "" {
    } else {
      NoColonNoColons(text[1..]);
    }
  }

  lemma ColonsOfJoined(a: string, rest: string)
    requires NoColon(a)
    ensures Colons(Joined(a, rest)) == 1 + Colons(rest)
  {
    NoColonNoColons(a);
    ColonsOfSum(a, ":" + rest);
    assert a + (":" + rest) == Joined(a, rest);
    assert (":" + rest)[1..] == rest;
  }

  /** Every colon of a pattern needs one in the text. */
  lemma {:induction false} ColonsNeeded(pattern: string, text: string)
    requires Glob(pattern, text)
    ensures Colons(pattern) <= Colons(text)
    decreases |pattern| + |text|
  {
    if pattern == "" {
    } else if pattern[0] == '*' {
      if Glob(pattern[1..], text) {
        ColonsNeeded(pattern[1..], text);
      } else {
        ColonsNeeded(pattern, text[1..]);
      }
    } else {
      ColonsNeeded(pattern[1..], text[1..]);
    }
  }

  /** A star part of the pattern takes exactly the first part of the text, when the text has no colon to spare. */
  lemma {:induction false} StarPart(pattern: string, b: string, rest: string)
    requires NoColon(b) && Colons(rest) <= Colons(pattern)
    ensures Glob(Joined("*", pattern), Joined(b, rest)) <==> Glob(pattern, rest)
  {
    var star, text := Joined("*", pattern), Joined(b, rest);
    assert star[0] == '*' && star[1..] == ":" + pattern;
    assert (":" + pattern)[1..] == pattern;
    if b == "" {
      assert text == ":" + rest && text[1..] == rest;
      ColonsOfJoined("*", pattern);
      if Glob(star, rest) { ColonsNeeded(star, rest); }
    } else {
      assert text[0] == b[0] && text[1..] == Joined(b[1..], rest);
      StarPart(pattern, b[1..], rest);
    }
  }

  lemma {:induction false} StarMatchesAll(text: string)
    ensures Glob("*", text)
  {
    if text == "" {
    } else {
      StarMatchesAll(text[1..]);
    }
  }

  predicate Covers(part: Option<string>, value: string) {
    part.None? || part.value == value
  }

  predicate PlainOption(part: Option<string>) {
    part.Some? ==> Plain(part.value) && NoColon(part.value)
  }

  lemma PartOrAny(part: Option<string>, pattern: string, b: string, rest: string)
    requires PlainOption(part) && NoColon(b) && Colons(rest) <= Colons(pattern)
    ensures Glob(Joined(OrAny(part), pattern), Joined(b, rest)) <==> Covers(part, b) && Glob(pattern, rest)
  {
    if part.Some? {
      PlainPart(part.value, pattern, b, rest);
    } else {
      StarPart(pattern, b, rest);
    }
  }

  /** A clearing pattern matches exactly the keys of the agent, and of the session and kind when those are given. */
  lemma PatternIsExact(agent: string, session: Option<string>, kind: Option<string>, ns: Namespace, key: string)
    requires NamespacePart(agent, 64) && ValidNamespace(ns) && ValidKey(key)
    requires (session.Some? ==> NamespacePart(session.value, 128)) && (kind.Some? ==> NamespacePart(kind.value, 64))
    ensures Glob(Pattern(agent, session, kind), KeyOf(ns, key)) <==>
            ns.agent == agent && Covers(session, ns.session) && Covers(kind, ns.kind)
  {
    PartsAreSafe(agent, 64);
    PartsAreSafe(ns.agent, 64);
    PartsAreSafe(ns.session, 128);
    PartsAreSafe(ns.kind, 64);
    PartsAreSafe(key, 128);
    if session.Some? { PartsAreSafe(session.value, 128); }
    if kind.Some? { PartsAreSafe(kind.value, 64); }
    var inner, text := Joined(OrAny(kind), "*"), Joined(ns.kind, key);
    NoColonNoColons(key);
    ColonsOfJoined(ns.kind, key);
    ColonsOfJoined(OrAny(kind), "*");
    StarMatchesAll(key);
    PartOrAny(kind, "*", ns.kind, key);
    PartOrAny(session, inner, ns.session, text);
    PlainPart(agent, Joined(OrAny(session), inner), ns.agent, Joined(ns.session, text));
    PrefixPart(Joined(agent, Joined(OrAny(session), inner)), Joined(ns.agent, Joined(ns.session, text)));
  }

  lemma PrefixPart(pattern: string, rest: string)
    ensures Glob(Joined(KEY_PREFIX, pattern), Joined(KEY_PREFIX, rest)) <==> Glob(pattern, rest)
  {
    var head := KEY_PREFIX + ":";
    assert Joined(KEY_PREFIX, pattern) == head + pattern && Joined(KEY_PREFIX, rest) == head + rest;
    PlainHead(head, pattern, head + rest);
    assert (head + rest)[|head|..] == rest;
  }
}
