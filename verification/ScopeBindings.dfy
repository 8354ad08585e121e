/** What an update of database bindings binds: when it succeeds, one binding for every operation that was asked for,
    and why it is turned away when it does not. */
module ScopeBindings {
  import opened Options
  import opened DatabaseScopes
  import opened ScopeLifecycle
  import opened ScopeTheorems

  /** One operation that is asked for. */
  datatype Wish = Wish(scopeRevision: nat, prefix: string, operation: Operation)

  function WishesOf(q: BindingRequest): (wishes: seq<Wish>)
    ensures |wishes| == |q.operations|
  {
    seq(|q.operations|, i requires 0 <= i < |q.operations| => Wish(q.scopeRevision, q.prefix, q.operations[i]))
  }

  /** Everything that is asked for, request by request. */
  function Wishes(requests: seq<BindingRequest>): seq<Wish> {
    if requests == [] then []
    else Wishes(requests[..|requests| - 1]) + WishesOf(requests[|requests| - 1])
  }

  function WishAlias(w: Wish): string {
    AliasOf(w.prefix, w.operation)
  }

  /** The revision is the current one of its scope, on an enabled and healthy connection. */
  predicate Offered(s: Store, r: nat) {
    && r < |s.scopeRevisions| && s.scopeRevisions[r].owner < |s.scopes|
    && var scope := s.scopes[s.scopeRevisions[r].owner];
       && scope.current == r && scope.instance < |s.instances|
       && s.instances[scope.instance].enabled && s.instances[scope.instance].health == Healthy
  }

  /** What the permissions of a selection allow: listing always, the rest by the permission that covers it. */
  predicate MayUse(p: Permissions, o: Operation) {
    match o
    case ListSchemas => true
    case ListTables => true
    case DescribeTable => p.describe
    case PreviewTable => p.preview
    case Select => p.query
    case Explain => p.query
  }

  lemma PermitsIff(d: Definition, o: Operation)
    requires WellStored(d)
    ensures Permits(d, o) <==> MayUse(SelectionOf(d).permissions, o)
  {
    if Needed(o).Some? { assert Needed(o).value in PERMISSION_KEYS; }
  }

  /** On the rows these routes keep, a revision may be bound exactly when it is offered. */
  lemma BindableIff(s: Store, r: nat)
    requires Inv(s)
    ensures Unbindable(s, r).None? <==> Offered(s, r)
    ensures Offered(s, r) ==>
              s.scopeRevisions[r].content.connectorRevision
              == s.instances[s.scopes[s.scopeRevisions[r].owner].instance].current
  {
    if Offered(s, r) { assert UpToDate(s, s.scopeRevisions[r].owner); }
  }

  /** The binding is the wish fulfilled: its alias, its scope revision, and its operation on the connector revision
      that the scope's connection serves. */
  predicate Fulfils(s: Store, version: nat, w: Wish, b: Binding) {
    && b.version == version && b.alias == WishAlias(w) && b.target.Database?
    && b.target.scopeRevision == w.scopeRevision && Offered(s, w.scopeRevision)
    && b.target.implementation < |s.implementations|
    && s.implementations[b.target.implementation]
       == Implementation(w.operation, s.instances[s.scopes[s.scopeRevisions[w.scopeRevision].owner].instance].current)
  }

  /** The scope permits the operation. */
  predicate Permitted(s: Store, w: Wish) {
    w.scopeRevision < |s.scopeRevisions|
    && MayUse(SelectionOf(s.scopeRevisions[w.scopeRevision].content).permissions, w.operation)
  }

  /** The alias of wish `k` is short enough, not used by another binding of the version, and not wished for before. */
  predicate AliasFree(s: Store, version: nat, wishes: seq<Wish>, k: nat)
    requires k < |wishes|
  {
    && |WishAlias(wishes[k])| <= 128
    && !AliasUsed(s.bindings, version, WishAlias(wishes[k]))
    && forall j | 0 <= j < k :: WishAlias(wishes[j]) != WishAlias(wishes[k])
  }

  predicate Grantable(s: Store, version: nat, wishes: seq<Wish>, k: nat)
    requires k < |wishes|
  {
    Permitted(s, wishes[k]) && AliasFree(s, version, wishes, k)
  }

  /** Some wish gives cause for the refusal. */
  ghost predicate Causes(s: Store, version: nat, wishes: seq<Wish>, reason: Refusal) {
    match reason
    case NotPermitted => exists k: nat | k < |wishes| :: !Permitted(s, wishes[k])
    case AliasTaken => exists k: nat | k < |wishes| :: Permitted(s, wishes[k]) && !AliasFree(s, version, wishes, k)
    case _ => false
  }

  ghost predicate AllGrantable(s: Store, version: nat, wishes: seq<Wish>) {
    forall k: nat | k < |wishes| :: Grantable(s, version, wishes, k)
  }

  /** The bindings that were added are the wishes, one by one and in order. */
  ghost predicate Adds(s: Store, version: nat, wishes: seq<Wish>, after: seq<Binding>) {
    && |after| == |s.bindings| + |wishes| && s.bindings <= after
    && forall k | 0 <= k < |wishes| :: Fulfils(s, version, wishes[k], after[|s.bindings| + k])
  }

  /** The wishes granted one by one. */
  function Grant(s: Store, version: nat, wishes: seq<Wish>): Outcome<Store> {
    if wishes == [] then Done(s)
    else
      var n := |wishes| - 1;
      var earlier := Grant(s, version, wishes[..n]);
      if earlier.Refused? then earlier else GrantOne(earlier.value, version, wishes[n])
  }

  function GrantOne(s: Store, version: nat, w: Wish): Outcome<Store> {
    var reason := Unbindable(s, w.scopeRevision);
    if reason.Some? then Refused(reason.value)
    else BindOne(s, version, w.scopeRevision, ServedRevision(s, w.scopeRevision), w.prefix, w.operation)
  }

  lemma OneGranted(s: Store, version: nat, w: Wish)
    requires Inv(s) && Offered(s, w.scopeRevision)
    ensures var r := GrantOne(s, version, w);
            var free := |WishAlias(w)| <= 128 && !AliasUsed(s.bindings, version, WishAlias(w));
            && (r.Done? <==> Permitted(s, w) && free)
            && (r.Done? ==>
                  && r.value == s.(bindings := r.value.bindings)
                  && |r.value.bindings| == |s.bindings| + 1 && s.bindings <= r.value.bindings
                  && Fulfils(s, version, w, r.value.bindings[|s.bindings|]))
            && (r == Refused(NotPermitted) <==> !Permitted(s, w))
            && (r == Refused(AliasTaken) <==> Permitted(s, w) && !free)
  {
    assert RevisionInv(s, w.scopeRevision);
    PermitsIff(s.scopeRevisions[w.scopeRevision].content, w.operation);
    BindableIff(s, w.scopeRevision);
    OperationsAreImplemented(s, w.scopeRevision, w.operation);
  }

  /** Only the bindings change. */
  predicate SameButBindings(s: Store, u: Store) {
    u == s.(bindings := u.bindings)
  }

  lemma SameOffers(s: Store, u: Store)
    requires Inv(s) && SameButBindings(s, u) && forall b | b in u.bindings :: Coherent(s, b)
    ensures Inv(u)
    ensures forall r :: Offered(u, r) <==> Offered(s, r)
    ensures forall r :: Unbindable(u, r) == Unbindable(s, r)
    ensures forall version, w, b :: Fulfils(u, version, w, b) <==> Fulfils(s, version, w, b)
  {
    forall r: nat | r < |u.scopeRevisions|
      ensures RevisionInv(u, r)
    {
      assert RevisionInv(s, r);
    }
    forall k: nat | k < |u.scopes|
      ensures UpToDate(u, k)
    {
      assert UpToDate(s, k);
    }
    forall i | 0 <= i < |u.bindings|
      ensures Coherent(u, u.bindings[i])
    {
      assert u.bindings[i] in u.bindings;
    }
  }

  lemma FulfilledIsCoherent(s: Store, version: nat, w: Wish, b: Binding)
    requires Inv(s) && Fulfils(s, version, w, b)
    ensures Coherent(s, b)
  {
    BindableIff(s, w.scopeRevision);
  }

  /** The aliases the version has after the wishes were granted. */
  lemma AliasesAfter(s: Store, version: nat, wishes: seq<Wish>, u: Store, alias: string)
    requires SameButBindings(s, u) && Adds(s, version, wishes, u.bindings)
    ensures AliasUsed(u.bindings, version, alias) <==>
            AliasUsed(s.bindings, version, alias) || exists j :: 0 <= j < |wishes| && WishAlias(wishes[j]) == alias
  {
    if i :| 0 <= i < |u.bindings| && u.bindings[i].version == version && u.bindings[i].alias == alias {
      if i < |s.bindings| {
        assert s.bindings[i] == u.bindings[i];
      } else {
        assert Fulfils(s, version, wishes[i - |s.bindings|], u.bindings[|s.bindings| + (i - |s.bindings|)]);
      }
    }
    if j :| 0 <= j < |wishes| && WishAlias(wishes[j]) == alias {
      assert Fulfils(s, version, wishes[j], u.bindings[|s.bindings| + j]);
    }
    if i :| 0 <= i < |s.bindings| && s.bindings[i].version == version && s.bindings[i].alias == alias {
      assert u.bindings[i] == s.bindings[i];
    }
  }

  lemma AddsKeepsCoherent(s: Store, version: nat, wishes: seq<Wish>, after: seq<Binding>)
    requires Inv(s) && Adds(s, version, wishes, after)
    ensures forall b | b in after :: Coherent(s, b)
  {
    forall b | b in after
      ensures Coherent(s, b)
    {
      var i :| 0 <= i < |after| && after[i] == b;
      if i < |s.bindings| {
        assert s.bindings[i] == b;
      } else {
        assert after[|s.bindings| + (i - |s.bindings|)] == b;
        FulfilledIsCoherent(s, version, wishes[i - |s.bindings|], b);
      }
    }
  }

  lemma AddsOneMore(s: Store, version: nat, wishes: seq<Wish>, w: Wish, before: seq<Binding>, after: seq<Binding>)
    requires Adds(s, version, wishes, before) && |after| == |before| + 1 && before <= after
    requires Fulfils(s, version, w, after[|before|])
    ensures Adds(s, version, wishes + [w], after)
  {
    forall k | 0 <= k < |wishes + [w]|
      ensures Fulfils(s, version, (wishes + [w])[k], after[|s.bindings| + k])
    {
      if k < |wishes| { assert before[|s.bindings| + k] == after[|s.bindings| + k]; }
    }
  }

  lemma GrantableSplits(s: Store, version: nat, wishes: seq<Wish>, w: Wish)
    ensures AllGrantable(s, version, wishes + [w]) <==>
            AllGrantable(s, version, wishes) && Grantable(s, version, wishes + [w], |wishes|)
  {
    var all := wishes + [w];
    forall k: nat | k < |wishes|
      ensures Grantable(s, version, all, k) <==> Grantable(s, version, wishes, k)
    {
      assert all[k] == wishes[k] && forall j | 0 <= j < k :: all[j] == wishes[j];
    }
  }

  lemma CausesOfPrefix(s: Store, version: nat, wishes: seq<Wish>, all: seq<Wish>, reason: Refusal)
    requires Causes(s, version, wishes, reason) && wishes <= all
    ensures Causes(s, version, all, reason)
  {
    forall k: nat | k < |wishes|
      ensures all[k] == wishes[k] && (AliasFree(s, version, all, k) <==> AliasFree(s, version, wishes, k))
    {
      assert forall j | 0 <= j < k :: all[j] == wishes[j];
    }
  }

  /** Granting wishes one by one succeeds exactly when nothing stands against any of them, and then adds exactly one
      binding for each. A refusal has its cause in one of them. */
  lemma {:induction false} GrantOutcome(s: Store, version: nat, wishes: seq<Wish>)
    requires Inv(s) && forall w | w in wishes :: Offered(s, w.scopeRevision)
    ensures var r := Grant(s, version, wishes);
            && (r.Done? <==> AllGrantable(s, version, wishes))
            && (r.Done? ==> SameButBindings(s, r.value) && Adds(s, version, wishes, r.value.bindings))
            && (r.Refused? ==> Causes(s, version, wishes, r.reason))
  {
    if wishes == [] {
    } else {
      var n := |wishes| - 1;
      var front, w := wishes[..n], wishes[n];
      assert wishes == front + [w] && w in wishes;
      GrantOutcome(s, version, front);
      GrantableSplits(s, version, front, w);
      GrantUnfolds(s, version, front, w);
      var earlier := Grant(s, version, front);
      if earlier.Done? {
        var u := earlier.value;
        AddsKeepsCoherent(s, version, front, u.bindings);
        SameOffers(s, u);
        LastGranted(s, u, version, front, w);
      } else {
        CausesOfPrefix(s, version, front, wishes, earlier.reason);
      }
    }
  }

  lemma LastGranted(s: Store, u: Store, version: nat, front: seq<Wish>, w: Wish)
    requires Inv(u) && SameButBindings(s, u) && Adds(s, version, front, u.bindings)
    requires Offered(s, w.scopeRevision) && Offered(u, w.scopeRevision)
    requires forall b :: Fulfils(u, version, w, b) <==> Fulfils(s, version, w, b)
    ensures var r := GrantOne(u, version, w);
            && (r.Done? <==> Grantable(s, version, front + [w], |front|))
            && (r.Done? ==> SameButBindings(s, r.value) && Adds(s, version, front + [w], r.value.bindings))
            && (r.Refused? ==> Causes(s, version, front + [w], r.reason))
  {
    OneGranted(u, version, w);
    AliasesAfter(s, version, front, u, WishAlias(w));
    var all := front + [w];
    assert all[|front|] == w && forall j | 0 <= j < |front| :: all[j] == front[j];
    var r := GrantOne(u, version, w);
    if r.Done? {
      AddsOneMore(s, version, front, w, u.bindings, r.value.bindings);
    } else {
      assert Permitted(s, all[|front|]) == Permitted(u, w);
    }
  }

  /* The update does just that. */

  lemma OneKeepsRows(s: Store, version: nat, w: Wish)
    ensures GrantOne(s, version, w).Done? ==> SameButBindings(s, GrantOne(s, version, w).value)
  {
  }

  lemma {:induction false} GrantKeepsRows(s: Store, version: nat, wishes: seq<Wish>)
    ensures Grant(s, version, wishes).Done? ==> SameButBindings(s, Grant(s, version, wishes).value)
  {
    if wishes == [] {
    } else {
      var n := |wishes| - 1;
      GrantKeepsRows(s, version, wishes[..n]);
      var earlier := Grant(s, version, wishes[..n]);
      if earlier.Done? { OneKeepsRows(earlier.value, version, wishes[n]); }
    }
  }

  lemma GrantUnfolds(s: Store, version: nat, front: seq<Wish>, w: Wish)
    ensures var earlier := Grant(s, version, front);
            Grant(s, version, front + [w]) ==
            if earlier.Refused? then earlier else GrantOne(earlier.value, version, w)
  {
    assert (front + [w])[..|front|] == front;
  }

  lemma {:induction false} GrantSplits(s: Store, version: nat, front: seq<Wish>, back: seq<Wish>)
    ensures var earlier := Grant(s, version, front);
            Grant(s, version, front + back) ==
            if earlier.Refused? then earlier else Grant(earlier.value, version, back)
    decreases |back|
  {
    if back == [] {
      assert front + back == front;
    } else {
      var n := |back| - 1;
      assert back == back[..n] + [back[n]] && front + back == (front + back[..n]) + [back[n]];
      GrantSplits(s, version, front, back[..n]);
      GrantUnfolds(s, version, front + back[..n], back[n]);
      var earlier := Grant(s, version, front);
      if earlier.Done? { GrantUnfolds(earlier.value, version, back[..n], back[n]); }
    }
  }

  lemma SameBinding(s: Store, u: Store, r: nat)
    requires SameButBindings(s, u)
    ensures Unbindable(u, r) == Unbindable(s, r)
    ensures Unbindable(s, r).None? ==> ServedRevision(u, r) == ServedRevision(s, r)
  {
  }

  lemma {:induction false} OperationsAreWishes(s: Store, version: nat, q: BindingRequest)
    requires Unbindable(s, q.scopeRevision).None?
    ensures BindOperations(s, version, q.scopeRevision, ServedRevision(s, q.scopeRevision), q.prefix, q.operations)
         == Grant(s, version, WishesOf(q))
    decreases |q.operations|
  {
    if q.operations == [] {
    } else {
      var n := |q.operations| - 1;
      var front := q.(operations := q.operations[..n]);
      var w := Wish(q.scopeRevision, q.prefix, q.operations[n]);
      assert WishesOf(q) == WishesOf(front) + [w];
      OperationsAreWishes(s, version, front);
      GrantUnfolds(s, version, WishesOf(front), w);
      GrantKeepsRows(s, version, WishesOf(front));
      var earlier := Grant(s, version, WishesOf(front));
      if earlier.Done? { SameBinding(s, earlier.value, q.scopeRevision); }
    }
  }

  predicate AllBindable(s: Store, requests: seq<BindingRequest>) {
    forall i | 0 <= i < |requests| :: Unbindable(s, requests[i].scopeRevision).None?
  }

  lemma LastRequest(s: Store, version: nat, front: seq<BindingRequest>, q: BindingRequest)
    requires Unbindable(s, q.scopeRevision).None?
    requires BindAll(s, version, front) == Grant(s, version, Wishes(front))
    ensures BindAll(s, version, front + [q]) == Grant(s, version, Wishes(front + [q]))
  {
    var requests := front + [q];
    assert requests[..|front|] == front;
    GrantSplits(s, version, Wishes(front), WishesOf(q));
    GrantKeepsRows(s, version, Wishes(front));
    var earlier := Grant(s, version, Wishes(front));
    if earlier.Done? {
      SameBinding(s, earlier.value, q.scopeRevision);
      OperationsAreWishes(earlier.value, version, q);
    }
  }

  /** Request `n` is the first whose scope revision may not be bound, and the update ends there or before. */
  ghost predicate EndsAt(s: Store, version: nat, requests: seq<BindingRequest>, n: nat) {
    && n < |requests| && AllBindable(s, requests[..n]) && Unbindable(s, requests[n].scopeRevision).Some?
    && var earlier := Grant(s, version, Wishes(requests[..n]));
       BindAll(s, version, requests) ==
       if earlier.Refused? then earlier else Refused(Unbindable(s, requests[n].scopeRevision).value)
  }

  lemma EndsEarlier(s: Store, version: nat, front: seq<BindingRequest>, q: BindingRequest, n: nat)
    requires EndsAt(s, version, front, n)
    ensures EndsAt(s, version, front + [q], n)
  {
    var requests := front + [q];
    assert requests[..n] == front[..n] && requests[n] == front[n] && requests[..|front|] == front;
  }

  /** The nested loops over requests and operations grant the wishes in order, up to the first request whose scope
      revision may not be bound. */
  lemma {:induction false} RequestsAreWishes(s: Store, version: nat, requests: seq<BindingRequest>)
    ensures if AllBindable(s, requests) then BindAll(s, version, requests) == Grant(s, version, Wishes(requests))
            else exists n: nat :: EndsAt(s, version, requests, n)
  {
    if requests == [] {
    } else {
      var n := |requests| - 1;
      var front, q := requests[..n], requests[n];
      assert requests == front + [q];
      RequestsAreWishes(s, version, front);
      assert AllBindable(s, requests) <==> AllBindable(s, front) && Unbindable(s, q.scopeRevision).None?;
      if AllBindable(s, requests) {
        LastRequest(s, version, front, q);
      } else if AllBindable(s, front) {
        assert EndsAt(s, version, requests, n);
      } else {
        var m: nat :| EndsAt(s, version, front, m);
        EndsEarlier(s, version, front, q, m);
      }
    }
  }

  /* What the caller gets. */

  lemma {:induction false} WishesAre(requests: seq<BindingRequest>, w: Wish)
    ensures w in Wishes(requests) <==>
            exists q :: q in requests && w.operation in q.operations
                        && w.scopeRevision == q.scopeRevision && w.prefix == q.prefix
  {
    if requests == [] {
    } else {
      var n := |requests| - 1;
      var front, q := requests[..n], requests[n];
      assert requests == front + [q];
      WishesAre(front, w);
      if w.operation in q.operations && w.scopeRevision == q.scopeRevision && w.prefix == q.prefix {
        var i :| 0 <= i < |q.operations| && q.operations[i] == w.operation;
        assert WishesOf(q)[i] == w;
      }
    }
  }

  lemma {:induction false} WishesOfPrefix(requests: seq<BindingRequest>, n: nat)
    requires n <= |requests|
    ensures Wishes(requests[..n]) <= Wishes(requests)
  {
    if n == |requests| {
      assert requests[..n] == requests;
    } else {
      var front := requests[..|requests| - 1];
      WishesOfPrefix(front, n);
      assert front[..n] == requests[..n];
    }
  }

  /** Why a scope revision is not offered. */
  predicate Withheld(s: Store, r: nat, reason: Refusal) {
    match reason
    case NoSuchRevision => r >= |s.scopeRevisions|
    case Outdated => r < |s.scopeRevisions| && s.scopeRevisions[r].owner < |s.scopes|
                     && s.scopes[s.scopeRevisions[r].owner].current != r
    case InstanceUnavailable =>
      r < |s.scopeRevisions| && s.scopeRevisions[r].owner < |s.scopes|
      && s.scopes[s.scopeRevisions[r].owner].instance < |s.instances|
      && var instance := s.instances[s.scopes[s.scopeRevisions[r].owner].instance];
         !instance.enabled || instance.health != Healthy
    case _ => false
  }

  ghost predicate SomeWithheld(s: Store, requests: seq<BindingRequest>, reason: Refusal) {
    exists q :: q in requests && !Offered(s, q.scopeRevision) && Withheld(s, q.scopeRevision, reason)
  }

  lemma WithheldIff(s: Store, r: nat)
    requires Inv(s)
    ensures Unbindable(s, r).Some? ==> !Offered(s, r) && Withheld(s, r, Unbindable(s, r).value)
  {
    BindableIff(s, r);
    if r < |s.scopeRevisions| {
      assert RevisionInv(s, r);
      assert UpToDate(s, s.scopeRevisions[r].owner);
    }
  }

  lemma RefusalHasCause(s: Store, version: nat, requests: seq<BindingRequest>, n: nat)
    requires Inv(s) && EndsAt(s, version, requests, n)
    ensures BindAll(s, version, requests).Refused?
    ensures var reason := BindAll(s, version, requests).reason;
            Causes(s, version, Wishes(requests), reason)
            || (!Offered(s, requests[n].scopeRevision) && Withheld(s, requests[n].scopeRevision, reason))
  {
    var front := requests[..n];
    WithheldIff(s, requests[n].scopeRevision);
    WishesAreOffered(s, front);
    GrantOutcome(s, version, Wishes(front));
    if Grant(s, version, Wishes(front)).Refused? {
      WishesOfPrefix(requests, n);
      CausesOfPrefix(s, version, Wishes(front), Wishes(requests), Grant(s, version, Wishes(front)).reason);
    }
  }

  lemma WishesAreOffered(s: Store, requests: seq<BindingRequest>)
    requires Inv(s) && AllBindable(s, requests)
    ensures forall w | w in Wishes(requests) :: Offered(s, w.scopeRevision)
  {
    forall w | w in Wishes(requests)
      ensures Offered(s, w.scopeRevision)
    {
      WishesAre(requests, w);
      var q :| q in requests && w.scopeRevision == q.scopeRevision;
      var i :| 0 <= i < |requests| && requests[i] == q;
      BindableIff(s, requests[i].scopeRevision);
    }
  }

  /** The rows that the wishes meet: the database bindings of the version are gone. */
  function Cleared(s: Store, version: nat): Store {
    s.(bindings := Preserved(s.bindings, version))
  }

  lemma ClearedKeepsInv(s: Store, version: nat)
    requires Inv(s)
    ensures Inv(Cleared(s, version))
    ensures forall r :: Offered(Cleared(s, version), r) <==> Offered(s, r)
    ensures forall alias :: AliasUsed(Cleared(s, version).bindings, version, alias) <==>
              exists b :: b in s.bindings && b.version == version && !b.target.Database? && b.alias == alias
  {
    var u := Cleared(s, version);
    PreservedIsFilter(s.bindings, version);
    forall b | b in u.bindings
      ensures Coherent(s, b)
    {
      var i :| 0 <= i < |s.bindings| && s.bindings[i] == b;
    }
    SameOffers(s, u);
    forall alias
      ensures AliasUsed(u.bindings, version, alias) <==>
              exists b :: b in s.bindings && b.version == version && !b.target.Database? && b.alias == alias
    {
      if b :| b in s.bindings && b.version == version && !b.target.Database? && b.alias == alias {
        var i :| 0 <= i < |u.bindings| && u.bindings[i] == b;
      }
      if i :| 0 <= i < |u.bindings| && u.bindings[i].version == version && u.bindings[i].alias == alias {
        assert u.bindings[i] in u.bindings;
      }
    }
  }

  /** An update succeeds exactly for a draft, when every scope revision is offered and nothing stands against any
      operation. It then adds exactly one binding for each operation to the bindings it keeps, in the order in which
      they were asked for; otherwise it names a cause that is there. */
  lemma UpdateOutcome(s: Store, version: nat, isDraft: bool, requests: seq<BindingRequest>)
    requires Inv(s)
    ensures var r := UpdateBindings(s, version, isDraft, requests);
            var kept := Cleared(s, version);
            && (r.Done? <==>
                  && isDraft
                  && (forall q | q in requests :: Offered(s, q.scopeRevision))
                  && AllGrantable(kept, version, Wishes(requests)))
            && (r.Done? ==> SameButBindings(s, r.value) && Adds(kept, version, Wishes(requests), r.value.bindings))
            && (r == Refused(NotDraft) <==> !isDraft)
            && (r.Refused? && isDraft ==>
                  || Causes(kept, version, Wishes(requests), r.reason)
                  || SomeWithheld(s, requests, r.reason))
  {
    var kept := Cleared(s, version);
    ClearedKeepsInv(s, version);
    RequestsAreWishes(kept, version, requests);
    AllOfferedIff(kept, requests);
    if AllBindable(kept, requests) {
      WishesAreOffered(kept, requests);
      GrantOutcome(kept, version, Wishes(requests));
    } else {
      var n: nat :| EndsAt(kept, version, requests, n);
      RefusalHasCause(kept, version, requests, n);
      assert requests[n] in requests;
    }
  }

  lemma AllOfferedIff(s: Store, requests: seq<BindingRequest>)
    requires Inv(s)
    ensures AllBindable(s, requests) <==> forall q | q in requests :: Offered(s, q.scopeRevision)
  {
    forall q | q in requests
      ensures Unbindable(s, q.scopeRevision).None? <==> Offered(s, q.scopeRevision)
    {
      BindableIff(s, q.scopeRevision);
    }
  }

  lemma WishIsBound(s: Store, version: nat, wishes: seq<Wish>, after: seq<Binding>, w: Wish)
    requires Adds(s, version, wishes, after) && w in wishes
    ensures exists b :: b in after && Fulfils(s, version, w, b)
  {
    var k :| 0 <= k < |wishes| && wishes[k] == w;
    assert after[|s.bindings| + k] in after && Fulfils(s, version, wishes[k], after[|s.bindings| + k]);
  }

  lemma BindingIsWished(s: Store, version: nat, wishes: seq<Wish>, after: seq<Binding>, b: Binding)
    requires Adds(s, version, wishes, after) && b in after && b !in s.bindings
    ensures exists w :: w in wishes && Fulfils(s, version, w, b)
  {
    var i :| 0 <= i < |after| && after[i] == b;
    assert forall j | 0 <= j < |s.bindings| :: after[j] in s.bindings;
    var k := i - |s.bindings|;
    assert wishes[k] in wishes && Fulfils(s, version, wishes[k], after[|s.bindings| + k]);
  }

  /** After a successful update every operation that was asked for is bound, and every database binding of the version
      is one of them. */
  lemma EveryOperationIsBound(s: Store, version: nat, isDraft: bool, requests: seq<BindingRequest>)
    requires Inv(s) && UpdateBindings(s, version, isDraft, requests).Done?
    ensures var t := UpdateBindings(s, version, isDraft, requests).value;
            && (forall q, o | q in requests && o in q.operations ::
                  exists b :: b in t.bindings && Fulfils(s, version, Wish(q.scopeRevision, q.prefix, o), b))
            && (forall b | b in t.bindings && b.version == version && b.target.Database? ::
                  exists w :: w in Wishes(requests) && Fulfils(s, version, w, b))
  {
    var kept := Cleared(s, version);
    var t := UpdateBindings(s, version, isDraft, requests).value;
    UpdateOutcome(s, version, isDraft, requests);
    PreservedIsFilter(s.bindings, version);
    SameFulfilment(s, kept, version);
    forall q, o | q in requests && o in q.operations
      ensures exists b :: b in t.bindings && Fulfils(s, version, Wish(q.scopeRevision, q.prefix, o), b)
    {
      WishesAre(requests, Wish(q.scopeRevision, q.prefix, o));
      WishIsBound(kept, version, Wishes(requests), t.bindings, Wish(q.scopeRevision, q.prefix, o));
    }
    forall b | b in t.bindings && b.version == version && b.target.Database?
      ensures exists w :: w in Wishes(requests) && Fulfils(s, version, w, b)
    {
      BindingIsWished(kept, version, Wishes(requests), t.bindings, b);
    }
  }

  lemma SameFulfilment(s: Store, u: Store, version: nat)
    requires SameButBindings(s, u)
    ensures forall w, b :: Fulfils(u, version, w, b) <==> Fulfils(s, version, w, b)
  {
  }
}
