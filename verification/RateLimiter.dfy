/** The shared fixed-window rate limit: one expiring counter per client and minute. */
module RateLimiter {

  datatype Request = Request(client: string, at: real)

  /** A counter and the moment it expires. */
  datatype Counter = Counter(count: nat, expiresAt: real)

  /** The minute a moment falls in: the timestamp cut to whole seconds, divided by sixty. */
  function Window(at: real): int {
    at.Floor / 60
  }

  /** The moment window `w` is over. */
  function End(w: int): real {
    60.0 * w as real + 60.0
  }

  function RetryAfter(at: real): int {
    var rest := 60 - at.Floor % 60;
    if rest > 1 then rest else 1
  }

  /** How many requests of `client` the history holds in window `w`. */
  function Rank(history: seq<Request>, client: string, w: int): nat {
    if history == [] then 0
    else
      var last := history[|history| - 1];
      Rank(history[..|history| - 1], client, w) + if last.client == client && Window(last.at) == w then 1 else 0
  }

  /** The requests of `client` in window `w`, by their places in the history. */
  function PlacesOf(history: seq<Request>, client: string, w: int): set<nat> {
    set i: nat | i < |history| && history[i].client == client && Window(history[i].at) == w
  }

  /** The rank counts them. */
  lemma {:induction false} RankCounts(history: seq<Request>, client: string, w: int)
    ensures Rank(history, client, w) == |PlacesOf(history, client, w)|
  {
    if history == [] {
    } else {
      var n := |history| - 1;
      RankCounts(history[..n], client, w);
      var here := history[n].client == client && Window(history[n].at) == w;
      assert PlacesOf(history, client, w) == PlacesOf(history[..n], client, w) + if here then {n} else {};
    }
  }

  predicate Ordered(history: seq<Request>) {
    forall i, j | 0 <= i < j < |history| :: history[i].at <= history[j].at
  }

  lemma WindowSpan(at: real)
    requires at >= 0.0
    ensures Window(at) >= 0
    ensures End(Window(at)) - 60.0 <= at < End(Window(at))
  {
    var f := at.Floor;
    assert f as real <= at < f as real + 1.0;
    assert f == 60 * (f / 60) + f % 60;
    assert (60 * (f / 60)) as real == 60.0 * (f / 60) as real;
    assert (60 * (f / 60) + 60) as real == 60.0 * (f / 60) as real + 60.0;
  }

  lemma WindowMonotone(a: real, b: real)
    requires 0.0 <= a <= b
    ensures Window(a) <= Window(b)
  {
    WindowSpan(a);
    WindowSpan(b);
  }

  lemma AddSeconds(at: real, k: int)
    ensures (at + k as real).Floor == at.Floor + k
  {
  }

  /** Waiting `RetryAfter` seconds leads into the next window, and one second less does not. */
  lemma RetryAfterIsTight(at: real)
    requires at >= 0.0
    ensures 1 <= RetryAfter(at) <= 60
    ensures Window(at + RetryAfter(at) as real) == Window(at) + 1
    ensures Window(at + (RetryAfter(at) - 1) as real) == Window(at)
  {
    AddSeconds(at, RetryAfter(at));
    AddSeconds(at, RetryAfter(at) - 1);
    var f := at.Floor;
    assert f + (60 - f % 60) == 60 * (f / 60 + 1);
    assert f + (59 - f % 60) == 60 * (f / 60) + 59;
  }

  /* The counters. */

  /** The counter of a window is exact and outlives the window. */
  ghost predicate Exact(counters: map<(string, int), Counter>, history: seq<Request>, client: string, w: int) {
    var n := Rank(history, client, w);
    && ((client, w) in counters <==> n > 0)
    && (n > 0 ==> counters[(client, w)].count == n && counters[(client, w)].expiresAt >= End(w))
  }

  /** Every window that is not over yet has an exact counter. */
  ghost predicate Agrees(counters: map<(string, int), Counter>, history: seq<Request>, now: real) {
    forall client: string, w: int | now < End(w) :: Exact(counters, history, client, w)
  }

  /** The requests so far, in order, none of them after `clock`. */
  ghost predicate Past(history: seq<Request>, clock: real) {
    && clock >= 0.0 && Ordered(history)
    && forall i | 0 <= i < |history| :: 0.0 <= history[i].at <= clock
  }

  function Incremented(counters: map<(string, int), Counter>, key: (string, int), now: real): Counter {
    if key in counters && now < counters[key].expiresAt then counters[key].(count := counters[key].count + 1)
    else Counter(1, now + 60.0)
  }

  lemma IncrementAgrees(counters: map<(string, int), Counter>, history: seq<Request>, last: real, r: Request)
    requires Agrees(counters, history, last) && 0.0 <= last <= r.at
    ensures var key := (r.client, Window(r.at));
            var c := Incremented(counters, key, r.at);
            && c.count == Rank(history + [r], r.client, Window(r.at))
            && Agrees(counters[key := c], history + [r], r.at)
  {
    var w := Window(r.at);
    WindowSpan(r.at);
    var key := (r.client, w);
    var c := Incremented(counters, key, r.at);
    var h := history + [r];
    assert h[..|h| - 1] == history;
    assert Exact(counters, history, r.client, w);
    var after := counters[key := c];
    forall client: string, v: int | r.at < End(v)
      ensures Exact(after, h, client, v)
    {
      assert Exact(counters, history, client, v);
    }
  }

  lemma ExpiryAgrees(counters: map<(string, int), Counter>, history: seq<Request>, last: real, now: real)
    requires Agrees(counters, history, last) && last <= now
    ensures Agrees(Live(counters, now), history, now)
  {
    var after := Live(counters, now);
    forall client: string, v: int | now < End(v)
      ensures Exact(after, history, client, v)
    {
      assert Exact(counters, history, client, v);
    }
  }

  /** The counters whose time is not up. */
  function Live(counters: map<(string, int), Counter>, now: real): map<(string, int), Counter> {
    map key | key in counters && now < counters[key].expiresAt :: counters[key]
  }

  lemma PastGrows(history: seq<Request>, last: real, r: Request)
    requires Past(history, last) && last <= r.at
    ensures Past(history + [r], r.at)
  {
  }

  class Limiter {
    var counters: map<(string, int), Counter>
    ghost var history: seq<Request>
    ghost var clock: real

    ghost predicate Valid()
      reads this
    {
      Past(history, clock) && Agrees(counters, history, clock)
    }

    constructor ()
      ensures Valid() && history == [] && clock == 0.0
    {
      counters, history, clock := map[], [], 0.0;
    }

    /** The increment and the first expiry are one atomic script. A request is allowed exactly when it is among
        the first `limit` of its client and window. */
    method Enforce(client: string, limit: int, now: real) returns (allowed: bool, remaining: int, retryAfter: int)
      requires Valid() && clock <= now
      modifies this
      ensures Valid() && clock == now && history == old(history) + [Request(client, now)]
      ensures allowed <==> Rank(history, client, Window(now)) <= limit
      ensures remaining == (if allowed then limit - Rank(history, client, Window(now)) else 0)
      ensures retryAfter == RetryAfter(now)
    {
      var key := (client, Window(now));
      ghost var request := Request(client, now);
      IncrementAgrees(counters, history, clock, request);
      PastGrows(history, clock, request);
      var counter := Incremented(counters, key, now);
      counters := counters[key := counter];
      history := history + [request];
      clock := now;
      retryAfter := RetryAfter(now);
      allowed := counter.count <= limit;
      remaining := if limit - counter.count > 0 then limit - counter.count else 0;
    }

    /** The store drops counters whose time is up. No window that is still open loses its counter. */
    method Expire(now: real)
      requires Valid() && clock <= now
      modifies `counters, `clock
      ensures Valid() && clock == now
      ensures counters == Live(old(counters), now)
    {
      ExpiryAgrees(counters, history, clock, now);
      counters := Live(counters, now);
      clock := now;
    }
  }

  /* Whole histories. */

  /** The last request of a non-empty history is let through. */
  predicate LastAllowed(history: seq<Request>, limit: int)
    requires history != []
  {
    var last := history[|history| - 1];
    Rank(history, last.client, Window(last.at)) <= limit
  }

  /** How many requests of `client` in window `w` were let through. */
  function AllowedIn(history: seq<Request>, client: string, w: int, limit: int): nat {
    if history == [] then 0
    else
      var last := history[|history| - 1];
      AllowedIn(history[..|history| - 1], client, w, limit)
      + if last.client == client && Window(last.at) == w && LastAllowed(history, limit) then 1 else 0
  }

  /** How many requests of `client` made in the 60 seconds from `start` were let through. */
  function AllowedFrom(history: seq<Request>, client: string, start: real, limit: int): nat {
    if history == [] then 0
    else
      var last := history[|history| - 1];
      AllowedFrom(history[..|history| - 1], client, start, limit)
      + if last.client == client && start <= last.at <= start + 60.0 && LastAllowed(history, limit) then 1 else 0
  }

  function Least(a: int, b: int): int {
    if a < b then a else b
  }

  /** Exactly the first `limit` requests of a window are let through. */
  lemma {:induction false} FirstOnesAllowed(history: seq<Request>, client: string, w: int, limit: nat)
    ensures AllowedIn(history, client, w, limit) == Least(Rank(history, client, w), limit)
  {
    if history == [] {
    } else {
      FirstOnesAllowed(history[..|history| - 1], client, w, limit);
    }
  }

  lemma {:induction false} SpanCoversTwoWindows(history: seq<Request>, client: string, start: real, limit: nat)
    requires start >= 0.0
    ensures AllowedFrom(history, client, start, limit)
         <= AllowedIn(history, client, Window(start), limit) + AllowedIn(history, client, Window(start) + 1, limit)
  {
    if history == [] {
    } else {
      SpanCoversTwoWindows(history[..|history| - 1], client, start, limit);
      var last := history[|history| - 1];
      if start <= last.at <= start + 60.0 {
        WindowMonotone(start, last.at);
        WindowMonotone(last.at, start + 60.0);
        AddSeconds(start, 60);
        assert Window(start + 60.0) == Window(start) + 1;
      }
    }
  }

  /** No 60 seconds let more than twice the limit through, wherever they start. */
  lemma AtMostTwiceTheLimit(history: seq<Request>, client: string, start: real, limit: nat)
    requires start >= 0.0
    ensures AllowedFrom(history, client, start, limit) <= 2 * limit
  {
    SpanCoversTwoWindows(history, client, start, limit);
    FirstOnesAllowed(history, client, Window(start), limit);
    FirstOnesAllowed(history, client, Window(start) + 1, limit);
  }

  function Repeated(r: Request, n: nat): seq<Request> {
    if n == 0 then [] else Repeated(r, n - 1) + [r]
  }

  /** `n` requests at `at`, after a history without requests of that client in that window. */
  lemma {:induction false} BurstAllowed(history: seq<Request>, r: Request, n: nat, limit: nat, start: real)
    requires Rank(history, r.client, Window(r.at)) == 0 && n <= limit && start <= r.at <= start + 60.0
    ensures AllowedFrom(history + Repeated(r, n), r.client, start, limit) ==
            AllowedFrom(history, r.client, start, limit) + n
    ensures Rank(history + Repeated(r, n), r.client, Window(r.at)) == n
    ensures forall w | w != Window(r.at) :: Rank(history + Repeated(r, n), r.client, w) == Rank(history, r.client, w)
  {
    if n == 0 {
      assert history + Repeated(r, n) == history;
    } else {
      BurstAllowed(history, r, n - 1, limit, start);
      var h := history + Repeated(r, n);
      assert h[..|h| - 1] == history + Repeated(r, n - 1);
      assert h[|h| - 1] == r;
    }
  }

  /** The bound is reached: around a change of minute, twice the limit passes within one second. */
  lemma TwiceTheLimitIsReached(client: string, limit: nat)
    ensures var burst := Repeated(Request(client, 59.0), limit) + Repeated(Request(client, 60.0), limit);
            Ordered(burst) && |burst| == 2 * limit && AllowedFrom(burst, client, 59.0, limit) == 2 * limit
  {
    var early, late := Request(client, 59.0), Request(client, 60.0);
    BurstsOrdered(early, late, limit);
    BurstsAllowed(early, late, limit);
  }

  lemma BurstsOrdered(early: Request, late: Request, n: nat)
    requires early.at <= late.at
    ensures Ordered(Repeated(early, n) + Repeated(late, n)) && |Repeated(early, n) + Repeated(late, n)| == 2 * n
  {
    RepeatedAt(early, n);
    RepeatedAt(late, n);
  }

  lemma BurstsAllowed(early: Request, late: Request, limit: nat)
    requires early.client == late.client && Window(early.at) != Window(late.at)
             && early.at <= late.at <= early.at + 60.0
    ensures AllowedFrom(Repeated(early, limit) + Repeated(late, limit), early.client, early.at, limit) == 2 * limit
  {
    var first := Repeated(early, limit);
    BurstAllowed([], early, limit, limit, early.at);
    assert [] + first == first;
    assert Rank([], early.client, Window(late.at)) == 0;
    BurstAllowed(first, late, limit, limit, early.at);
  }

  lemma {:induction false} RepeatedAt(r: Request, n: nat)
    ensures |Repeated(r, n)| == n && forall i | 0 <= i < n :: Repeated(r, n)[i] == r
  {
    if n == 0 {
    } else {
      RepeatedAt(r, n - 1);
    }
  }
}
