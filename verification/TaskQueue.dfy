/** The Redis sorted set of task ids: priority bands, first come first served inside a band. */
module TaskQueue {
  import opened Options

  /** The width of a priority band, in milliseconds of the clock. */
  const BAND: real := 10000000000000.0

  /** What the first effective enqueue of a task asked for. */
  datatype Request = Request(priority: int, millis: real)

  function Score(request: Request): real {
    (9 - request.priority) as real * BAND + request.millis
  }

  /** Higher priority first, then the earlier request, then the smaller id. */
  predicate Precedes(a: Request, idA: nat, b: Request, idB: nat) {
    || a.priority > b.priority
    || (a.priority == b.priority && (a.millis < b.millis || (a.millis == b.millis && idA <= idB)))
  }

  /** Pop order: the smallest score, ties by id. */
  predicate Smaller(scoreA: real, idA: nat, scoreB: real, idB: nat) {
    scoreA < scoreB || (scoreA == scoreB && idA <= idB)
  }

  /** A higher priority pops first exactly when its request came less than a band per level later. */
  lemma PriorityDominates(a: Request, b: Request)
    requires a.priority > b.priority
    ensures Score(a) < Score(b) <==> a.millis - b.millis < (a.priority - b.priority) as real * BAND
  {
    var k := a.priority - b.priority;
    assert (9 - b.priority) as real == (9 - a.priority) as real + k as real;
    assert ((9 - a.priority) as real + k as real) * BAND == (9 - a.priority) as real * BAND + k as real * BAND;
  }

  predicate OnClock(request: Request) {
    0.0 <= request.millis < BAND
  }

  /** On a clock that stays below one band, scores order requests by priority and then by time. */
  lemma ScoreOrder(a: Request, idA: nat, b: Request, idB: nat)
    requires OnClock(a) && OnClock(b)
    ensures Smaller(Score(a), idA, Score(b), idB) <==> Precedes(a, idA, b, idB)
  {
    if a.priority > b.priority {
      PriorityDominates(a, b);
      assert (a.priority - b.priority) as real >= 1.0;
      assert (a.priority - b.priority) as real * BAND >= BAND;
    } else if a.priority < b.priority {
      PriorityDominates(b, a);
      assert (b.priority - a.priority) as real >= 1.0;
      assert (b.priority - a.priority) as real * BAND >= BAND;
    }
  }

  lemma {:induction false} SmallestExists(entries: map<nat, real>, ids: set<nat>) returns (first: nat)
    requires ids != {} && ids <= entries.Keys
    ensures first in ids && forall id | id in ids :: Smaller(entries[first], first, entries[id], id)
    decreases ids
  {
    first :| first in ids;
    var rest := ids - {first};
    assert forall id | id in ids :: id == first || id in rest;
    if rest != {} {
      var other := SmallestExists(entries, rest);
      var chosen := if Smaller(entries[first], first, entries[other], other) then first else other;
      forall id | id in ids
        ensures Smaller(entries[chosen], chosen, entries[id], id)
      {
        assert id == first || id in rest;
      }
      first := chosen;
    }
  }

  class Queue {
    var entries: map<nat, real>
    ghost var requests: map<nat, Request>

    ghost predicate Valid()
      reads this
    {
      requests.Keys == entries.Keys && forall id | id in entries :: entries[id] == Score(requests[id])
    }

    constructor ()
      ensures Valid() && requests == map[]
    {
      entries, requests := map[], map[];
    }

    /** Refuses a priority outside 0..9; a task that is queued already keeps its place. */
    method Enqueue(id: nat, priority: int, millis: real) returns (accepted: bool)
      requires Valid()
      modifies this
      ensures Valid() && (accepted <==> 0 <= priority <= 9)
      ensures requests == if accepted && id !in old(requests) then old(requests)[id := Request(priority, millis)]
                          else old(requests)
    {
      if !(0 <= priority <= 9) { return false; }
      var score := (9 - priority) as real * BAND + millis;
      if id !in entries {
        entries := entries[id := score];
        requests := requests[id := Request(priority, millis)];
      }
      return true;
    }

    /** Pops the task that was asked for with the highest priority, the earliest request first. */
    method Dequeue() returns (popped: Option<nat>)
      requires Valid()
      modifies this
      ensures Valid()
      ensures popped.None? <==> old(requests) == map[]
      ensures popped.None? ==> requests == old(requests)
      ensures popped.Some? ==>
                && popped.value in old(requests)
                && requests == old(requests) - {popped.value}
                && ((forall id | id in old(requests) :: OnClock(old(requests)[id])) ==>
                      forall id | id in old(requests) ::
                        Precedes(old(requests)[popped.value], popped.value, old(requests)[id], id))
    {
      if entries == map[] {
        assert requests.Keys == {};
        return None;
      }
      assert |entries| == |entries.Keys| && |entries| > 0;
      ghost var smallest := SmallestExists(entries, entries.Keys);
      var first :| first in entries && forall id | id in entries :: Smaller(entries[first], first, entries[id], id);
      if forall id | id in requests :: OnClock(requests[id]) {
        forall id | id in requests
          ensures Precedes(requests[first], first, requests[id], id)
        {
          ScoreOrder(requests[first], first, requests[id], id);
        }
      }
      entries := entries - {first};
      requests := requests - {first};
      return Some(first);
    }

    method Remove(id: nat)
      requires Valid()
      modifies this
      ensures Valid() && requests == old(requests) - {id}
    {
      entries := entries - {id};
      requests := requests - {id};
    }
  }
}
