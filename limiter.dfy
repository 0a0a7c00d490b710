/**
 * The cost-aware rate limiter of the HTTP transport (`AsyncLimiterTransport`).
 *
 * The transport keeps one integer, the remembered capacity of the server's
 * query-cost bucket. Each lock-protected block of the source is one atomic
 * method here. The background task that adds 10 points every 10 ms is what
 * wakes a blocked `acquire`; with a single request in flight, waiting means
 * letting that ticker run, so `Acquire` interleaves ticker steps until the
 * request fits. The server is a sequence of abstract responses.
 */
module Limiter {
  import opened Wrappers

  const MaxRetries: nat := 10
  const TotalCapacity: int := 20000
  const BackoffFactor: int := 3
  /** The cost paid in advance for the first attempt of every request. */
  const StartingQueryCost: int := 1000
  /** What the background ticker adds on each 10 ms step. */
  const TickAmount: int := 10

  function Min(a: int, b: int): int { if a <= b then a else b }

  function Pow(b: int, e: nat): int { if e == 0 then 1 else b * Pow(b, e - 1) }

  /** Capacity after one `add_capacity(amount)` step (the amount may be negative). */
  function AfterAdd(cap: int, amount: int): (r: int)
    ensures cap >= TotalCapacity ==> r == cap
    ensures cap < TotalCapacity ==> r <= TotalCapacity
    ensures cap < TotalCapacity && amount >= 0 ==> cap <= r
    ensures 0 <= amount <= TotalCapacity - cap ==> r == cap + amount
  {
    if cap < TotalCapacity then cap + Min(amount, TotalCapacity - cap) else cap
  }

  /**
   * Capacity at the moment a request for `cost` stops waiting: either it
   * fits, or the ticker can add nothing more and the request waits forever.
   */
  function AfterWait(cap: int, cost: int): (r: int)
    ensures r >= cost || r >= TotalCapacity
    ensures cap >= cost ==> r == cap
    ensures cap < cost ==> r <= if cap <= TotalCapacity then TotalCapacity else cap
    ensures cap < cost && r >= cost ==> r < cost + TickAmount
    decreases TotalCapacity - cap
  {
    if cap >= cost || cap >= TotalCapacity then cap
    else AfterWait(AfterAdd(cap, TickAmount), cost)
  }

  /** Capacity after `acquire(cost)` returns; `None` when it never returns. */
  function AfterAcquire(cap: int, cost: int): (r: Option<int>)
    ensures r.None? <==> cap < cost && cost > TotalCapacity
    ensures cap >= cost ==> r == Some(cap - cost)
    ensures r.Some? ==> r.value >= 0
    ensures cap < cost && r.Some? ==> r.value < TickAmount
  {
    var w := AfterWait(cap, cost);
    if w >= cost then Some(w - cost) else None
  }

  /** One response of the server, as `_get_query_cost` sees it. */
  datatype Outcome =
    | Throttled(requested: int, available: int)  // actualQueryCost is null
    | Succeeded(actual: int)                     // actualQueryCost is present
    | Unparsable                                 // the body is not JSON
    | MissingCost                                // JSON without a valid cost extension
    | TransportError                             // the wrapped transport raised

  datatype Handled =
    | Returned(attempt: nat)   // the response of this attempt is returned
    | Raised(attempt: nat)     // an exception of this attempt propagates
    | RetriesExhausted         // AsyncLimiterError
    | Blocked(attempt: nat)    // acquire of this attempt waits forever

  datatype Run = Run(result: Handled, capacity: int, sleeps: seq<int>)

  /**
   * The retry loop of `handle_async_request` from attempt `i` on, entered
   * with capacity `cap` and cost estimate `cost`.
   */
  function Attempts(cap: int, cost: int, i: nat, os: seq<Outcome>): Run
    requires |os| >= MaxRetries
    decreases MaxRetries - i
  {
    if i >= MaxRetries then Run(RetriesExhausted, cap, [])
    else match AfterAcquire(cap, cost)
      case None => Run(Blocked(i), AfterWait(cap, cost), [])
      case Some(c) =>
        match os[i]
        case Throttled(req, avail) =>
          var rest := Attempts(avail, req, i + 1, os);
          var wait := if i >= 1 then [Pow(BackoffFactor, i - 1)] else [];
          Run(rest.result, rest.capacity, wait + rest.sleeps)
        case Succeeded(actual) => Run(Returned(i), AfterAdd(c, StartingQueryCost - actual), [])
        case Unparsable => Run(Returned(i), c, [])
        case MissingCost => Run(Raised(i), c, [])
        case TransportError => Run(Raised(i), c, [])
  }

  /** The whole request: the retry loop from its initial state. */
  function HandleRequest(cap: int, os: seq<Outcome>): Run
    requires |os| >= MaxRetries
  {
    Attempts(cap, StartingQueryCost, 0, os)
  }

  /** Capacity on entry to attempt `k` of a run started at attempt `i`. */
  function CapacityBefore(cap: int, i: nat, os: seq<Outcome>, k: nat): int
    requires i <= k < |os|
  {
    if k == i then cap else if os[k - 1].Throttled? then os[k - 1].available else cap
  }

  /** Cost estimate used by attempt `k` of a run started at attempt `i`. */
  function CostBefore(cost: int, i: nat, os: seq<Outcome>, k: nat): int
    requires i <= k < |os|
  {
    if k == i then cost else if os[k - 1].Throttled? then os[k - 1].requested else cost
  }

  /** The waits between attempts when every attempt from `i` on is throttled. */
  function Backoffs(i: nat): seq<int>
    requires i <= MaxRetries
  {
    var first := if i >= 1 then i else 1;
    seq(MaxRetries - first, k requires 0 <= k < MaxRetries - first => Pow(BackoffFactor, first - 1 + k))
  }

  /** The loop, entered at attempt `i`, ended with `r`, and every attempt before the last was throttled. */
  ghost predicate EndsAt(i: nat, r: Handled, os: seq<Outcome>)
    requires |os| >= MaxRetries
  {
    match r
    case Returned(k) => i <= k < MaxRetries && (os[k].Succeeded? || os[k].Unparsable?)
      && forall j :: i <= j < k ==> os[j].Throttled?
    case Raised(k) => i <= k < MaxRetries && (os[k].MissingCost? || os[k].TransportError?)
      && forall j :: i <= j < k ==> os[j].Throttled?
    case Blocked(k) => i <= k < MaxRetries && forall j :: i <= j < k ==> os[j].Throttled?
    case RetriesExhausted => forall j :: i <= j < MaxRetries ==> os[j].Throttled?
  }

  /** Every attempt before the one that ends the loop was throttled. */
  lemma {:induction false} EndsAfterThrottles(cap: int, cost: int, i: nat, os: seq<Outcome>)
    requires |os| >= MaxRetries
    ensures EndsAt(i, Attempts(cap, cost, i, os).result, os)
    decreases MaxRetries - i
  {
    if i < MaxRetries && AfterAcquire(cap, cost).Some? && os[i].Throttled? {
      ThrottledNext(cap, cost, i, os);
      EndsAfterThrottles(os[i].available, os[i].requested, i + 1, os);
      EndsAtExtends(i, Attempts(cap, cost, i, os).result, os);
    }
  }

  /** A throttled attempt in front of a run keeps its ending condition. */
  lemma {:induction false} EndsAtExtends(i: nat, r: Handled, os: seq<Outcome>)
    requires |os| >= MaxRetries && i < MaxRetries && os[i].Throttled? && EndsAt(i + 1, r, os)
    ensures EndsAt(i, r, os)
  {
  }

  /**
   * Ten throttled responses in a row raise AsyncLimiterError after waits of
   * 1, 3, 9, ... seconds, provided no cost estimate exceeds the bucket.
   */
  lemma {:induction false} AllThrottledExhausts(cap: int, cost: int, i: nat, os: seq<Outcome>)
    requires |os| >= MaxRetries && i <= MaxRetries
    requires cost <= TotalCapacity
    requires forall j :: i <= j < MaxRetries ==> os[j].Throttled? && os[j].requested <= TotalCapacity
    ensures Attempts(cap, cost, i, os).result == RetriesExhausted
    ensures Attempts(cap, cost, i, os).sleeps == Backoffs(i)
    decreases MaxRetries - i
  {
    if i < MaxRetries {
      AllThrottledExhausts(os[i].available, os[i].requested, i + 1, os);
      ThrottledNext(cap, cost, i, os);
      BackoffsCons(i);
    }
  }

  /** The waits from attempt `i` on: the one after attempt `i`, if any, then the rest. */
  lemma {:induction false} BackoffsCons(i: nat)
    requires i < MaxRetries
    ensures Backoffs(i) == (if i >= 1 then [Pow(BackoffFactor, i - 1)] else []) + Backoffs(i + 1)
  {
    var wait: seq<int> := if i >= 1 then [Pow(BackoffFactor, i - 1)] else [];
    assert |wait + Backoffs(i + 1)| == |Backoffs(i)|;
    forall k | 0 <= k < |Backoffs(i)| ensures Backoffs(i)[k] == (wait + Backoffs(i + 1))[k] {
      if i >= 1 && k >= 1 {
        assert (wait + Backoffs(i + 1))[k] == Backoffs(i + 1)[k - 1];
      }
    }
  }

  /**
   * A successful attempt refunds `1000 - actualQueryCost` to the capacity left
   * by its own `acquire`, whatever cost estimate that acquire used.
   */
  lemma {:induction false} RefundAgainstStartingCost(cap: int, cost: int, i: nat, os: seq<Outcome>, k: nat)
    requires |os| >= MaxRetries && i <= k < MaxRetries
    requires Attempts(cap, cost, i, os).result == Returned(k) && os[k].Succeeded?
    ensures AfterAcquire(CapacityBefore(cap, i, os, k), CostBefore(cost, i, os, k)).Some?
    ensures Attempts(cap, cost, i, os).capacity ==
      AfterAdd(AfterAcquire(CapacityBefore(cap, i, os, k), CostBefore(cost, i, os, k)).value,
               StartingQueryCost - os[k].actual)
    decreases MaxRetries - i
  {
    if i < k {
      var c := AfterAcquire(cap, cost);
      assert c.Some? && os[i].Throttled?;
      RefundAgainstStartingCost(os[i].available, os[i].requested, i + 1, os, k);
      if k > i + 1 {
        assert os[k - 1].Throttled? by {
          EndsAfterThrottles(cap, cost, i, os);
          assert EndsAt(i, Returned(k), os);
        }
      }
    }
  }

  /**
   * After a throttled response the capacity is overwritten with the server's
   * `currentlyAvailable`: once the acquire succeeds, the capacity held before
   * that attempt influences nothing, neither the outcome, the final capacity
   * nor the back-off sleeps.
   */
  lemma {:induction false} ThrottleOverwritesCapacity(c1: int, c2: int, cost: int, i: nat, os: seq<Outcome>)
    requires |os| >= MaxRetries && i < MaxRetries && os[i].Throttled?
    requires AfterAcquire(c1, cost).Some? && AfterAcquire(c2, cost).Some?
    ensures Attempts(c1, cost, i, os) == Attempts(c2, cost, i, os)
    ensures Attempts(c1, cost, i, os).result == Attempts(os[i].available, os[i].requested, i + 1, os).result
  {
    ThrottledNext(c1, cost, i, os);
    ThrottledNext(c2, cost, i, os);
  }

  /** A granted, throttled attempt waits, then hands on to the next attempt. */
  lemma {:induction false} ThrottledNext(cap: int, cost: int, i: nat, os: seq<Outcome>)
    requires |os| >= MaxRetries && i < MaxRetries
    requires AfterAcquire(cap, cost).Some? && os[i].Throttled?
    ensures var here := Attempts(cap, cost, i, os);
      var rest := Attempts(os[i].available, os[i].requested, i + 1, os);
      here.result == rest.result && here.capacity == rest.capacity &&
      here.sleeps == (if i >= 1 then [Pow(BackoffFactor, i - 1)] else []) + rest.sleeps
  {
  }

  /** `add_capacity` never lifts the capacity above the bucket size. */
  lemma {:induction false} AddNeverExceedsTotal(cap: int, amount: int)
    requires cap <= TotalCapacity
    ensures AfterAdd(cap, amount) <= TotalCapacity
  {
  }

  class LimiterTransport {
    var currentCapacity: int

    constructor ()
      ensures currentCapacity == TotalCapacity
    {
      currentCapacity := TotalCapacity;
    }

    /** The locked block of `acquire`: take `cost` if it fits, else change nothing. */
    method AcquireStep(cost: int) returns (granted: bool)
      modifies this
      ensures granted == (old(currentCapacity) >= cost)
      ensures currentCapacity == if granted then old(currentCapacity) - cost else old(currentCapacity)
      ensures old(currentCapacity) >= 0 ==> currentCapacity >= 0
    {
      granted := currentCapacity >= cost;
      if granted {
        currentCapacity := currentCapacity - cost;
      }
    }

    /** `add_capacity`; `increased` is whether waiters are notified. */
    method AddCapacity(amount: int) returns (increased: bool)
      modifies this
      ensures increased == (old(currentCapacity) < TotalCapacity)
      ensures currentCapacity == AfterAdd(old(currentCapacity), amount)
    {
      if currentCapacity < TotalCapacity {
        currentCapacity := currentCapacity + Min(amount, TotalCapacity - currentCapacity);
        increased := true;
      } else {
        increased := false;
      }
    }

    /** `sync_with_server`: overwrite, not add. */
    method SyncWithServer(serverCurrentlyAvailable: int)
      modifies this
      ensures currentCapacity == serverCurrentlyAvailable
    {
      currentCapacity := serverCurrentlyAvailable;
    }

    /**
     * `acquire`: try the locked block; while it fails, the ticker adds
     * capacity and wakes the request. `granted` is false exactly when no
     * ticker step can make the request fit, so the source waits forever.
     */
    method Acquire(cost: int) returns (granted: bool, ticks: nat)
      modifies this
      ensures AfterAcquire(old(currentCapacity), cost) == if granted then Some(currentCapacity) else None
      ensures !granted ==> currentCapacity == AfterWait(old(currentCapacity), cost)
      ensures ticks == 0 <==> old(currentCapacity) >= cost || old(currentCapacity) >= TotalCapacity
    {
      ghost var start := currentCapacity;
      granted := AcquireStep(cost);
      ticks := 0;
      while !granted && currentCapacity < TotalCapacity
        invariant granted ==> AfterWait(start, cost) >= cost && currentCapacity == AfterWait(start, cost) - cost
        invariant !granted ==> currentCapacity < cost && AfterWait(currentCapacity, cost) == AfterWait(start, cost)
        invariant ticks == 0 <==> start >= cost || (!granted && currentCapacity == start)
        invariant ticks == 0 && !granted ==> currentCapacity == start
        decreases if granted then 0 else 1, TotalCapacity - currentCapacity
      {
        var _ := AddCapacity(TickAmount);
        ticks := ticks + 1;
        granted := AcquireStep(cost);
      }
    }

    /**
     * `handle_async_request`: the retry loop over the server's responses;
     * `sleeps` are the backoff waits in seconds, in order.
     */
    method HandleAsyncRequest(os: seq<Outcome>) returns (result: Handled, sleeps: seq<int>)
      requires |os| >= MaxRetries
      modifies this
      ensures HandleRequest(old(currentCapacity), os) == Run(result, currentCapacity, sleeps)
    {
      ghost var start := currentCapacity;
      var retries := MaxRetries;
      var requestedQueryCost := StartingQueryCost;
      var backoffWaitTime := 1;
      sleeps := [];
      while retries > 0
        invariant 0 <= retries <= MaxRetries
        invariant backoffWaitTime == Pow(BackoffFactor, if retries < MaxRetries then MaxRetries - retries - 1 else 0)
        invariant var rest := Attempts(currentCapacity, requestedQueryCost, MaxRetries - retries, os);
          HandleRequest(start, os) == Run(rest.result, rest.capacity, sleeps + rest.sleeps)
      {
        var attempt := MaxRetries - retries;
        ghost var before := currentCapacity;
        var granted, _ := Acquire(requestedQueryCost);
        if !granted {
          result := Blocked(attempt);
          return;
        }
        match os[attempt]
        case Throttled(requested, available) =>
          ThrottledNext(before, requestedQueryCost, attempt, os);
          ghost var rest := Attempts(available, requested, attempt + 1, os);
          requestedQueryCost := requested;
          SyncWithServer(available);
          retries := retries - 1;
          if retries < MaxRetries - 1 {
            assert sleeps + ([backoffWaitTime] + rest.sleeps) == (sleeps + [backoffWaitTime]) + rest.sleeps;
            sleeps := sleeps + [backoffWaitTime];
            backoffWaitTime := backoffWaitTime * BackoffFactor;
          }
        case Succeeded(actual) =>
          var _ := AddCapacity(StartingQueryCost - actual);
          result := Returned(attempt);
          return;
        case Unparsable =>
          result := Returned(attempt);
          return;
        case MissingCost =>
          result := Raised(attempt);
          return;
        case TransportError =>
          result := Raised(attempt);
          return;
      }
      result := RetriesExhausted;
    }
  }
}
