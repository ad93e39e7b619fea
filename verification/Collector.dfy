/** The collector's resilience core (ingestion/base_collector.py): circuit breaker, retries, quota and
    dead letters. Clock readings and the outcome of each fetch are inputs. */
module Collector {
  import opened Options
  import opened TokenBuckets

  // ----- the circuit breaker as a value

  datatype CircuitState = Closed | Open | HalfOpen

  datatype Breaker = Breaker(state: CircuitState, failures: nat, openedAt: real)

  datatype Limits = Limits(failureThreshold: int, resetTimeout: real, maxRetries: int)

  const FRESH := Breaker(Closed, 0, 0.0)

  /** Reading the state lets an open circuit half-open once the timeout has passed. */
  function Current(c: Limits, b: Breaker, now: real): Breaker
  {
    if b.state.Open? && now - b.openedAt >= c.resetTimeout then b.(state := HalfOpen) else b
  }

  function Succeeded(b: Breaker): Breaker
  {
    b.(state := Closed, failures := 0)
  }

  function Failed(c: Limits, b: Breaker, now: real): Breaker
  {
    if b.failures + 1 >= c.failureThreshold then Breaker(Open, b.failures + 1, now) else b.(failures := b.failures + 1)
  }

  /** The circuit is closed exactly while the failures stay below the threshold. */
  ghost predicate Counting(c: Limits, b: Breaker)
  {
    b.state.Closed? <==> b.failures < c.failureThreshold
  }

  /** A fresh breaker counts right exactly when the threshold is positive. */
  lemma CountingIsKept(c: Limits, b: Breaker, now: real)
    ensures Counting(c, FRESH) <==> c.failureThreshold >= 1
    ensures Counting(c, b) ==> Counting(c, Current(c, b, now)) && Counting(c, Failed(c, b, now))
    ensures c.failureThreshold >= 1 ==> Counting(c, Succeeded(b))
  {
  }

  /** One failure while probing opens the circuit again. */
  lemma ProbeFailureReopens(c: Limits, b: Breaker, now: real)
    requires Counting(c, b) && b.state.HalfOpen?
    ensures Failed(c, b, now) == Breaker(Open, b.failures + 1, now)
    ensures c.resetTimeout > 0.0 ==> Current(c, Failed(c, b, now), now).state.Open?
  {
  }

  class CircuitBreaker {
    const limits: Limits
    var breaker: Breaker

    constructor (limits: Limits)
      ensures this.limits == limits && breaker == FRESH
    {
      this.limits, breaker := limits, FRESH;
    }

    method CurrentState(now: real) returns (state: CircuitState)
      modifies this
      ensures breaker == Current(limits, old(breaker), now) && state == breaker.state
    {
      if breaker.state == Open && now - breaker.openedAt >= limits.resetTimeout {
        breaker := breaker.(state := HalfOpen);
      }
      return breaker.state;
    }

    method Allow(now: real) returns (ok: bool)
      modifies this
      ensures breaker == Current(limits, old(breaker), now) && (ok <==> !breaker.state.Open?)
    {
      var state := CurrentState(now);
      return state != Open;
    }

    method RecordSuccess()
      modifies this
      ensures breaker == Succeeded(old(breaker))
    {
      breaker := breaker.(failures := 0);
      breaker := breaker.(state := Closed);
    }

    method RecordFailure(now: real)
      modifies this
      ensures breaker == Failed(limits, old(breaker), now)
    {
      breaker := breaker.(failures := breaker.failures + 1);
      if breaker.failures >= limits.failureThreshold {
        breaker := breaker.(state := Open, openedAt := now);
      }
    }
  }

  // ----- one collect as a value

  datatype Fetch = Returns(items: seq<string>) | Raises(error: string)

  /** A fetch that would start at `start`; the clock at the failure and at the check that follows. */
  datatype Attempt = Attempt(start: real, fetch: Fetch, failed: real, checked: real)

  datatype Event = FetchStarted(at: real) | FetchReturned | FetchFailed(at: real) | Opened(at: real)

  /** What the retry loop leaves: the breaker, the items if any, the last error, what happened, and
      the last reading of the clock. */
  datatype Loop = Loop(breaker: Breaker, items: Option<seq<string>>, error: Option<string>, events: seq<Event>,
                       ended: real)

  function SuccessEvents(a: Attempt): seq<Event>
  {
    [FetchStarted(a.start), FetchReturned]
  }

  /** A failure, and the opening it is noted with when it leaves the circuit open. */
  function FailureEvents(c: Limits, b: Breaker, a: Attempt): seq<Event>
  {
    [FetchStarted(a.start), FetchFailed(a.failed)]
      + if Failed(c, b, a.failed).state.Open? then [Opened(a.failed)] else []
  }

  /** The retry loop from attempt k on, when the clock last read `now`. */
  function Retry(c: Limits, b: Breaker, now: real, error: Option<string>, attempts: seq<Attempt>, k: nat): Loop
    requires k <= |attempts| && c.maxRetries <= |attempts|
    decreases |attempts| - k
  {
    if k >= c.maxRetries then
      Loop(b, None, error, [], now)
    else
      var a := attempts[k];
      match a.fetch
      case Returns(items) => Loop(Succeeded(b), Some(items), error, SuccessEvents(a), a.start)
      case Raises(err) =>
        var failed := Failed(c, b, a.failed);
        var checked := Current(c, failed, a.checked);
        var events := FailureEvents(c, b, a);
        if k + 1 == c.maxRetries then Loop(failed, None, Some(err), events, a.failed)
        else if checked.state.Open? then Loop(checked, None, Some(err), events, a.checked)
        else
          var rest := Retry(c, checked, a.checked, Some(err), attempts, k + 1);
          rest.(events := events + rest.events)
  }

  /** The clock at the quota check and at the circuit check, and what the fetches would do. */
  datatype Call = Call(consumed: real, allowed: real, attempts: seq<Attempt>)

  datatype Outcome = QuotaRefused | CircuitRefused | Collected(items: seq<string>) | DeadLettered(error: Option<string>)

  datatype State = State(breaker: Breaker, level: Level)

  datatype Result = Result(state: State, outcome: Outcome, events: seq<Event>, ended: real)

  function CollectOnce(c: Limits, r: Rate, s: State, call: Call): Result
    requires c.maxRetries <= |call.attempts|
  {
    var e := TokenBuckets.Event(call.consumed, 1.0);
    var level := After(r, s.level, e);
    var checked := Current(c, s.breaker, call.allowed);
    if !Granted(r, s.level, e) then Result(State(s.breaker, level), QuotaRefused, [], call.consumed)
    else if checked.state.Open? then Result(State(checked, level), CircuitRefused, [], call.allowed)
    else
      var loop := Retry(c, checked, call.allowed, None, call.attempts, 0);
      var outcome := if loop.items.Some? then Collected(loop.items.value) else DeadLettered(loop.error);
      Result(State(loop.breaker, level), outcome, loop.events, loop.ended)
  }

  // ----- how many fetches

  function Fetches(events: seq<Event>): nat
  {
    if events == [] then 0 else Fetches(events[..|events| - 1]) + (if events[|events| - 1].FetchStarted? then 1 else 0)
  }

  lemma {:induction false} FetchesConcat(xs: seq<Event>, ys: seq<Event>)
    ensures Fetches(xs + ys) == Fetches(xs) + Fetches(ys)
    decreases |ys|
  {
    if ys == [] {
      assert xs + ys == xs;
    } else {
      var k := |ys| - 1;
      FetchesConcat(xs, ys[..k]);
      assert (xs + ys)[..|xs + ys| - 1] == xs + ys[..k];
    }
  }

  lemma FetchesSnoc(xs: seq<Event>, e: Event)
    ensures Fetches(xs + [e]) == Fetches(xs) + (if e.FetchStarted? then 1 else 0)
  {
    assert (xs + [e])[..|xs|] == xs;
  }

  lemma OneFetch(c: Limits, b: Breaker, a: Attempt)
    ensures Fetches(FailureEvents(c, b, a)) == 1 && Fetches(SuccessEvents(a)) == 1
  {
    var started, failed := [FetchStarted(a.start)], FetchFailed(a.failed);
    FetchesSnoc([], FetchStarted(a.start));
    assert [] + started == started;
    FetchesSnoc(started, FetchReturned);
    FetchesSnoc(started, failed);
    FetchesSnoc(started + [failed], Opened(a.failed));
    assert SuccessEvents(a) == started + [FetchReturned];
    if Failed(c, b, a.failed).state.Open? {
      assert FailureEvents(c, b, a) == started + [failed] + [Opened(a.failed)];
    } else {
      assert FailureEvents(c, b, a) == started + [failed];
    }
  }

  /** From attempt k on, the attempts before n are made, at most `limit` of them in all: all but the last
      one raise, and items or error are those of the last one, or the first error if there is none. */
  ghost predicate Fetched(limit: int, attempts: seq<Attempt>, k: nat, n: nat, first: Option<string>,
                          items: Option<seq<string>>, error: Option<string>)
  {
    && k <= n <= |attempts| && (n == k || n <= limit)
    && (forall i :: k <= i < n - 1 ==> attempts[i].fetch.Raises?)
    && (n == k ==> k >= limit && items.None? && error == first)
    && (n > k ==> if items.Some? then attempts[n - 1].fetch == Returns(items.value)
                  else error.Some? && attempts[n - 1].fetch == Raises(error.value))
  }

  /** After attempt k the loop makes another one. */
  ghost predicate GoesOn(c: Limits, b: Breaker, a: Attempt, k: nat)
  {
    a.fetch.Raises? && k + 1 < c.maxRetries && !Current(c, Failed(c, b, a.failed), a.checked).state.Open?
  }

  lemma FetchedOnce(limit: int, attempts: seq<Attempt>, k: nat, first: Option<string>)
    requires k < limit && k < |attempts|
    ensures match attempts[k].fetch
      case Returns(items) => Fetched(limit, attempts, k, k + 1, first, Some(items), first)
      case Raises(err) => Fetched(limit, attempts, k, k + 1, first, None, Some(err))
  {
  }

  lemma FetchedBefore(limit: int, attempts: seq<Attempt>, k: nat, n: nat, first: Option<string>, err: string,
                      items: Option<seq<string>>, error: Option<string>)
    requires k < limit && k < |attempts| && attempts[k].fetch == Raises(err)
    requires Fetched(limit, attempts, k + 1, n, Some(err), items, error)
    ensures Fetched(limit, attempts, k, n, first, items, error)
  {
  }

  lemma NoFetches(c: Limits, b: Breaker, now: real, error: Option<string>, attempts: seq<Attempt>, k: nat)
    requires k <= |attempts| && c.maxRetries <= |attempts| && k >= c.maxRetries
    ensures var loop := Retry(c, b, now, error, attempts, k);
      Fetched(c.maxRetries, attempts, k, k + Fetches(loop.events), error, loop.items, loop.error)
  {
  }

  lemma LoopGoesOn(c: Limits, b: Breaker, now: real, error: Option<string>, attempts: seq<Attempt>, k: nat)
    requires k < |attempts| && k < c.maxRetries <= |attempts| && GoesOn(c, b, attempts[k], k)
    ensures attempts[k].fetch.Raises? && k + 1 < c.maxRetries
    ensures var a := attempts[k];
      var next := Current(c, Failed(c, b, a.failed), a.checked);
      var rest := Retry(c, next, a.checked, Some(a.fetch.error), attempts, k + 1);
      Retry(c, b, now, error, attempts, k) == rest.(events := FailureEvents(c, b, a) + rest.events)
  {
    hide FailureEvents, Current, Failed;
  }

  lemma LoopStops(c: Limits, b: Breaker, now: real, error: Option<string>, attempts: seq<Attempt>, k: nat)
    requires k < |attempts| && k < c.maxRetries <= |attempts| && !GoesOn(c, b, attempts[k], k)
    ensures var loop := Retry(c, b, now, error, attempts, k);
      && Fetches(loop.events) == 1
      && match attempts[k].fetch
         case Returns(items) => loop.items == Some(items) && loop.error == error
         case Raises(err) => loop.items.None? && loop.error == Some(err)
  {
    hide Fetches, FailureEvents, SuccessEvents, Current, Failed;
    OneFetch(c, b, attempts[k]);
  }

  /** The loop fetches until one succeeds, at most maxRetries times: all fetches before the last one
      raised, and the outcome is that of the last one. */
  lemma {:induction false} RetryFetches(c: Limits, b: Breaker, now: real, error: Option<string>,
                                        attempts: seq<Attempt>, k: nat)
    requires k <= |attempts| && c.maxRetries <= |attempts|
    ensures var loop := Retry(c, b, now, error, attempts, k);
      Fetched(c.maxRetries, attempts, k, k + Fetches(loop.events), error, loop.items, loop.error)
    decreases |attempts| - k
  {
    hide Retry, FailureEvents, Fetched, Current, Failed, Fetches, GoesOn;
    if k >= c.maxRetries {
      NoFetches(c, b, now, error, attempts, k);
    } else if GoesOn(c, b, attempts[k], k) {
      var a, checked := attempts[k], Current(c, Failed(c, b, attempts[k].failed), attempts[k].checked);
      LoopGoesOn(c, b, now, error, attempts, k);
      var rest := Retry(c, checked, a.checked, Some(a.fetch.error), attempts, k + 1);
      RetryFetches(c, checked, a.checked, Some(a.fetch.error), attempts, k + 1);
      OneFetch(c, b, a);
      FetchesConcat(FailureEvents(c, b, a), rest.events);
      var n := k + 1 + Fetches(rest.events);
      FetchedBefore(c.maxRetries, attempts, k, n, error, a.fetch.error, rest.items, rest.error);
    } else {
      LoopStops(c, b, now, error, attempts, k);
      FetchedOnce(c.maxRetries, attempts, k, error);
    }
  }

  // ----- no fetch while the circuit is open

  /** The trace never starts a fetch less than the timeout after the circuit opened. */
  ghost predicate Respected(c: Limits, trace: seq<Event>)
  {
    forall i, j :: 0 <= i < j < |trace| && trace[i].Opened? && trace[j].FetchStarted?
      ==> trace[j].at >= trace[i].at + c.resetTimeout
  }

  /** What the breaker knows about the openings in the trace: while open, none is later than its own;
      otherwise all are the timeout behind. */
  ghost predicate Aware(c: Limits, trace: seq<Event>, b: Breaker, now: real)
  {
    forall i :: 0 <= i < |trace| && trace[i].Opened? ==>
      trace[i].at <= now && (if b.state.Open? then trace[i].at <= b.openedAt else trace[i].at + c.resetTimeout <= now)
  }

  /** The clock over the attempts from k on. */
  ghost predicate InOrder(now: real, attempts: seq<Attempt>, k: nat)
  {
    && (k < |attempts| ==> now <= attempts[k].start)
    && (forall i :: k <= i < |attempts| ==> attempts[i].start <= attempts[i].failed <= attempts[i].checked)
    && (forall i, j :: k <= i < j < |attempts| ==> attempts[i].checked <= attempts[j].start)
  }

  lemma CurrentIsAware(c: Limits, trace: seq<Event>, b: Breaker, now: real, later: real)
    requires Aware(c, trace, b, now) && now <= later
    ensures Aware(c, trace, Current(c, b, later), later)
  {
  }

  lemma FetchIsRespected(c: Limits, trace: seq<Event>, b: Breaker, now: real, start: real)
    requires Respected(c, trace) && Aware(c, trace, b, now) && !b.state.Open? && now <= start
    ensures Respected(c, trace + [FetchStarted(start)]) && Aware(c, trace + [FetchStarted(start)], b, start)
  {
  }

  lemma OutcomeIsRespected(c: Limits, trace: seq<Event>, b: Breaker, now: real, e: Event, later: real)
    requires Respected(c, trace) && Aware(c, trace, b, now) && now <= later && !e.FetchStarted? && !e.Opened?
    requires !b.state.Open?
    ensures Respected(c, trace + [e]) && Aware(c, trace + [e], b, later)
  {
  }

  lemma SuccessIsRespected(c: Limits, trace: seq<Event>, b: Breaker, now: real, a: Attempt)
    requires Respected(c, trace) && Aware(c, trace, b, now) && !b.state.Open? && now <= a.start
    ensures Respected(c, trace + SuccessEvents(a)) && Aware(c, trace + SuccessEvents(a), Succeeded(b), a.start)
  {
    FetchIsRespected(c, trace, b, now, a.start);
    OutcomeIsRespected(c, trace + [FetchStarted(a.start)], b, a.start, FetchReturned, a.start);
    assert trace + SuccessEvents(a) == trace + [FetchStarted(a.start)] + [FetchReturned];
  }

  lemma FailureIsRespected(c: Limits, trace: seq<Event>, b: Breaker, now: real, a: Attempt)
    requires Respected(c, trace) && Aware(c, trace, b, now) && !b.state.Open? && now <= a.start <= a.failed <= a.checked
    ensures var after := trace + FailureEvents(c, b, a);
      Respected(c, after) && Aware(c, after, Failed(c, b, a.failed), a.failed)
      && Aware(c, after, Current(c, Failed(c, b, a.failed), a.checked), a.checked)
  {
    var started := trace + [FetchStarted(a.start)];
    FetchIsRespected(c, trace, b, now, a.start);
    OutcomeIsRespected(c, started, b, a.start, FetchFailed(a.failed), a.failed);
    var failed := started + [FetchFailed(a.failed)];
    if Failed(c, b, a.failed).state.Open? {
      assert trace + FailureEvents(c, b, a) == failed + [Opened(a.failed)];
    } else {
      assert trace + FailureEvents(c, b, a) == failed;
    }
    CurrentIsAware(c, trace + FailureEvents(c, b, a), Failed(c, b, a.failed), a.failed, a.checked);
  }

  lemma {:induction false} RetryIsRespected(c: Limits, trace: seq<Event>, b: Breaker, now: real, error: Option<string>,
                                            attempts: seq<Attempt>, k: nat)
    requires k <= |attempts| && c.maxRetries <= |attempts| && InOrder(now, attempts, k)
    requires Respected(c, trace) && Aware(c, trace, b, now) && !b.state.Open?
    ensures var loop := Retry(c, b, now, error, attempts, k);
      now <= loop.ended && Respected(c, trace + loop.events) && Aware(c, trace + loop.events, loop.breaker, loop.ended)
    decreases |attempts| - k
  {
    if k >= c.maxRetries {
      assert trace + [] == trace;
    } else {
      var a := attempts[k];
      match a.fetch {
        case Returns(items) =>
          SuccessIsRespected(c, trace, b, now, a);
        case Raises(err) =>
          FailureIsRespected(c, trace, b, now, a);
          var checked := Current(c, Failed(c, b, a.failed), a.checked);
          if k + 1 < c.maxRetries && !checked.state.Open? {
            var rest := Retry(c, checked, a.checked, Some(err), attempts, k + 1);
            var events := FailureEvents(c, b, a);
            InOrderNext(now, attempts, k);
            hide Respected, Aware, InOrder, FailureEvents, Failed, Current;
            RetryIsRespected(c, trace + events, checked, a.checked, Some(err), attempts, k + 1);
            assert trace + (events + rest.events) == trace + events + rest.events;
          }
      }
    }
  }

  lemma InOrderNext(now: real, attempts: seq<Attempt>, k: nat)
    requires InOrder(now, attempts, k) && k < |attempts|
    ensures now <= attempts[k].start <= attempts[k].failed <= attempts[k].checked
    ensures InOrder(attempts[k].checked, attempts, k + 1)
  {
  }

  // ----- how far the loop goes

  /** The loop stops after a when the failures since the last success, this one included, have reached
      the threshold and the timeout has not passed by the time of the check. */
  predicate GivesUp(c: Limits, failures: nat, a: Attempt)
  {
    failures >= c.failureThreshold && a.checked - a.failed < c.resetTimeout
  }

  /** From attempt k on, the loop makes exactly the attempts before n, when there were `failures` in a row
      before it. */
  ghost predicate GoesTo(c: Limits, failures: nat, attempts: seq<Attempt>, k: nat, n: nat)
  {
    if k >= c.maxRetries then
      n == k
    else
      && k < n <= |attempts| && n <= c.maxRetries
      && (forall i :: k <= i < n - 1 ==> attempts[i].fetch.Raises? && !GivesUp(c, failures + (i - k) + 1, attempts[i]))
      && (attempts[n - 1].fetch.Returns? || n == c.maxRetries || GivesUp(c, failures + (n - k), attempts[n - 1]))
  }

  lemma GoesOnIff(c: Limits, b: Breaker, a: Attempt, k: nat)
    requires !b.state.Open?
    ensures GoesOn(c, b, a, k) <==> a.fetch.Raises? && k + 1 < c.maxRetries && !GivesUp(c, b.failures + 1, a)
    ensures Current(c, Failed(c, b, a.failed), a.checked).failures == b.failures + 1
  {
  }

  lemma GoesFurther(c: Limits, failures: nat, attempts: seq<Attempt>, k: nat, n: nat)
    requires k < |attempts| && k + 1 < c.maxRetries
    requires attempts[k].fetch.Raises? && !GivesUp(c, failures + 1, attempts[k])
    requires GoesTo(c, failures + 1, attempts, k + 1, n)
    ensures GoesTo(c, failures, attempts, k, n)
  {
    hide GivesUp;
    forall i | k <= i < n - 1 ensures attempts[i].fetch.Raises? && !GivesUp(c, failures + (i - k) + 1, attempts[i]) {
      assert i > k ==> failures + 1 + (i - (k + 1)) + 1 == failures + (i - k) + 1;
    }
    assert failures + 1 + (n - (k + 1)) == failures + (n - k);
  }

  lemma NotOpen(c: Limits, b: Breaker, a: Attempt, k: nat)
    requires GoesOn(c, b, a, k)
    ensures !Current(c, Failed(c, b, a.failed), a.checked).state.Open?
  {
  }

  /** The loop makes one attempt after the other until one succeeds, the retries are used up, or the
      failures in a row have reached the threshold and the timeout is not over. */
  lemma {:induction false} RetryGoesTo(c: Limits, b: Breaker, now: real, error: Option<string>,
                                       attempts: seq<Attempt>, k: nat)
    requires k <= |attempts| && c.maxRetries <= |attempts| && !b.state.Open?
    ensures GoesTo(c, b.failures, attempts, k, k + Fetches(Retry(c, b, now, error, attempts, k).events))
    decreases |attempts| - k
  {
    hide FailureEvents, SuccessEvents, Current, Failed, GoesOn, GivesUp;
    if k < c.maxRetries {
      var a := attempts[k];
      GoesOnIff(c, b, a, k);
      if GoesOn(c, b, a, k) {
        var checked := Current(c, Failed(c, b, a.failed), a.checked);
        LoopGoesOn(c, b, now, error, attempts, k);
        var rest := Retry(c, checked, a.checked, Some(a.fetch.error), attempts, k + 1);
        NotOpen(c, b, a, k);
        hide Retry, GoesTo;
        RetryGoesTo(c, checked, a.checked, Some(a.fetch.error), attempts, k + 1);
        OneFetch(c, b, a);
        FetchesConcat(FailureEvents(c, b, a), rest.events);
        GoesFurther(c, b.failures, attempts, k, k + 1 + Fetches(rest.events));
      } else {
        LoopStops(c, b, now, error, attempts, k);
      }
    }
  }

  /** What the collect ends with is what the last of the n fetches did: its items, or its error in a dead
      letter, which has none when there were no fetches to make. */
  ghost predicate EndsWith(outcome: Outcome, attempts: seq<Attempt>, n: nat)
    requires n <= |attempts|
  {
    match outcome
    case QuotaRefused => false
    case CircuitRefused => false
    case Collected(items) => n > 0 && attempts[n - 1].fetch == Returns(items)
    case DeadLettered(error) =>
      if n == 0 then error.None? else error.Some? && attempts[n - 1].fetch == Raises(error.value)
  }

  lemma NoneFetched()
    ensures Fetches([]) == 0
  {
  }

  /** A collect that is refused fetches nothing; any other makes exactly the fetches the loop goes to, and
      ends with what the last of them did. */
  lemma CollectFollowsFetches(c: Limits, r: Rate, s: State, call: Call)
    requires c.maxRetries <= |call.attempts|
    ensures var result := CollectOnce(c, r, s, call);
      var n := Fetches(result.events);
      if result.outcome.QuotaRefused? || result.outcome.CircuitRefused? then
        n == 0
      else
        && n <= |call.attempts| && GoesTo(c, s.breaker.failures, call.attempts, 0, n)
        && EndsWith(result.outcome, call.attempts, n)
  {
    hide Retry, Fetches, Granted, GoesTo;
    NoneFetched();
    var checked := Current(c, s.breaker, call.allowed);
    if !checked.state.Open? {
      RetryGoesTo(c, checked, call.allowed, None, call.attempts, 0);
      RetryFetches(c, checked, call.allowed, None, call.attempts, 0);
    }
  }

  // ----- what the trace says about the breaker

  /** How many fetches failed since the last one that returned. */
  function FailuresSince(trace: seq<Event>): nat
  {
    if trace == [] then
      0
    else
      var before := trace[..|trace| - 1];
      match trace[|trace| - 1]
      case FetchReturned => 0
      case FetchFailed(_) => FailuresSince(before) + 1
      case _ => FailuresSince(before)
  }

  function LastFailure(trace: seq<Event>): real
  {
    if trace == [] then
      0.0
    else
      match trace[|trace| - 1]
      case FetchFailed(at) => at
      case _ => LastFailure(trace[..|trace| - 1])
  }

  /** Enough fetches in a row have failed. */
  predicate Broken(c: Limits, trace: seq<Event>)
  {
    0 < FailuresSince(trace) && c.failureThreshold <= FailuresSince(trace)
  }

  /** The breaker is what the trace says: it counts the failures since the last success, is closed unless
      they have reached the threshold, and remembers the last one. */
  ghost predicate Explained(c: Limits, trace: seq<Event>, b: Breaker)
  {
    && b.failures == FailuresSince(trace)
    && (b.state.Closed? <==> !Broken(c, trace))
    && (!b.state.Closed? ==> b.openedAt == LastFailure(trace))
  }

  /** An opening is noted exactly behind each failure that makes, or finds, the trace broken. */
  ghost predicate Noted(c: Limits, trace: seq<Event>)
  {
    forall j :: 0 <= j < |trace| ==> NotedAt(c, trace, j)
  }

  ghost predicate NotedAt(c: Limits, trace: seq<Event>, j: nat)
    requires j < |trace|
  {
    && (trace[j].Opened? ==> j > 0 && trace[j - 1] == FetchFailed(trace[j].at) && Broken(c, trace[..j]))
    && (trace[j].FetchFailed? && Broken(c, trace[..j + 1])
        ==> j + 1 < |trace| && trace[j + 1] == Opened(trace[j].at))
  }

  lemma TraceSnoc(trace: seq<Event>, e: Event)
    ensures FailuresSince(trace + [e]) ==
      if e.FetchReturned? then 0 else FailuresSince(trace) + if e.FetchFailed? then 1 else 0
    ensures LastFailure(trace + [e]) == if e.FetchFailed? then e.at else LastFailure(trace)
  {
    assert (trace + [e])[..|trace|] == trace;
  }

  lemma SuccessIsExplained(c: Limits, trace: seq<Event>, a: Attempt, b: Breaker)
    ensures Explained(c, trace + SuccessEvents(a), Succeeded(b))
  {
    TraceSnoc(trace + [FetchStarted(a.start)], FetchReturned);
    assert trace + SuccessEvents(a) == trace + [FetchStarted(a.start)] + [FetchReturned];
  }

  lemma FailureIsExplained(c: Limits, trace: seq<Event>, a: Attempt, b: Breaker)
    requires Explained(c, trace, b)
    ensures Explained(c, trace + FailureEvents(c, b, a), Failed(c, b, a.failed))
    ensures Failed(c, b, a.failed).state.Open? ==> Broken(c, trace + [FetchStarted(a.start)] + [FetchFailed(a.failed)])
  {
    var started := trace + [FetchStarted(a.start)];
    var failed := started + [FetchFailed(a.failed)];
    TraceSnoc(trace, FetchStarted(a.start));
    TraceSnoc(started, FetchFailed(a.failed));
    TraceSnoc(failed, Opened(a.failed));
    if Failed(c, b, a.failed).state.Open? {
      assert trace + FailureEvents(c, b, a) == failed + [Opened(a.failed)];
    } else {
      assert trace + FailureEvents(c, b, a) == failed;
    }
  }

  lemma NotedEarlier(c: Limits, trace: seq<Event>, more: seq<Event>, j: nat)
    requires j < |trace| && NotedAt(c, trace, j)
    ensures NotedAt(c, trace + more, j)
  {
    assert (trace + more)[..j] == trace[..j] && (trace + more)[..j + 1] == trace[..j + 1];
  }

  lemma NotedSnoc(c: Limits, trace: seq<Event>, e: Event)
    requires Noted(c, trace) && !e.Opened? && (e.FetchFailed? ==> !Broken(c, trace + [e]))
    ensures Noted(c, trace + [e])
  {
    var all := trace + [e];
    forall j | 0 <= j < |all| ensures NotedAt(c, all, j) {
      if j < |trace| {
        NotedEarlier(c, trace, [e], j);
      } else {
        assert all[..j + 1] == all;
      }
    }
  }

  lemma NotedOpening(c: Limits, trace: seq<Event>, at: real)
    requires Noted(c, trace) && Broken(c, trace + [FetchFailed(at)])
    ensures Noted(c, trace + [FetchFailed(at)] + [Opened(at)])
  {
    var failed := trace + [FetchFailed(at)];
    var all := failed + [Opened(at)];
    forall j | 0 <= j < |all| ensures NotedAt(c, all, j) {
      if j < |trace| {
        NotedEarlier(c, trace, [FetchFailed(at), Opened(at)], j);
        assert all == trace + [FetchFailed(at), Opened(at)];
      } else {
        assert all[..|failed|] == failed;
      }
    }
  }

  lemma SuccessIsNoted(c: Limits, trace: seq<Event>, a: Attempt)
    requires Noted(c, trace)
    ensures Noted(c, trace + SuccessEvents(a))
  {
    var started := trace + [FetchStarted(a.start)];
    NotedSnoc(c, trace, FetchStarted(a.start));
    NotedSnoc(c, started, FetchReturned);
    assert trace + SuccessEvents(a) == started + [FetchReturned];
  }

  lemma FailureIsNoted(c: Limits, trace: seq<Event>, a: Attempt, b: Breaker)
    requires Explained(c, trace, b) && Noted(c, trace)
    ensures Noted(c, trace + FailureEvents(c, b, a))
  {
    var started := trace + [FetchStarted(a.start)];
    var failed := started + [FetchFailed(a.failed)];
    TraceSnoc(trace, FetchStarted(a.start));
    TraceSnoc(started, FetchFailed(a.failed));
    NotedSnoc(c, trace, FetchStarted(a.start));
    hide Noted;
    if Failed(c, b, a.failed).state.Open? {
      FailureIsExplained(c, trace, a, b);
      NotedOpening(c, started, a.failed);
      assert trace + FailureEvents(c, b, a) == failed + [Opened(a.failed)];
    } else {
      NotedSnoc(c, started, FetchFailed(a.failed));
      assert trace + FailureEvents(c, b, a) == failed;
    }
  }

  lemma CurrentIsExplained(c: Limits, trace: seq<Event>, b: Breaker, now: real)
    requires Explained(c, trace, b)
    ensures Explained(c, trace, Current(c, b, now))
  {
  }

  lemma {:induction false} RetryIsExplained(c: Limits, trace: seq<Event>, b: Breaker, now: real, error: Option<string>,
                                            attempts: seq<Attempt>, k: nat)
    requires k <= |attempts| && c.maxRetries <= |attempts| && Explained(c, trace, b) && Noted(c, trace)
    ensures var loop := Retry(c, b, now, error, attempts, k);
      Explained(c, trace + loop.events, loop.breaker) && Noted(c, trace + loop.events)
    decreases |attempts| - k
  {
    hide Explained, Noted, FailureEvents, SuccessEvents, Failed, Current, Succeeded;
    if k >= c.maxRetries {
      assert trace + [] == trace;
    } else {
      var a := attempts[k];
      match a.fetch {
        case Returns(items) =>
          SuccessIsExplained(c, trace, a, b);
          SuccessIsNoted(c, trace, a);
        case Raises(err) =>
          var failed, events := Failed(c, b, a.failed), FailureEvents(c, b, a);
          FailureIsExplained(c, trace, a, b);
          FailureIsNoted(c, trace, a, b);
          CurrentIsExplained(c, trace + events, failed, a.checked);
          var checked := Current(c, failed, a.checked);
          if k + 1 < c.maxRetries && !checked.state.Open? {
            var rest := Retry(c, checked, a.checked, Some(err), attempts, k + 1);
            RetryIsExplained(c, trace + events, checked, a.checked, Some(err), attempts, k + 1);
            assert trace + (events + rest.events) == trace + events + rest.events;
          }
      }
    }
  }

  lemma CollectIsExplained(c: Limits, r: Rate, s: State, trace: seq<Event>, call: Call)
    requires c.maxRetries <= |call.attempts| && Explained(c, trace, s.breaker) && Noted(c, trace)
    ensures var result := CollectOnce(c, r, s, call);
      Explained(c, trace + result.events, result.state.breaker) && Noted(c, trace + result.events)
  {
    hide Explained, Noted, Current;
    assert trace + [] == trace;
    var checked := Current(c, s.breaker, call.allowed);
    CurrentIsExplained(c, trace, s.breaker, call.allowed);
    RetryIsExplained(c, trace, checked, call.allowed, None, call.attempts, 0);
  }

  /** The last failure in a row, and where it stands. */
  lemma {:induction false} LastFailureAt(trace: seq<Event>) returns (j: nat)
    requires FailuresSince(trace) > 0
    ensures j < |trace| && trace[j] == FetchFailed(LastFailure(trace))
    ensures FailuresSince(trace[..j + 1]) == FailuresSince(trace)
    decreases |trace|
  {
    var k := |trace| - 1;
    if trace[k].FetchFailed? {
      j := k;
      assert trace[..k + 1] == trace;
    } else {
      j := LastFailureAt(trace[..k]);
      assert trace[..k][..j + 1] == trace[..j + 1];
    }
  }

  /** What the trace says about a call: too many failures in a row, and the last of them too recent. */
  predicate Tripped(c: Limits, trace: seq<Event>, now: real)
  {
    Broken(c, trace) && now < LastFailure(trace) + c.resetTimeout
  }

  lemma OpenIffTripped(c: Limits, trace: seq<Event>, b: Breaker, now: real, later: real)
    requires Explained(c, trace, b) && Noted(c, trace) && Aware(c, trace, b, now) && now <= later
    ensures Current(c, b, later).state.Open? <==> Tripped(c, trace, later)
  {
    if b.state.HalfOpen? {
      var j := LastFailureAt(trace);
      assert NotedAt(c, trace, j);
      assert trace[j + 1] == Opened(LastFailure(trace));
    }
  }

  // ----- runs of collects, one at a time

  ghost predicate Fits(c: Limits, calls: seq<Call>)
  {
    forall i :: 0 <= i < |calls| ==> c.maxRetries <= |calls[i].attempts|
  }

  ghost function CollectAll(c: Limits, r: Rate, s: State, now: real, calls: seq<Call>): (State, seq<Event>, real)
    requires Fits(c, calls)
  {
    if calls == [] then
      (s, [], now)
    else
      var (before, trace, ended) := CollectAll(c, r, s, now, calls[..|calls| - 1]);
      var result := CollectOnce(c, r, before, calls[|calls| - 1]);
      (result.state, trace + result.events, result.ended)
  }

  /** Each call starts after the one before it ended, and the clock does not run backwards. */
  ghost predicate Sequential(c: Limits, r: Rate, s: State, now: real, calls: seq<Call>)
    requires Fits(c, calls)
  {
    calls == [] ||
    var k := |calls| - 1;
    && Sequential(c, r, s, now, calls[..k])
    && CollectAll(c, r, s, now, calls[..k]).2 <= calls[k].consumed <= calls[k].allowed
    && InOrder(calls[k].allowed, calls[k].attempts, 0)
  }

  lemma CollectIsRespected(c: Limits, r: Rate, s: State, trace: seq<Event>, now: real, call: Call)
    requires c.maxRetries <= |call.attempts|
    requires now <= call.consumed <= call.allowed && InOrder(call.allowed, call.attempts, 0)
    requires Respected(c, trace) && Aware(c, trace, s.breaker, now)
    ensures var result := CollectOnce(c, r, s, call);
      && now <= result.ended
      && Respected(c, trace + result.events) && Aware(c, trace + result.events, result.state.breaker, result.ended)
  {
    assert trace + [] == trace;
    var checked := Current(c, s.breaker, call.allowed);
    CurrentIsAware(c, trace, s.breaker, now, call.allowed);
    if !checked.state.Open? {
      RetryIsRespected(c, trace, checked, call.allowed, None, call.attempts, 0);
    }
  }

  /** In every run of collects, no fetch starts between an opening of the circuit and the timeout after it. */
  lemma {:induction false} NoFetchWhileOpen(c: Limits, r: Rate, level: Level, now: real, calls: seq<Call>)
    requires Fits(c, calls) && Sequential(c, r, State(FRESH, level), now, calls)
    ensures var (s, trace, ended) := CollectAll(c, r, State(FRESH, level), now, calls);
      Respected(c, trace) && Aware(c, trace, s.breaker, ended)
    decreases |calls|
  {
    if calls != [] {
      var k := |calls| - 1;
      NoFetchWhileOpen(c, r, level, now, calls[..k]);
      var (before, trace, ended) := CollectAll(c, r, State(FRESH, level), now, calls[..k]);
      hide Respected, Aware, CollectOnce;
      CollectIsRespected(c, r, before, trace, ended, calls[k]);
    }
  }

  /** Over every run the breaker counts the fetches that failed since the last success, and the circuit
      opens exactly at the failures that leave that count at the threshold or above. */
  lemma {:induction false} RunIsExplained(c: Limits, r: Rate, level: Level, now: real, calls: seq<Call>)
    requires Fits(c, calls)
    ensures var (s, trace, _) := CollectAll(c, r, State(FRESH, level), now, calls);
      Explained(c, trace, s.breaker) && Noted(c, trace)
    decreases |calls|
  {
    if calls != [] {
      var k := |calls| - 1;
      RunIsExplained(c, r, level, now, calls[..k]);
      var (before, trace, _) := CollectAll(c, r, State(FRESH, level), now, calls[..k]);
      hide Explained, Noted, CollectOnce;
      CollectIsExplained(c, r, before, trace, calls[k]);
    }
  }

  /** After every run a collect with quota left is refused exactly when the last fetches all failed, at
      least as many as the threshold, and the last of them less than the timeout ago. */
  lemma RefusedIffTripped(c: Limits, r: Rate, level: Level, now: real, calls: seq<Call>, call: Call)
    requires Fits(c, calls) && Sequential(c, r, State(FRESH, level), now, calls) && c.maxRetries <= |call.attempts|
    requires CollectAll(c, r, State(FRESH, level), now, calls).2 <= call.allowed
    ensures var (s, trace, _) := CollectAll(c, r, State(FRESH, level), now, calls);
      var granted := Granted(r, s.level, TokenBuckets.Event(call.consumed, 1.0));
      CollectOnce(c, r, s, call).outcome.CircuitRefused? <==> granted && Tripped(c, trace, call.allowed)
  {
    var (s, trace, ended) := CollectAll(c, r, State(FRESH, level), now, calls);
    RunIsExplained(c, r, level, now, calls);
    NoFetchWhileOpen(c, r, level, now, calls);
    OpenIffTripped(c, trace, s.breaker, ended, call.allowed);
    hide Explained, Noted, Aware, Respected, Retry, CollectAll, Tripped, Granted;
  }

  lemma {:induction false} RetryCounts(c: Limits, b: Breaker, now: real, error: Option<string>,
                                       attempts: seq<Attempt>, k: nat)
    requires k <= |attempts| && c.maxRetries <= |attempts| && c.failureThreshold >= 1 && Counting(c, b)
    ensures Counting(c, Retry(c, b, now, error, attempts, k).breaker)
    decreases |attempts| - k
  {
    if k < c.maxRetries && attempts[k].fetch.Raises? {
      var a := attempts[k];
      var checked := Current(c, Failed(c, b, a.failed), a.checked);
      if k + 1 < c.maxRetries && !checked.state.Open? {
        RetryCounts(c, checked, a.checked, Some(a.fetch.error), attempts, k + 1);
      }
    }
  }

  /** After every run of collects the circuit is closed exactly while the failures stay below the threshold. */
  lemma {:induction false} RunCounts(c: Limits, r: Rate, level: Level, now: real, calls: seq<Call>)
    requires Fits(c, calls) && c.failureThreshold >= 1
    ensures Counting(c, CollectAll(c, r, State(FRESH, level), now, calls).0.breaker)
    decreases |calls|
  {
    if calls != [] {
      var k := |calls| - 1;
      RunCounts(c, r, level, now, calls[..k]);
      var s := CollectAll(c, r, State(FRESH, level), now, calls[..k]).0;
      var checked := Current(c, s.breaker, calls[k].allowed);
      RetryCounts(c, checked, calls[k].allowed, None, calls[k].attempts, 0);
    }
  }

  // ----- the quota over runs

  /** What the collects ask of the quota: one token each. */
  ghost function Asked(calls: seq<Call>): seq<TokenBuckets.Event>
  {
    seq(|calls|, i requires 0 <= i < |calls| => TokenBuckets.Event(calls[i].consumed, 1.0))
  }

  /** How many of the collects the quota let through. */
  ghost function Admitted(c: Limits, r: Rate, s: State, now: real, calls: seq<Call>): nat
    requires Fits(c, calls)
  {
    if calls == [] then
      0
    else
      var k := |calls| - 1;
      var before := CollectAll(c, r, s, now, calls[..k]).0;
      Admitted(c, r, s, now, calls[..k])
        + if CollectOnce(c, r, before, calls[k]).outcome.QuotaRefused? then 0 else 1
  }

  lemma QuotaStep(c: Limits, r: Rate, s: State, call: Call)
    requires c.maxRetries <= |call.attempts|
    ensures var e, result := TokenBuckets.Event(call.consumed, 1.0), CollectOnce(c, r, s, call);
      && result.state.level == After(r, s.level, e)
      && (result.outcome.QuotaRefused? <==> !Granted(r, s.level, e))
      && Handed(r, s.level, e) == if result.outcome.QuotaRefused? then 0.0 else 1.0
  {
    hide After, Granted, Retry, Current;
  }

  /** The quota is a token bucket asked for one token by each collect. */
  lemma {:induction false} QuotaIsBucket(c: Limits, r: Rate, s: State, now: real, calls: seq<Call>)
    requires Fits(c, calls)
    ensures CollectAll(c, r, s, now, calls).0.level == Run(r, s.level, Asked(calls))
    ensures Admitted(c, r, s, now, calls) as real == Total(r, s.level, Asked(calls))
    decreases |calls|
  {
    if calls != [] {
      var k := |calls| - 1;
      QuotaIsBucket(c, r, s, now, calls[..k]);
      assert Asked(calls)[..k] == Asked(calls[..k]);
      QuotaStep(c, r, CollectAll(c, r, s, now, calls[..k]).0, calls[k]);
      hide CollectOnce, After, Handed;
    }
  }

  lemma AskedNext(calls: seq<Call>, call: Call, from: real)
    requires calls != [] && Ordered(from, Asked(calls + [call]))
    ensures var events := Asked(calls);
      && Ordered(from, events) && AskNonNegative(events)
      && |events| == |calls| && events[0].now == calls[0].consumed
      && events[|events| - 1].now == calls[|calls| - 1].consumed
      && calls[|calls| - 1].consumed <= call.consumed
  {
    var all := Asked(calls + [call]);
    OrderedPrefix(from, all);
    assert all[..|calls|] == Asked(calls);
    assert all[|calls| - 1].now <= all[|calls|].now;
  }

  /** A collector lets no more collects through than its quota and what is refilled meanwhile, and refuses
      one for its quota only if that would be one too many. */
  lemma QuotaIsExact(c: Limits, r: Rate, s: State, now: real, calls: seq<Call>, call: Call)
    requires Fits(c, calls) && c.maxRetries <= |call.attempts| && calls != []
    requires 0.0 <= s.level.tokens <= r.capacity && r.perSecond >= 0.0
    requires Ordered(s.level.last, Asked(calls + [call]))
    ensures var admitted := Admitted(c, r, s, now, calls) as real;
      && admitted <= Budget(r, calls[|calls| - 1].consumed - calls[0].consumed)
      && (CollectOnce(c, r, CollectAll(c, r, s, now, calls).0, call).outcome.QuotaRefused?
          ==> admitted + 1.0 > Supply(r, s.level, call.consumed))
  {
    hide *;
    var events, e := Asked(calls), TokenBuckets.Event(call.consumed, 1.0);
    AskedNext(calls, call, s.level.last);
    QuotaIsBucket(c, r, s, now, calls);
    QuotaStep(c, r, CollectAll(c, r, s, now, calls).0, call);
    WindowBound(r, s.level, events);
    LevelNonNegative(r, s.level, events);
    if !Granted(r, Run(r, s.level, events), e) {
      RefusedOnlyWhenSpent(r, s.level, events, e);
    }
  }

  // ----- dead letters and the collector as objects

  datatype Record = Record(at: real, error: Option<string>, retries: int, payload: string)

  /** Records wait in memory; a queue with a file also appends each one to it. */
  class DeadLetterQueue {
    const persistent: bool
    var items: seq<Record>
    var file: seq<Record>

    constructor (persistent: bool, file: seq<Record>)
      ensures this.persistent == persistent && items == [] && this.file == file
    {
      this.persistent, items, this.file := persistent, [], file;
    }

    method Push(now: real, payload: string, error: Option<string>, retries: int)
      modifies this
      ensures items == old(items) + [Record(now, error, retries, payload)]
      ensures file == old(file) + if persistent then [Record(now, error, retries, payload)] else []
    {
      var record := Record(now, error, retries, payload);
      items := items + [record];
      if persistent {
        file := file + [record];
      }
    }

    /** Draining empties the memory, not the file. */
    method Drain() returns (drained: seq<Record>)
      modifies this
      ensures drained == old(items) && items == [] && file == old(file)
    {
      drained := items;
      items := [];
    }
  }

  class BaseCollector {
    const limits: Limits
    const breaker: CircuitBreaker
    const bucket: TokenBucket
    const dlq: DeadLetterQueue
    /** The clock at creation, all collects so far, and what the loops did. */
    ghost const created: real
    ghost var calls: seq<Call>
    ghost var trace: seq<Event>

    ghost predicate Wired()
    {
      breaker.limits == limits
    }

    /** The collector is where the run of its calls ends, and its loops did what that run says. */
    ghost predicate Valid()
      reads this, breaker, bucket
    {
      && Wired() && Fits(limits, calls)
      && var (s, events, _) := CollectAll(limits, bucket.rate, Initial(), created, calls);
        Contents() == s && trace == events
    }

    ghost function Initial(): State
    {
      State(FRESH, Level(bucket.rate.capacity, created))
    }

    /** A queue that is passed is used unless it is empty: an empty one counts as not given. */
    constructor (limits: Limits, capacity: int, windowSec: real, dlq: DeadLetterQueue?, now: real)
      requires capacity > 0 && windowSec != 0.0
      ensures Valid() && calls == [] && trace == []
      ensures this.limits == limits && created == now
      ensures dlq != null && dlq.items != [] ==> this.dlq == dlq
      ensures dlq == null || dlq.items == [] ==> fresh(this.dlq) && this.dlq.items == [] && !this.dlq.persistent
      ensures bucket.rate == Rate(capacity as real, capacity as real / windowSec)
      ensures fresh(breaker) && fresh(bucket)
    {
      if dlq == null || |dlq.items| == 0 {
        this.dlq := new DeadLetterQueue(false, []);
      } else {
        this.dlq := dlq;
      }
      this.limits, created := limits, now;
      breaker := new CircuitBreaker(limits);
      bucket := new TokenBucket(capacity, windowSec, now);
      calls, trace := [], [];
    }

    ghost function Contents(): State
      reads breaker, bucket
    {
      State(breaker.breaker, bucket.level)
    }

    /** The fetch of an attempt, made now. */
    method Fetch(a: Attempt) returns (fetch: Fetch)
      modifies this`trace
      ensures fetch == a.fetch && trace == old(trace) + [FetchStarted(a.start)]
    {
      fetch := a.fetch;
      trace := trace + [FetchStarted(a.start)];
    }

    /** The fetch succeeded. */
    method Succeed()
      modifies this`trace, breaker
      ensures breaker.breaker == Succeeded(old(breaker.breaker)) && trace == old(trace) + [FetchReturned]
    {
      breaker.RecordSuccess();
      trace := trace + [FetchReturned];
    }

    /** The fetch failed; the trace notes when this leaves the circuit open. */
    method Fail(now: real)
      requires Wired()
      modifies this`trace, breaker
      ensures breaker.breaker == Failed(limits, old(breaker.breaker), now)
      ensures trace == old(trace) + [FetchFailed(now)] + if breaker.breaker.state.Open? then [Opened(now)] else []
    {
      breaker.RecordFailure(now);
      trace := trace + [FetchFailed(now)];
      if breaker.breaker.state.Open? {
        trace := trace + [Opened(now)];
      }
    }

    /** One attempt: its items, or its error and whether the loop goes on. */
    method Attempt(a: Attempt, last: bool) returns (fetch: Fetch, again: bool)
      requires Wired()
      modifies this`trace, breaker
      ensures fetch == a.fetch
      ensures a.fetch.Returns?
        ==> breaker.breaker == Succeeded(old(breaker.breaker)) && trace == old(trace) + SuccessEvents(a)
      ensures a.fetch.Raises? ==> trace == old(trace) + FailureEvents(limits, old(breaker.breaker), a)
      ensures a.fetch.Raises? ==> var failed := Failed(limits, old(breaker.breaker), a.failed);
        && breaker.breaker == (if last then failed else Current(limits, failed, a.checked))
        && (again <==> !last && !breaker.breaker.state.Open?)
    {
      again := false;
      fetch := Fetch(a);
      if fetch.Returns? {
        Succeed();
        return;
      }
      Fail(a.failed);
      if !last {
        again := breaker.Allow(a.checked);
      }
    }

    /** The retry loop. */
    method FetchWithRetries(attempts: seq<Attempt>, ghost now: real)
      returns (items: Option<seq<string>>, error: Option<string>, ghost loop: Loop)
      requires Wired() && limits.maxRetries <= |attempts|
      modifies this`trace, breaker
      ensures loop == Retry(limits, old(breaker.breaker), now, None, attempts, 0)
      ensures breaker.breaker == loop.breaker && items == loop.items && trace == old(trace) + loop.events
      ensures items.None? ==> error == loop.error
    {
      hide FailureEvents, Failed, Current;
      loop := Retry(limits, breaker.breaker, now, None, attempts, 0);
      error := None;
      ghost var clock := now;
      var k := 0;
      while k < limits.maxRetries
        invariant 0 <= k <= |attempts|
        invariant var rest := Retry(limits, breaker.breaker, clock, error, attempts, k);
          && rest.breaker == loop.breaker && rest.items == loop.items && rest.error == loop.error
          && trace + rest.events == old(trace) + loop.events
        decreases limits.maxRetries - k
      {
        ghost var before, done := breaker.breaker, trace;
        var fetch, again := Attempt(attempts[k], k + 1 == limits.maxRetries);
        if fetch.Returns? {
          return Some(fetch.items), error, loop;
        }
        error := Some(fetch.error);
        if !again {
          return None, error, loop;
        }
        k, clock := k + 1, attempts[k].checked;
        ghost var rest := Retry(limits, breaker.breaker, clock, error, attempts, k);
        assert done + (FailureEvents(limits, before, attempts[k - 1]) + rest.events) == trace + rest.events;
      }
      return None, error, loop;
    }

    /** One more call is one more step of the run. */
    lemma RunNext(call: Call)
      requires Fits(limits, calls) && limits.maxRetries <= |call.attempts|
      ensures Fits(limits, calls + [call])
      ensures var (s, events, ended) := CollectAll(limits, bucket.rate, Initial(), created, calls);
        var result := CollectOnce(limits, bucket.rate, s, call);
        CollectAll(limits, bucket.rate, Initial(), created, calls + [call]) ==
          (result.state, events + result.events, result.ended)
    {
      assert (calls + [call])[..|calls|] == calls;
    }

    /** collect: refused by quota, refused by the circuit, the items of the first fetch that succeeds,
        or nothing and exactly one dead letter. The fetches made are those of the run of all calls. */
    method Collect(call: Call, payload: string, failedAt: real) returns (items: seq<string>, ghost result: Result)
      requires Valid() && limits.maxRetries <= |call.attempts|
      modifies this`calls, this`trace, breaker, bucket, dlq
      ensures Valid() && calls == old(calls) + [call]
      ensures result == CollectOnce(limits, bucket.rate, old(Contents()), call)
      ensures Contents() == result.state && trace == old(trace) + result.events
      ensures items == if result.outcome.Collected? then result.outcome.items else []
      ensures dlq.items == old(dlq.items) +
        if result.outcome.DeadLettered? then [Record(failedAt, result.outcome.error, limits.maxRetries, payload)]
        else []
    {
      RunNext(call);
      hide Retry, CollectAll, Fits;
      result := CollectOnce(limits, bucket.rate, Contents(), call);
      calls := calls + [call];
      items := [];
      var ok := bucket.Consume(call.consumed, 1);
      if !ok {
        return;
      }
      ok := breaker.Allow(call.allowed);
      if !ok {
        return;
      }
      var found, error;
      ghost var loop;
      found, error, loop := FetchWithRetries(call.attempts, call.allowed);
      if found.Some? {
        items := found.value;
      } else {
        dlq.Push(failedAt, payload, error, limits.maxRetries);
      }
    }

    /** The collector's own breaker is what its own trace says. */
    lemma TraceExplainsBreaker()
      requires Valid()
      ensures Explained(limits, trace, breaker.breaker) && Noted(limits, trace)
    {
      RunIsExplained(limits, bucket.rate, Level(bucket.rate.capacity, created), created, calls);
    }

    /** When its calls came one after another, the loops of this collector never started a fetch less
        than the timeout after its circuit opened. */
    lemma NeverFetchedWhileOpen()
      requires Valid() && Sequential(limits, bucket.rate, Initial(), created, calls)
      ensures Respected(limits, trace)
    {
      NoFetchWhileOpen(limits, bucket.rate, Level(bucket.rate.capacity, created), created, calls);
    }
  }
}
