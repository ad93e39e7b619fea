/** Token buckets (utils/rate_limiter.py, ingestion/base_collector.py): the in-process buckets, the Redis
    script with key expiry, and the bucket that falls back from one to the other. Clocks are inputs. */
module TokenBuckets {
  import opened Options
  import opened Numbers

  datatype Level = Level(tokens: real, last: real)

  /** Capacity and refill rate. */
  datatype Rate = Rate(capacity: real, perSecond: real)

  datatype Event = Event(now: real, requested: real)

  /** What is refilled in a span of time. */
  function Earned(r: Rate, span: real): real
  {
    span * r.perSecond
  }

  /** The level after `elapsed` seconds without a request. */
  function Refill(r: Rate, tokens: real, elapsed: real): real
  {
    Min(r.capacity, tokens + Earned(r, elapsed))
  }

  function Refilled(r: Rate, s: Level, now: real): real
  {
    Refill(r, s.tokens, now - s.last)
  }

  function Granted(r: Rate, s: Level, e: Event): bool
  {
    Refilled(r, s, e.now) >= e.requested
  }

  function After(r: Rate, s: Level, e: Event): Level
  {
    Level(if Granted(r, s, e) then Refilled(r, s, e.now) - e.requested else Refilled(r, s, e.now), e.now)
  }

  // ----- the objects

  class InMemoryTokenBucket {
    const rate: Rate
    var level: Level

    constructor (capacity: real, refillRate: real, now: real)
      ensures rate == Rate(capacity, refillRate) && level == Level(capacity, now)
    {
      rate, level := Rate(capacity, refillRate), Level(capacity, now);
    }

    method Acquire(now: real, tokens: real) returns (ok: bool)
      modifies this
      ensures ok == Granted(rate, old(level), Event(now, tokens))
      ensures level == After(rate, old(level), Event(now, tokens))
    {
      var elapsed := now - level.last;
      level := Level(Refill(rate, level.tokens, elapsed), now);
      if level.tokens >= tokens {
        level := level.(tokens := level.tokens - tokens);
        return true;
      }
      return false;
    }

    /** The time in which the missing part of one token is earned; None stands for the division by a
        refill rate of zero. */
    method WaitTime() returns (wait: Option<real>)
      ensures wait.None? <==> level.tokens < 1.0 && rate.perSecond == 0.0
      ensures level.tokens >= 1.0 ==> wait == Some(0.0)
      ensures wait.Some? && level.tokens < 1.0 ==> level.tokens + Earned(rate, wait.value) == 1.0
      ensures rate.perSecond > 0.0 ==> wait == Some(Wait(rate, level))
    {
      if level.tokens >= 1.0 {
        return Some(0.0);
      }
      var needed := 1.0 - level.tokens;
      if rate.perSecond == 0.0 {
        return None;
      }
      return Some(needed / rate.perSecond);
    }
  }

  /** The collector's bucket: `capacity` tokens per window. */
  class TokenBucket {
    const rate: Rate
    var level: Level

    constructor (capacity: int, windowSec: real, now: real)
      requires capacity > 0 && windowSec != 0.0
      ensures rate == Rate(capacity as real, capacity as real / windowSec) && level == Level(capacity as real, now)
    {
      rate, level := Rate(capacity as real, capacity as real / windowSec), Level(capacity as real, now);
    }

    /** A capacity that is not positive is refused. */
    static method Create(capacity: int, windowSec: real, now: real) returns (bucket: TokenBucket?)
      requires windowSec != 0.0
      ensures bucket == null <==> capacity <= 0
      ensures bucket != null ==> fresh(bucket) && bucket.level == Level(capacity as real, now)
      ensures bucket != null ==> bucket.rate == Rate(capacity as real, capacity as real / windowSec)
    {
      if capacity <= 0 {
        return null;
      }
      bucket := new TokenBucket(capacity, windowSec, now);
    }

    method Consume(now: real, tokens: int) returns (ok: bool)
      modifies this
      ensures ok == Granted(rate, old(level), Event(now, tokens as real))
      ensures level == After(rate, old(level), Event(now, tokens as real))
    {
      var elapsed := now - level.last;
      level := Level(Refill(rate, level.tokens, elapsed), now);
      if level.tokens >= tokens as real {
        level := level.(tokens := level.tokens - tokens as real);
        return true;
      }
      return false;
    }
  }

  // ----- the rate bound

  /** The clock does not run backwards over the events, which start no earlier than `from`. */
  ghost predicate Ordered(from: real, events: seq<Event>)
  {
    && (events != [] ==> from <= events[0].now)
    && (forall i, j :: 0 <= i < j < |events| ==> events[i].now <= events[j].now)
  }

  ghost function Run(r: Rate, s: Level, events: seq<Event>): Level
  {
    if events == [] then s else After(r, Run(r, s, events[..|events| - 1]), events[|events| - 1])
  }

  /** The tokens handed out over the events. */
  ghost function Total(r: Rate, s: Level, events: seq<Event>): real
  {
    if events == [] then
      0.0
    else
      var k := |events| - 1;
      Total(r, s, events[..k]) + Handed(r, Run(r, s, events[..k]), events[k])
  }

  lemma EarnedNonNegative(r: Rate, span: real)
    requires r.perSecond >= 0.0 && span >= 0.0
    ensures Earned(r, span) >= 0.0
    ensures Earned(r, 0.0) == 0.0
  {
  }

  lemma EarnedSplits(r: Rate, a: real, b: real, whole: real)
    requires whole == a + b
    ensures Earned(r, whole) == Earned(r, a) + Earned(r, b)
  {
  }

  /** What e hands out. */
  function Handed(r: Rate, s: Level, e: Event): real
  {
    if Granted(r, s, e) then e.requested else 0.0
  }

  lemma RefillRange(r: Rate, tokens: real, elapsed: real)
    requires r.capacity >= 0.0 && r.perSecond >= 0.0 && tokens >= 0.0 && elapsed >= 0.0
    ensures 0.0 <= Refill(r, tokens, elapsed) <= r.capacity
    ensures Refill(r, tokens, elapsed) <= tokens + Earned(r, elapsed)
  {
    hide Earned;
    EarnedNonNegative(r, elapsed);
  }

  lemma RefillIs(r: Rate, tokens: real, elapsed: real)
    ensures Refill(r, tokens, elapsed) == Min(r.capacity, tokens + Earned(r, elapsed))
  {
  }

  /** One event: what it hands out and leaves comes from the level before and the refill, up to the capacity. */
  lemma OneEvent(r: Rate, s: Level, e: Event)
    requires r.capacity >= 0.0 && r.perSecond >= 0.0 && s.tokens >= 0.0 && s.last <= e.now
    ensures After(r, s, e).tokens >= 0.0 && After(r, s, e).last == e.now
    ensures Handed(r, s, e) + After(r, s, e).tokens <= r.capacity
    ensures Handed(r, s, e) + After(r, s, e).tokens <= s.tokens + Earned(r, e.now - s.last)
    ensures Handed(r, s, e) + After(r, s, e).tokens == Min(r.capacity, s.tokens + Earned(r, e.now - s.last))
  {
    hide Refill, Earned;
    RefillRange(r, s.tokens, e.now - s.last);
    RefillIs(r, s.tokens, e.now - s.last);
  }

  lemma OrderedPrefix(from: real, events: seq<Event>)
    requires Ordered(from, events) && events != []
    ensures Ordered(from, events[..|events| - 1])
    ensures |events| > 1 ==> events[|events| - 2].now <= events[|events| - 1].now
  {
  }

  /** The level never falls below zero, and its time stamp is that of the last event. */
  lemma {:induction false} LevelNonNegative(r: Rate, s: Level, events: seq<Event>)
    requires r.capacity >= 0.0 && r.perSecond >= 0.0 && s.tokens >= 0.0 && Ordered(s.last, events)
    ensures Run(r, s, events).tokens >= 0.0
    ensures Run(r, s, events).last == if events == [] then s.last else events[|events| - 1].now
    decreases |events|
  {
    if events != [] {
      var k := |events| - 1;
      OrderedPrefix(s.last, events);
      LevelNonNegative(r, s, events[..k]);
      hide After;
      OneEvent(r, Run(r, s, events[..k]), events[k]);
    }
  }

  /** Requests that are not negative also keep the level at or below the capacity. */
  lemma {:induction false} LevelWithinCapacity(r: Rate, s: Level, events: seq<Event>)
    requires s.tokens <= r.capacity && forall i :: 0 <= i < |events| ==> events[i].requested >= 0.0
    ensures Run(r, s, events).tokens <= r.capacity
    decreases |events|
  {
    if events != [] {
      LevelWithinCapacity(r, s, events[..|events| - 1]);
    }
  }

  /** The most that may be handed out over `span` seconds. */
  function Budget(r: Rate, span: real): real
  {
    r.capacity + Earned(r, span)
  }

  /** Whatever a bucket held before, over any stretch of events it hands out at most its capacity plus
      what is refilled in the time between the first and the last of them. */
  lemma {:induction false} WindowBound(r: Rate, s: Level, events: seq<Event>)
    requires r.capacity >= 0.0 && r.perSecond >= 0.0 && s.tokens >= 0.0 && Ordered(s.last, events) && events != []
    ensures Total(r, s, events) + Run(r, s, events).tokens
         <= Budget(r, events[|events| - 1].now - events[0].now)
    ensures Total(r, s, events) <= Budget(r, events[|events| - 1].now - events[0].now)
    decreases |events|
  {
    hide After, Handed, Budget, Earned;
    var k := |events| - 1;
    LevelNonNegative(r, s, events);
    OrderedPrefix(s.last, events);
    LevelNonNegative(r, s, events[..k]);
    OneEvent(r, Run(r, s, events[..k]), events[k]);
    if k == 0 {
      assert events[..0] == [];
      BudgetGrows(r, 0.0, 0.0, 0.0);
    } else {
      WindowBound(r, s, events[..k]);
      BudgetGrows(r, events[0].now, events[k - 1].now, events[k].now);
    }
  }

  lemma BudgetGrows(r: Rate, a: real, b: real, c: real)
    ensures Budget(r, c - a) == Budget(r, b - a) + Earned(r, c - b)
    ensures Budget(r, 0.0) == r.capacity
  {
    EarnedSplits(r, b - a, c - b, c - a);
  }

  ghost predicate AskNonNegative(events: seq<Event>)
  {
    forall i :: 0 <= i < |events| ==> events[i].requested >= 0.0
  }

  lemma {:induction false} TotalNonNegative(r: Rate, s: Level, events: seq<Event>)
    requires AskNonNegative(events)
    ensures Total(r, s, events) >= 0.0
    decreases |events|
  {
    if events != [] {
      TotalNonNegative(r, s, events[..|events| - 1]);
    }
  }

  /** What was there at first and was earned since, as far as the bucket could hold it. */
  function Supply(r: Rate, s: Level, now: real): real
  {
    Min(r.capacity, s.tokens + Earned(r, now - s.last))
  }

  lemma SupplyLater(r: Rate, s: Level, earlier: real, now: real, handed: real, left: real)
    requires r.perSecond >= 0.0 && earlier <= now && handed >= 0.0 && handed + left >= Supply(r, s, earlier)
    ensures handed + Min(r.capacity, left + Earned(r, now - earlier)) >= Supply(r, s, now)
  {
    EarnedSplits(r, earlier - s.last, now - earlier, now - s.last);
    EarnedNonNegative(r, now - earlier);
    hide Earned;
  }

  /** Nothing gets lost: what a bucket hands out over any run of events, and what it then holds, is at least
      what it held and earned, or its capacity if that is less. */
  lemma {:induction false} NothingIsLost(r: Rate, s: Level, events: seq<Event>)
    requires 0.0 <= s.tokens <= r.capacity && r.perSecond >= 0.0 && Ordered(s.last, events) && AskNonNegative(events)
    ensures Total(r, s, events) + Run(r, s, events).tokens >= Supply(r, s, Run(r, s, events).last)
    decreases |events|
  {
    if events == [] {
      EarnedNonNegative(r, 0.0);
    } else {
      var k := |events| - 1;
      var before := Run(r, s, events[..k]);
      OrderedPrefix(s.last, events);
      LevelNonNegative(r, s, events[..k]);
      NothingIsLost(r, s, events[..k]);
      TotalNonNegative(r, s, events[..k]);
      hide After, Handed, Supply;
      OneEvent(r, before, events[k]);
      SupplyLater(r, s, before.last, events[k].now, Total(r, s, events[..k]), before.tokens);
    }
  }

  /** A request is refused only if, with it, more would have been handed out than was held and earned, or
      than the capacity if that is less. */
  lemma RefusedOnlyWhenSpent(r: Rate, s: Level, events: seq<Event>, e: Event)
    requires 0.0 <= s.tokens <= r.capacity && r.perSecond >= 0.0 && AskNonNegative(events) && Ordered(s.last, events)
    requires Run(r, s, events).last <= e.now && !Granted(r, Run(r, s, events), e)
    ensures Total(r, s, events) + e.requested > Supply(r, s, e.now)
  {
    var before := Run(r, s, events);
    NothingIsLost(r, s, events);
    TotalNonNegative(r, s, events);
    RefillIs(r, before.tokens, e.now - before.last);
    hide Run, Total, Refill, Supply;
    SupplyLater(r, s, before.last, e.now, Total(r, s, events), before.tokens);
  }

  // ----- waiting

  function Wait(r: Rate, s: Level): real
    requires r.perSecond > 0.0
  {
    if s.tokens >= 1.0 then 0.0 else (1.0 - s.tokens) / r.perSecond
  }

  /** After waiting that long, a request for one token succeeds exactly when the bucket can hold one. */
  lemma WaitSuffices(r: Rate, s: Level, now: real)
    requires r.perSecond > 0.0 && now >= s.last + Wait(r, s)
    ensures Granted(r, s, Event(now, 1.0)) <==> r.capacity >= 1.0
  {
    var w := Wait(r, s);
    WaitEarns(r, s);
    EarnedSplits(r, w, now - s.last - w, now - s.last);
    EarnedNonNegative(r, now - s.last - w);
    EarnedNonNegative(r, w);
    hide Earned, Wait;
  }

  /** The waiting time is exact: an earlier request fails, a later one succeeds, if nothing else is
      taken and the bucket can hold one token. */
  lemma WaitIsExact(r: Rate, s: Level, now: real)
    requires r.perSecond > 0.0 && s.last <= now
    ensures Granted(r, s, Event(now, 1.0)) <==> r.capacity >= 1.0 && now >= s.last + Wait(r, s)
  {
    if now >= s.last + Wait(r, s) {
      WaitSuffices(r, s, now);
    } else {
      EarnsLess(r, now - s.last, Wait(r, s));
      assert Earned(r, Wait(r, s)) == 1.0 - s.tokens;
    }
  }

  lemma EarnsLess(r: Rate, a: real, b: real)
    requires r.perSecond > 0.0 && a < b
    ensures Earned(r, a) < Earned(r, b)
  {
    assert (b - a) * r.perSecond > 0.0;
  }

  /** Waiting makes up for what is missing to one token. */
  lemma WaitEarns(r: Rate, s: Level)
    requires r.perSecond > 0.0
    ensures Wait(r, s) >= 0.0 && s.tokens + Earned(r, Wait(r, s)) >= 1.0
  {
    WaitNonNegative(r, s);
    if s.tokens < 1.0 {
      assert (1.0 - s.tokens) / r.perSecond * r.perSecond == 1.0 - s.tokens;
    }
  }

  lemma WaitNonNegative(r: Rate, s: Level)
    requires r.perSecond > 0.0
    ensures Wait(r, s) >= 0.0
  {
  }

  /** The distributed bucket's estimate, the time one token takes, is never too short. */
  lemma OneTokenSuffices(r: Rate, s: Level, now: real)
    requires r.perSecond > 0.0 && s.tokens >= 0.0 && now >= s.last + 1.0 / r.perSecond
    ensures Granted(r, s, Event(now, 1.0)) <==> r.capacity >= 1.0
  {
    var w := 1.0 / r.perSecond;
    assert Earned(r, w) == 1.0;
    EarnedSplits(r, w, now - s.last - w, now - s.last);
    EarnedNonNegative(r, now - s.last - w);
    hide Earned;
  }

  // ----- the Redis script

  const EXPIRY := 3600.0

  /** What the script reads: nothing once the key, written at `last`, has expired; then a full bucket. */
  function Read(r: Rate, stored: Option<Level>, now: real): Level
  {
    if stored.Some? && now < stored.value.last + EXPIRY then stored.value else Level(r.capacity, now)
  }

  function LuaRefilled(r: Rate, s: Level, now: real): real
  {
    var elapsed := if now > s.last then now - s.last else 0.0;
    Refill(r, s.tokens, elapsed)
  }

  function LuaGranted(r: Rate, stored: Option<Level>, e: Event): bool
  {
    LuaRefilled(r, Read(r, stored, e.now), e.now) >= e.requested
  }

  function LuaAfter(r: Rate, stored: Option<Level>, e: Event): Option<Level>
  {
    var tokens := LuaRefilled(r, Read(r, stored, e.now), e.now);
    Some(Level(if tokens >= e.requested then tokens - e.requested else tokens, e.now))
  }

  /** As long as a key lives long enough to refill the bucket, the script is the plain bucket: losing
      the key loses nothing. */
  lemma LuaIsBucket(r: Rate, s: Level, e: Event)
    requires r.perSecond >= 0.0 && r.capacity <= EXPIRY * r.perSecond && s.tokens >= 0.0 && s.last <= e.now
    ensures LuaGranted(r, Some(s), e) == Granted(r, s, e) && LuaAfter(r, Some(s), e) == Some(After(r, s, e))
  {
    if e.now >= s.last + EXPIRY {
      FullAgain(r, s.tokens, e.now - s.last);
      NothingToRefill(r, r.capacity);
    } else {
      assert e.now - s.last == if e.now > s.last then e.now - s.last else 0.0;
    }
    hide Refill;
  }

  /** One run of the script, on any clock: what it hands out and leaves is what it found after refilling,
      which is that of the plain bucket while the key lives, a full bucket when there is none, and no
      more and no less than before when the clock has gone back. */
  lemma LuaOneEvent(r: Rate, stored: Option<Level>, e: Event)
    ensures var after, found := LuaAfter(r, stored, e), LuaRefilled(r, Read(r, stored, e.now), e.now);
      && after.Some? && after.value.last == e.now
      && LuaHanded(r, stored, e) + after.value.tokens == found
      && (LuaHanded(r, stored, e) == e.requested || (LuaHanded(r, stored, e) == 0.0 && found < e.requested))
      && match stored
         case None => found == r.capacity
         case Some(s) =>
           if e.now >= s.last + EXPIRY then found == r.capacity
           else if e.now >= s.last then found == Supply(r, s, e.now)
           else found == Min(r.capacity, s.tokens)
  {
    NothingToRefill(r, r.capacity);
    if stored.Some? {
      NothingToRefill(r, stored.value.tokens);
      RefillIs(r, stored.value.tokens, e.now - stored.value.last);
    }
    hide Refill, Earned;
  }

  lemma FullAgain(r: Rate, tokens: real, elapsed: real)
    requires r.perSecond >= 0.0 && r.capacity <= EXPIRY * r.perSecond && tokens >= 0.0 && elapsed >= EXPIRY
    ensures Refill(r, tokens, elapsed) == r.capacity
  {
    EarnedNonNegative(r, elapsed - EXPIRY);
    EarnedSplits(r, EXPIRY, elapsed - EXPIRY, elapsed);
    assert Earned(r, EXPIRY) == EXPIRY * r.perSecond;
    hide Earned;
  }

  lemma NothingToRefill(r: Rate, tokens: real)
    ensures Refill(r, tokens, 0.0) == Min(r.capacity, tokens)
  {
  }

  /** Starting without a key is starting with a full bucket. */
  lemma LuaStartsFull(r: Rate, e: Event)
    ensures LuaGranted(r, None, e) == Granted(r, Level(r.capacity, e.now), e)
    ensures LuaAfter(r, None, e) == Some(After(r, Level(r.capacity, e.now), e))
  {
  }

  ghost function LuaRun(r: Rate, stored: Option<Level>, events: seq<Event>): Option<Level>
  {
    if events == [] then stored else LuaAfter(r, LuaRun(r, stored, events[..|events| - 1]), events[|events| - 1])
  }

  /** What the script hands out. */
  function LuaHanded(r: Rate, stored: Option<Level>, e: Event): real
  {
    if LuaGranted(r, stored, e) then e.requested else 0.0
  }

  ghost function LuaTotal(r: Rate, stored: Option<Level>, events: seq<Event>): real
  {
    if events == [] then
      0.0
    else
      var k := |events| - 1;
      LuaTotal(r, stored, events[..k]) + LuaHanded(r, LuaRun(r, stored, events[..k]), events[k])
  }

  /** The state the script's key stands for at the first event. */
  function Start(r: Rate, stored: Option<Level>, events: seq<Event>): Level
    requires stored.None? ==> events != []
  {
    match stored
    case Some(s) => s
    case None => Level(r.capacity, events[0].now)
  }

  lemma {:induction false} LuaRunIsRun(r: Rate, stored: Option<Level>, events: seq<Event>)
    requires r.capacity >= 0.0 && r.perSecond >= 0.0 && r.capacity <= EXPIRY * r.perSecond && events != []
    requires stored.Some? ==> stored.value.tokens >= 0.0
    requires Ordered(Start(r, stored, events).last, events)
    ensures LuaRun(r, stored, events) == Some(Run(r, Start(r, stored, events), events))
    ensures LuaTotal(r, stored, events) == Total(r, Start(r, stored, events), events)
    decreases |events|
  {
    var k := |events| - 1;
    var s := Start(r, stored, events);
    if k == 0 {
      assert events[..0] == [];
      if stored.None? {
        LuaStartsFull(r, events[0]);
      } else {
        LuaIsBucket(r, s, events[0]);
      }
    } else {
      OrderedPrefix(s.last, events);
      LuaRunIsRun(r, stored, events[..k]);
      LevelNonNegative(r, s, events[..k]);
      LuaIsBucket(r, Run(r, s, events[..k]), events[k]);
    }
  }

  ghost predicate LuaBound(r: Rate, events: seq<Event>)
    requires events != []
  {
    LuaTotal(r, None, events) <= Budget(r, events[|events| - 1].now - events[0].now)
  }

  /** The script keeps the rate bound over every run exactly when a key lives long enough to refill the bucket. */
  lemma LuaBoundIsExact(r: Rate)
    requires r.capacity >= 0.0 && r.perSecond >= 0.0
    ensures (forall events: seq<Event> :: events != [] && Ordered(events[0].now, events) ==> LuaBound(r, events))
       <==> r.capacity <= EXPIRY * r.perSecond
  {
    if r.capacity <= EXPIRY * r.perSecond {
      forall events: seq<Event> | events != [] && Ordered(events[0].now, events) ensures LuaBound(r, events) {
        LuaRunIsRun(r, None, events);
        WindowBound(r, Level(r.capacity, events[0].now), events);
      }
    } else {
      ExpiryForgets(r);
    }
  }

  /** Otherwise emptying the bucket before and right after the expiry hands out two full buckets. */
  lemma ExpiryForgets(r: Rate)
    requires r.capacity >= 0.0 && r.perSecond >= 0.0 && r.capacity > EXPIRY * r.perSecond
    ensures var events := [Event(0.0, r.capacity), Event(EXPIRY, r.capacity)];
      Ordered(0.0, events) && !LuaBound(r, events)
  {
    var e, f := Event(0.0, r.capacity), Event(EXPIRY, r.capacity);
    var events := [e, f];
    assert events[..1] == [e] && [e][..0] == [];
    assert LuaRun(r, None, []) == None && LuaTotal(r, None, []) == 0.0;
    assert LuaRun(r, None, [e]) == Some(Level(0.0, 0.0)) && LuaTotal(r, None, [e]) == r.capacity;
    assert LuaTotal(r, None, events) == 2.0 * r.capacity;
  }

  // ----- the distributed bucket

  /** What Redis does on a call: it is not there, it answers, or the call raises before or after the
      script has run. */
  datatype Redis = Unavailable | Answers | FailsBefore | FailsAfter

  datatype Call = Call(event: Event, redis: Redis)

  /** The key in Redis and the bucket to fall back to. */
  datatype Pair = Pair(stored: Option<Level>, local: Level)

  function PairGranted(r: Rate, s: Pair, c: Call): bool
  {
    if c.redis.Answers? then LuaGranted(r, s.stored, c.event) else Granted(r, s.local, c.event)
  }

  function PairAfter(r: Rate, s: Pair, c: Call): Pair
  {
    match c.redis
    case Answers => s.(stored := LuaAfter(r, s.stored, c.event))
    case FailsAfter => Pair(LuaAfter(r, s.stored, c.event), After(r, s.local, c.event))
    case _ => s.(local := After(r, s.local, c.event))
  }

  class DistributedTokenBucket {
    const fallback: InMemoryTokenBucket
    /** What Redis holds under the bucket's key. */
    var stored: Option<Level>

    constructor (capacity: real, refillRate: real, now: real, stored: Option<Level>)
      ensures fallback.rate == Rate(capacity, refillRate) && fallback.level == Level(capacity, now)
      ensures this.stored == stored && fresh(fallback)
    {
      fallback := new InMemoryTokenBucket(capacity, refillRate, now);
      this.stored := stored;
    }

    method Acquire(now: real, tokens: real, redis: Redis) returns (ok: bool)
      modifies this, fallback
      ensures ok == PairGranted(fallback.rate, old(Pair(stored, fallback.level)), Call(Event(now, tokens), redis))
      ensures Pair(stored, fallback.level)
           == PairAfter(fallback.rate, old(Pair(stored, fallback.level)), Call(Event(now, tokens), redis))
    {
      if redis.Unavailable? {
        ok := fallback.Acquire(now, tokens);
        return;
      }
      var e := Event(now, tokens);
      if !redis.FailsBefore? {
        ok := LuaGranted(fallback.rate, stored, e);
        stored := LuaAfter(fallback.rate, stored, e);
      }
      if !redis.Answers? {
        ok := fallback.Acquire(now, tokens);
      }
    }
  }

  ghost function PairRun(r: Rate, s: Pair, calls: seq<Call>): Pair
  {
    if calls == [] then s else PairAfter(r, PairRun(r, s, calls[..|calls| - 1]), calls[|calls| - 1])
  }

  function PairHanded(r: Rate, s: Pair, c: Call): real
  {
    if PairGranted(r, s, c) then c.event.requested else 0.0
  }

  ghost function PairTotal(r: Rate, s: Pair, calls: seq<Call>): real
  {
    if calls == [] then
      0.0
    else
      var k := |calls| - 1;
      PairTotal(r, s, calls[..k]) + PairHanded(r, PairRun(r, s, calls[..k]), calls[k])
  }

  /** The rate at which the script refills: its own, or what the expiry of the key amounts to. */
  function Effective(r: Rate): Rate
  {
    Rate(r.capacity, Max(r.perSecond, r.capacity / EXPIRY))
  }

  lemma EffectiveIsEnough(r: Rate)
    ensures var e := Effective(r);
      e.capacity == r.capacity && e.perSecond >= r.perSecond && e.capacity <= EXPIRY * e.perSecond
    ensures r.capacity <= EXPIRY * r.perSecond <==> Effective(r) == r
  {
  }

  /** What the Redis bucket could at most hand out at a given time. */
  function Available(r: Rate, stored: Option<Level>, now: real): real
  {
    match stored
    case None => r.capacity
    case Some(s) => Refilled(Effective(r), s, now)
  }

  ghost predicate Sane(r: Rate, s: Pair, now: real)
  {
    && s.local.tokens >= 0.0 && s.local.last <= now
    && (s.stored.Some? ==> s.stored.value.tokens >= 0.0 && s.stored.value.last <= now)
  }

  ghost predicate NonNegative(r: Rate)
  {
    r.capacity >= 0.0 && r.perSecond >= 0.0
  }

  lemma RefillLater(r: Rate, tokens: real, elapsed: real, longer: real, more: real)
    requires r.perSecond >= 0.0 && more >= 0.0 && longer == elapsed + more
    ensures Refill(r, tokens, longer) <= Refill(r, tokens, elapsed) + Earned(r, more)
  {
    hide Earned;
    EarnedSplits(r, elapsed, more, longer);
    EarnedNonNegative(r, more);
  }

  /** An event takes what it hands out from what was available. */
  lemma LocalTakes(r: Rate, s: Level, e: Event)
    requires r.capacity >= 0.0 && r.perSecond >= 0.0 && s.tokens >= 0.0 && s.last <= e.now && e.requested >= 0.0
    ensures Handed(r, s, e) + Refilled(r, After(r, s, e), e.now) <= Refilled(r, s, e.now)
    ensures After(r, s, e).tokens >= 0.0
  {
    RefillRange(r, s.tokens, e.now - s.last);
    NothingToRefill(r, After(r, s, e).tokens);
    hide Refill;
  }

  lemma FasterRefill(r: Rate, tokens: real, elapsed: real)
    requires elapsed >= 0.0
    ensures Refill(r, tokens, elapsed) <= Refill(Effective(r), tokens, elapsed)
  {
    EffectiveIsEnough(r);
    assert elapsed * (Effective(r).perSecond - r.perSecond) >= 0.0;
  }

  /** The script never has more than the bucket with the effective rate. */
  lemma ScriptHasNoMore(r: Rate, stored: Option<Level>, now: real)
    requires NonNegative(r) && (stored.Some? ==> stored.value.tokens >= 0.0 && stored.value.last <= now)
    ensures 0.0 <= LuaRefilled(r, Read(r, stored, now), now) <= Available(r, stored, now)
  {
    EffectiveIsEnough(r);
    if stored.Some? && now < stored.value.last + EXPIRY {
      var elapsed := now - stored.value.last;
      FasterRefill(r, stored.value.tokens, elapsed);
      RefillRange(r, stored.value.tokens, elapsed);
    } else {
      NothingToRefill(r, r.capacity);
      if stored.Some? {
        FullAgain(Effective(r), stored.value.tokens, now - stored.value.last);
      }
    }
    hide Refill, Effective;
  }

  lemma LuaTakes(r: Rate, stored: Option<Level>, e: Event)
    requires NonNegative(r) && e.requested >= 0.0
    requires stored.Some? ==> stored.value.tokens >= 0.0 && stored.value.last <= e.now
    ensures var after := LuaAfter(r, stored, e);
      && after.value.tokens >= 0.0 && after.value.last == e.now
      && LuaHanded(r, stored, e) + Available(r, after, e.now) <= Available(r, stored, e.now)
  {
    ScriptHasNoMore(r, stored, e.now);
    NothingToRefill(Effective(r), LuaAfter(r, stored, e).value.tokens);
    hide Refill, LuaRefilled, Effective;
  }

  lemma CallTakes(r: Rate, s: Pair, c: Call)
    requires NonNegative(r) && Sane(r, s, c.event.now) && c.event.requested >= 0.0
    ensures var t, after := c.event.now, PairAfter(r, s, c);
      && Sane(r, after, t)
      && PairHanded(r, s, c) + Available(r, after.stored, t) + Refilled(r, after.local, t)
         <= Available(r, s.stored, t) + Refilled(r, s.local, t)
  {
    LuaTakes(r, s.stored, c.event);
    LocalTakes(r, s.local, c.event);
    hide Refill, LuaAfter, LuaGranted, Granted;
  }

  lemma TimePasses(r: Rate, s: Pair, now: real, later: real)
    requires NonNegative(r) && Sane(r, s, now) && now <= later
    ensures Available(r, s.stored, later) <= Available(r, s.stored, now) + Earned(Effective(r), later - now)
    ensures Refilled(r, s.local, later) <= Refilled(r, s.local, now) + Earned(r, later - now)
  {
    EffectiveIsEnough(r);
    hide Refilled, Earned, Effective;
    RefilledLater(r, s.local, now, later);
    EarnedNonNegative(Effective(r), later - now);
    if s.stored.Some? {
      RefilledLater(Effective(r), s.stored.value, now, later);
    }
  }

  lemma RefilledLater(r: Rate, s: Level, now: real, later: real)
    requires r.perSecond >= 0.0 && now <= later
    ensures Refilled(r, s, later) <= Refilled(r, s, now) + Earned(r, later - now)
  {
    hide Refill, Earned;
    RefillLater(r, s.tokens, now - s.last, later - s.last, later - now);
  }

  ghost function Times(calls: seq<Call>): seq<Event>
  {
    seq(|calls|, i requires 0 <= i < |calls| => calls[i].event)
  }

  /** What the script and the fallback may hand out together. */
  function Both(r: Rate, span: real): real
  {
    Budget(Effective(r), span) + Budget(r, span)
  }

  /** However calls switch between Redis and the fallback, even when a reply is lost after the script
      has run, any stretch hands out at most what the two buckets would. */
  lemma {:induction false} DistributedBound(r: Rate, s: Pair, calls: seq<Call>)
    requires NonNegative(r) && calls != [] && Sane(r, s, calls[0].event.now)
    requires Ordered(calls[0].event.now, Times(calls))
    requires forall i :: 0 <= i < |calls| ==> calls[i].event.requested >= 0.0
    ensures var t, end := calls[|calls| - 1].event.now, PairRun(r, s, calls);
      && Sane(r, end, t)
      && PairTotal(r, s, calls) + Available(r, end.stored, t) + Refilled(r, end.local, t)
         <= Both(r, t - calls[0].event.now)
    ensures PairTotal(r, s, calls) <= Both(r, calls[|calls| - 1].event.now - calls[0].event.now)
    decreases |calls|
  {
    hide Refilled, Available, PairHanded, PairAfter, NonNegative, Budget, Earned, Effective;
    var k := |calls| - 1;
    var t := calls[k].event.now;
    if k == 0 {
      assert calls[..k] == [] && PairRun(r, s, []) == s && PairTotal(r, s, []) == 0.0;
      CallTakes(r, s, calls[0]);
      AtMostFull(r, s, t);
      AtMostFull(r, PairRun(r, s, calls), t);
      assert PairRun(r, s, calls) == PairAfter(r, s, calls[0]) && PairTotal(r, s, calls) == PairHanded(r, s, calls[0]);
      BudgetGrows(r, t, t, t);
      BudgetGrows(Effective(r), t, t, t);
      EffectiveIsEnough(r);
      assert t - calls[0].event.now == 0.0;
    } else {
      var before := PairRun(r, s, calls[..k]);
      var u := calls[k - 1].event.now;
      CallsPrefix(calls);
      assert calls[..k][0] == calls[0] && calls[..k][k - 1] == calls[k - 1];
      DistributedBound(r, s, calls[..k]);
      TimePasses(r, before, u, t);
      CallTakes(r, before, calls[k]);
      AtMostFull(r, PairRun(r, s, calls), t);
      BudgetGrows(r, calls[0].event.now, u, t);
      BudgetGrows(Effective(r), calls[0].event.now, u, t);
    }
  }

  lemma CallsPrefix(calls: seq<Call>)
    requires |calls| > 1 && Ordered(calls[0].event.now, Times(calls))
    ensures var k := |calls| - 1;
      Ordered(calls[0].event.now, Times(calls[..k])) && calls[k - 1].event.now <= calls[k].event.now
  {
    var k := |calls| - 1;
    assert Times(calls)[..k] == Times(calls[..k]);
    OrderedPrefix(calls[0].event.now, Times(calls));
    assert Times(calls)[k - 1].now <= Times(calls)[k].now;
  }

  lemma AtMostFull(r: Rate, s: Pair, now: real)
    requires NonNegative(r) && Sane(r, s, now)
    ensures 0.0 <= Available(r, s.stored, now) <= r.capacity && 0.0 <= Refilled(r, s.local, now) <= r.capacity
  {
    RefillRange(r, s.local.tokens, now - s.local.last);
    if s.stored.Some? {
      EffectiveIsEnough(r);
      RefillRange(Effective(r), s.stored.value.tokens, now - s.stored.value.last);
    }
  }

  // ----- when one or two budgets are enough

  /** From the state the constructor leaves, ordered calls hand out at most `times` budgets. */
  ghost predicate Within(r: Rate, calls: seq<Call>, times: real)
    requires calls != []
  {
    PairTotal(r, Pair(None, Level(r.capacity, calls[0].event.now)), calls)
      <= times * Budget(r, calls[|calls| - 1].event.now - calls[0].event.now)
  }

  ghost predicate Admissible(calls: seq<Call>)
  {
    && calls != [] && Ordered(calls[0].event.now, Times(calls))
    && forall i :: 0 <= i < |calls| ==> calls[i].event.requested >= 0.0
  }

  /** Twice the budget of one bucket is enough for every run exactly when a key lives long enough to
      refill the bucket. */
  lemma TwoBudgetsAreExact(r: Rate)
    requires NonNegative(r)
    ensures (forall calls: seq<Call> :: Admissible(calls) ==> Within(r, calls, 2.0))
      <==> r.capacity <= EXPIRY * r.perSecond
  {
    if r.capacity <= EXPIRY * r.perSecond {
      forall calls: seq<Call> | Admissible(calls) ensures Within(r, calls, 2.0) {
        EffectiveIsEnough(r);
        DistributedBound(r, Pair(None, Level(r.capacity, calls[0].event.now)), calls);
      }
    } else {
      var calls := ThreeBuckets(r);
    }
  }

  /** Both buckets are emptied at once, and again when the key has just expired. */
  lemma ThreeBuckets(r: Rate) returns (calls: seq<Call>)
    requires NonNegative(r) && r.capacity > EXPIRY * r.perSecond
    ensures Admissible(calls) && !Within(r, calls, 2.0)
  {
    var full, rest := r.capacity, EXPIRY * r.perSecond;
    var a, b := Call(Event(0.0, full), Answers), Call(Event(0.0, full), Unavailable);
    var c, d := Call(Event(EXPIRY, full), Answers), Call(Event(EXPIRY, rest), Unavailable);
    calls := [a, b, c, d];
    var start := Pair(None, Level(full, 0.0));
    TwoCalls(r, 0.0);
    var emptied := Pair(Some(Level(0.0, 0.0)), Level(0.0, 0.0));
    AfterCall(r, start, [a, b], c);
    AfterCall(r, start, [a, b, c], d);
    assert [a, b] + [c] == [a, b, c] && [a, b, c] + [d] == calls;
    assert PairHanded(r, emptied, c) == full;
    assert Earned(r, EXPIRY) == rest;
    assert PairHanded(r, PairAfter(r, emptied, c), d) == rest;
  }

  lemma AfterCall(r: Rate, s: Pair, calls: seq<Call>, c: Call)
    ensures PairRun(r, s, calls + [c]) == PairAfter(r, PairRun(r, s, calls), c)
    ensures PairTotal(r, s, calls + [c]) == PairTotal(r, s, calls) + PairHanded(r, PairRun(r, s, calls), c)
  {
    assert (calls + [c])[..|calls|] == calls;
  }

  lemma TwoCalls(r: Rate, now: real)
    requires NonNegative(r)
    ensures var full := r.capacity;
      var calls := [Call(Event(now, full), Answers), Call(Event(now, full), Unavailable)];
      var start := Pair(None, Level(full, now));
      && PairRun(r, start, calls) == Pair(Some(Level(0.0, now)), Level(0.0, now))
      && PairTotal(r, start, calls) == 2.0 * full
  {
    var full := r.capacity;
    var a, b := Call(Event(now, full), Answers), Call(Event(now, full), Unavailable);
    var start := Pair(None, Level(full, now));
    AfterCall(r, start, [], a);
    AfterCall(r, start, [a], b);
    assert [] + [a] == [a] && [a] + [b] == [a, b];
  }

  /** One budget is not enough for calls that reach both buckets, even at one instant. */
  lemma OneBudgetIsNotEnough(r: Rate, now: real)
    requires NonNegative(r) && r.capacity > 0.0
    ensures var calls := [Call(Event(now, r.capacity), Answers), Call(Event(now, r.capacity), Unavailable)];
      Admissible(calls) && !Within(r, calls, 1.0)
  {
    TwoCalls(r, now);
  }

  /** The events that reach the script: those it answers, and those whose answer gets lost. */
  ghost function Scripted(calls: seq<Call>): seq<Event>
  {
    if calls == [] then
      []
    else
      var c := calls[|calls| - 1];
      Scripted(calls[..|calls| - 1]) + if c.redis.Answers? || c.redis.FailsAfter? then [c.event] else []
  }

  /** The events that reach the fallback: all that the script does not answer. */
  ghost function Fallen(calls: seq<Call>): seq<Event>
  {
    if calls == [] then
      []
    else
      var c := calls[|calls| - 1];
      Fallen(calls[..|calls| - 1]) + if c.redis.Answers? then [] else [c.event]
  }

  lemma RunSnoc(r: Rate, s: Level, events: seq<Event>, e: Event)
    ensures Run(r, s, events + [e]) == After(r, Run(r, s, events), e)
  {
    assert (events + [e])[..|events|] == events;
  }

  lemma LuaRunSnoc(r: Rate, stored: Option<Level>, events: seq<Event>, e: Event)
    ensures LuaRun(r, stored, events + [e]) == LuaAfter(r, LuaRun(r, stored, events), e)
  {
    assert (events + [e])[..|events|] == events;
  }

  lemma PairNext(r: Rate, s: Pair, calls: seq<Call>)
    requires calls != []
    ensures var k := |calls| - 1; PairRun(r, s, calls) == PairAfter(r, PairRun(r, s, calls[..k]), calls[k])
  {
  }

  lemma EventsNext(calls: seq<Call>)
    requires calls != []
    ensures var k := |calls| - 1;
      var redis, before := calls[k].redis, calls[..k];
      && Scripted(calls) == (if redis.Answers? || redis.FailsAfter? then Scripted(before) + [calls[k].event]
                             else Scripted(before))
      && Fallen(calls) == (if redis.Answers? then Fallen(before) else Fallen(before) + [calls[k].event])
  {
  }

  lemma CallSplits(r: Rate, s: Pair, c: Call)
    ensures PairAfter(r, s, c).stored ==
      if c.redis.Answers? || c.redis.FailsAfter? then LuaAfter(r, s.stored, c.event) else s.stored
    ensures PairAfter(r, s, c).local == if c.redis.Answers? then s.local else After(r, s.local, c.event)
  {
    hide LuaAfter, After;
  }

  /** After any run of calls the key is what the script makes of the events that reached it, and the
      fallback what a plain bucket makes of those that reached it: an event whose answer got lost is
      charged to both. */
  lemma {:induction false} CallsSplit(r: Rate, s: Pair, calls: seq<Call>)
    ensures PairRun(r, s, calls).stored == LuaRun(r, s.stored, Scripted(calls))
    ensures PairRun(r, s, calls).local == Run(r, s.local, Fallen(calls))
    decreases |calls|
  {
    hide LuaAfter, After, PairAfter;
    if calls != [] {
      var k := |calls| - 1;
      var c, before := calls[k], PairRun(r, s, calls[..k]);
      CallsSplit(r, s, calls[..k]);
      CallSplits(r, before, c);
      EventsNext(calls);
      hide Scripted, Fallen, PairRun, Run, LuaRun;
      LuaRunSnoc(r, s.stored, Scripted(calls[..k]), c.event);
      RunSnoc(r, s.local, Fallen(calls[..k]), c.event);
      PairNext(r, s, calls);
    }
  }

  lemma {:induction false} FallbackOnly(r: Rate, s: Pair, calls: seq<Call>)
    requires forall i :: 0 <= i < |calls| ==> !calls[i].redis.Answers?
    ensures PairRun(r, s, calls).local == Run(r, s.local, Times(calls))
    ensures PairTotal(r, s, calls) == Total(r, s.local, Times(calls))
    decreases |calls|
  {
    if calls != [] {
      var k := |calls| - 1;
      FallbackOnly(r, s, calls[..k]);
      assert Times(calls)[..k] == Times(calls[..k]);
    }
  }

  lemma {:induction false} ScriptOnly(r: Rate, s: Pair, calls: seq<Call>)
    requires forall i :: 0 <= i < |calls| ==> calls[i].redis.Answers?
    ensures PairRun(r, s, calls).stored == LuaRun(r, s.stored, Times(calls))
    ensures PairTotal(r, s, calls) == LuaTotal(r, s.stored, Times(calls))
    decreases |calls|
  {
    if calls != [] {
      var k := |calls| - 1;
      ScriptOnly(r, s, calls[..k]);
      assert Times(calls)[..k] == Times(calls[..k]);
    }
  }

  /** One budget is enough while all calls reach the same bucket: always the fallback, or always the
      script with a key that lives long enough. */
  lemma OneBucketOneBudget(r: Rate, calls: seq<Call>)
    requires NonNegative(r) && Admissible(calls)
    requires (forall i :: 0 <= i < |calls| ==> !calls[i].redis.Answers?)
      || (r.capacity <= EXPIRY * r.perSecond && forall i :: 0 <= i < |calls| ==> calls[i].redis.Answers?)
    ensures Within(r, calls, 1.0)
  {
    var from := calls[0].event.now;
    var s, events := Pair(None, Level(r.capacity, from)), Times(calls);
    if calls[0].redis.Answers? {
      ScriptOnly(r, s, calls);
      LuaRunIsRun(r, None, events);
    } else {
      FallbackOnly(r, s, calls);
    }
    WindowBound(r, Level(r.capacity, from), events);
    hide Total, PairTotal, LuaTotal, Budget, Run, LuaRun;
  }
}
