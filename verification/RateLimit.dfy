/** The in-memory rate limiter: fixed windows per key, and a sweep of the expired ones. */
module RateLimit {
  import opened Prelude

  datatype Window = Window(count: nat, resetTime: int)

  type Cache = map<string, Window>

  datatype Answer = Answer(success: bool, limit: int, remaining: int, resetTime: int)

  // ---------------------------------------------------------------- one check, without sweeping

  /** The window a key's check falls into: a new one, or the current one counted up. */
  function Counted(cache: Cache, windowMs: int, now: int, key: string): Window {
    if key !in cache || now > cache[key].resetTime then Window(1, now + windowMs)
    else cache[key].(count := cache[key].count + 1)
  }

  function AnswerFor(cache: Cache, limit: int, windowMs: int, now: int, key: string): Answer {
    var w := Counted(cache, windowMs, now, key);
    if key !in cache || now > cache[key].resetTime then Answer(true, limit, limit - 1, w.resetTime)
    else if w.count > limit then Answer(false, limit, 0, w.resetTime)
    else Answer(true, limit, if limit - w.count > 0 then limit - w.count else 0, w.resetTime)
  }

  function After(cache: Cache, windowMs: int, now: int, key: string): Cache {
    cache[key := Counted(cache, windowMs, now, key)]
  }

  /** The same entries, except for some that have expired. */
  ghost predicate SweptFrom(cache: Cache, full: Cache, now: int) {
    && (forall k :: k in cache ==> k in full && full[k] == cache[k])
    && (forall k :: k in full && k !in cache ==> full[k].resetTime < now)
  }

  // ---------------------------------------------------------------- the limiter

  const SWEEP_MS := 60000

  /** InMemoryRateLimiter; `full` is what the cache would be had it never been swept. */
  class InMemoryRateLimiter {
    const limit: int
    const windowMs: int
    var cache: Cache
    var lastSweep: int
    ghost var full: Cache
    ghost var lastNow: int

    ghost predicate Valid()
      reads this
    {
      SweptFrom(cache, full, lastNow)
    }

    constructor (limit: int, windowMs: int, now: int)
      ensures Valid() && this.limit == limit && this.windowMs == windowMs && full == map[] && lastNow == now
    {
      this.limit, this.windowMs, cache, lastSweep := limit, windowMs, map[], now;
      full, lastNow := map[], now;
    }

    /** The loop over the cache that deletes what has expired. */
    method Sweep(now: int)
      modifies this`cache
      ensures forall k :: k in cache <==> k in old(cache) && now <= old(cache)[k].resetTime
      ensures forall k :: k in cache ==> cache[k] == old(cache)[k]
    {
      var todo := cache.Keys;
      while todo != {}
        invariant todo <= old(cache).Keys
        invariant forall k :: k in cache ==> k in old(cache) && cache[k] == old(cache)[k]
        invariant forall k :: k in old(cache) ==> (k in cache <==> k in todo || now <= old(cache)[k].resetTime)
        decreases |todo|
      {
        var k :| k in todo;
        todo := todo - {k};
        if now > cache[k].resetTime { cache := cache - {k}; }
      }
    }

    /** However often it sweeps, a check at a clock that does not go back answers as if it never did. */
    method Check(now: int, key: string) returns (answer: Answer)
      requires Valid() && now >= lastNow
      modifies this
      ensures Valid() && lastNow == now
      ensures answer == AnswerFor(old(full), limit, windowMs, now, key)
      ensures full == After(old(full), windowMs, now, key)
    {
      if now - lastSweep > SWEEP_MS {
        lastSweep := now;
        Sweep(now);
      }
      full, lastNow := After(full, windowMs, now, key), now;
      if key !in cache || now > cache[key].resetTime {
        cache := cache[key := Window(1, now + windowMs)];
        return Answer(true, limit, limit - 1, now + windowMs);
      }
      var record := cache[key];
      record := record.(count := record.count + 1);
      cache := cache[key := record];
      if record.count > limit { return Answer(false, limit, 0, record.resetTime); }
      answer := Answer(true, limit, if limit - record.count > 0 then limit - record.count else 0, record.resetTime);
    }
  }

  // ---------------------------------------------------------------- runs

  datatype Call = Call(now: int, key: string)

  ghost predicate ClockRuns(calls: seq<Call>) {
    forall i, j :: 0 <= i < j < |calls| ==> calls[i].now <= calls[j].now
  }

  /** The windows after the first n calls. */
  function CacheAfter(calls: seq<Call>, n: nat, windowMs: int): Cache
    requires n <= |calls|
  {
    if n == 0 then map[] else After(CacheAfter(calls, n - 1, windowMs), windowMs, calls[n - 1].now, calls[n - 1].key)
  }

  /** The last of the first n calls that is for the key. */
  function LastOf(calls: seq<Call>, n: nat, key: string): (r: Option<nat>)
    requires n <= |calls|
    ensures r.Some? ==> r.value < n && calls[r.value].key == key
  {
    if n == 0 then None else if calls[n - 1].key == key then Some(n - 1) else LastOf(calls, n - 1, key)
  }

  /** The call that opened the window call n falls into, found without any cache. */
  function Opener(calls: seq<Call>, n: nat, windowMs: int): (o: nat)
    requires n < |calls|
    ensures o <= n && calls[o].key == calls[n].key
  {
    match LastOf(calls, n, calls[n].key)
    case None => n
    case Some(p) =>
      var o := Opener(calls, p, windowMs);
      if calls[n].now > calls[o].now + windowMs then n else o
  }

  /** How many calls from `from` on and before n are for the key. */
  function Checks(calls: seq<Call>, from: nat, n: nat, key: string): nat
    requires from <= n <= |calls|
  {
    if n == from then 0 else Checks(calls, from, n - 1, key) + (if calls[n - 1].key == key then 1 else 0)
  }

  lemma {:induction false} WindowIsCounted(calls: seq<Call>, n: nat, windowMs: int, key: string)
    requires n <= |calls|
    ensures match LastOf(calls, n, key)
            case None => key !in CacheAfter(calls, n, windowMs)
            case Some(p) =>
              var o := Opener(calls, p, windowMs);
              && key in CacheAfter(calls, n, windowMs)
              && CacheAfter(calls, n, windowMs)[key] == Window(Checks(calls, o, n, key), calls[o].now + windowMs)
              && (p > o ==> Checks(calls, o, n, key) > 1)
  {
    if n > 0 {
      WindowIsCounted(calls, n - 1, windowMs, key);
      if calls[n - 1].key == key {
        var o := Opener(calls, n - 1, windowMs);
        if o == n - 1 { assert Checks(calls, o, o, key) == 0; } else { ChecksStart(calls, o, n - 1, key); }
      }
    }
  }

  lemma {:induction false} ChecksStart(calls: seq<Call>, from: nat, n: nat, key: string)
    requires from < n <= |calls| && calls[from].key == key
    ensures Checks(calls, from, n, key) >= 1
  {
    if n == from + 1 {
      assert Checks(calls, from, from, key) == 0;
    } else {
      ChecksStart(calls, from, n - 1, key);
    }
  }

  /**
   * What a check answers in any run, from the calls alone: the window reaches from its first call, the m-th
   * check in it passes up to the limit and leaves the rest. The first one passes at any limit, 0 included.
   */
  lemma EveryAnswer(calls: seq<Call>, n: nat, limit: int, windowMs: int)
    requires n < |calls|
    ensures var a := AnswerFor(CacheAfter(calls, n, windowMs), limit, windowMs, calls[n].now, calls[n].key);
            var o := Opener(calls, n, windowMs);
            var m := Checks(calls, o, n + 1, calls[n].key);
            && (m == 1 <==> o == n)
            && a.limit == limit && a.resetTime == calls[o].now + windowMs
            && (a.success <==> m <= limit || m == 1)
            && a.remaining == (if m <= limit || m == 1 then limit - m else 0)
  {
    var key := calls[n].key;
    WindowIsCounted(calls, n, windowMs, key);
    var o := Opener(calls, n, windowMs);
    if o == n { assert Checks(calls, o, o, key) == 0; } else { ChecksStart(calls, o, n, key); }
  }

  predicate Succeeds(calls: seq<Call>, n: nat, limit: int, windowMs: int)
    requires n < |calls|
  {
    AnswerFor(CacheAfter(calls, n, windowMs), limit, windowMs, calls[n].now, calls[n].key).success
  }

  /** How many of the first n calls are for the key, inside the closed interval, and successful. */
  function Successes(calls: seq<Call>, n: nat, limit: int, windowMs: int, key: string, from: int, to: int): nat
    requires n <= |calls|
  {
    if n == 0 then 0
    else
      Successes(calls, n - 1, limit, windowMs, key, from, to)
      + (if calls[n - 1].key == key && from <= calls[n - 1].now <= to && Succeeds(calls, n - 1, limit, windowMs) then 1 else 0)
  }

  function Min(a: int, b: int): int {
    if a < b then a else b
  }

  /** What the current window of the key allows the interval to hold by now. */
  predicate Within(successes: nat, cache: Cache, key: string, limit: int, windowMs: int, from: int) {
    if key !in cache then successes == 0
    else
      var start, count := cache[key].resetTime - windowMs, cache[key].count;
      if start < from then successes <= Min(count, limit) - 1
      else if start <= from + windowMs then successes <= limit - 1 + Min(count, limit)
      else successes <= 2 * limit - 1
  }

  lemma CallStaysWithin(c: nat, cache: Cache, call: Call, key: string, limit: int, windowMs: int, from: int)
    requires limit >= 1 && windowMs >= 0 && Within(c, cache, key, limit, windowMs, from)
    requires c > 0 ==> call.now >= from
    requires key in cache ==> cache[key].resetTime - windowMs <= call.now
    ensures var success := AnswerFor(cache, limit, windowMs, call.now, call.key).success;
            Within(c + (if call.key == key && from <= call.now <= from + windowMs && success then 1 else 0),
                   After(cache, windowMs, call.now, call.key), key, limit, windowMs, from)
  {
  }

  lemma {:induction false} SuccessesWithin(
    calls: seq<Call>, n: nat, limit: int, windowMs: int, key: string, from: int)
    requires n <= |calls| && ClockRuns(calls) && limit >= 1 && windowMs >= 0
    ensures var c := Successes(calls, n, limit, windowMs, key, from, from + windowMs);
            && Within(c, CacheAfter(calls, n, windowMs), key, limit, windowMs, from)
            && (c > 0 ==> n > 0 && calls[n - 1].now >= from)
            && (key in CacheAfter(calls, n, windowMs) ==>
                  n > 0 && CacheAfter(calls, n, windowMs)[key].resetTime - windowMs <= calls[n - 1].now)
  {
    if n > 0 {
      SuccessesWithin(calls, n - 1, limit, windowMs, key, from);
      var c := Successes(calls, n - 1, limit, windowMs, key, from, from + windowMs);
      assert n > 1 ==> calls[n - 2].now <= calls[n - 1].now;
      CallStaysWithin(c, CacheAfter(calls, n - 1, windowMs), calls[n - 1], key, limit, windowMs, from);
    }
  }

  /** In any closed interval as long as a window, a key succeeds less than twice the limit. */
  lemma LessThanTwiceTheLimit(calls: seq<Call>, limit: int, windowMs: int, key: string, from: int)
    requires ClockRuns(calls) && limit >= 1 && windowMs >= 0
    ensures Successes(calls, |calls|, limit, windowMs, key, from, from + windowMs) <= 2 * limit - 1
  {
    SuccessesWithin(calls, |calls|, limit, windowMs, key, from);
  }

  /** One call opens a window, the rest of the limit comes at its last moment, and as many again in the next one. */
  function Burst(limit: nat, windowMs: int, key: string): (calls: seq<Call>)
    ensures |calls| == 2 * limit
  {
    seq(2 * limit, k => Call(if k == 0 then 0 else if k < limit then windowMs else windowMs + 1, key))
  }

  lemma {:induction false} BurstSoFar(limit: nat, windowMs: int, key: string, n: nat)
    requires limit >= 1 && windowMs >= 1 && 1 <= n <= 2 * limit
    ensures var calls := Burst(limit, windowMs, key);
            && CacheAfter(calls, n, windowMs)
               == map[key := if n <= limit then Window(n, windowMs) else Window(n - limit, 2 * windowMs + 1)]
            && Successes(calls, n, limit, windowMs, key, windowMs, 2 * windowMs) == n - 1
  {
    var calls := Burst(limit, windowMs, key);
    if n == 1 {
      assert CacheAfter(calls, 0, windowMs) == map[] && Successes(calls, 0, limit, windowMs, key, windowMs, 2 * windowMs) == 0;
    } else {
      BurstSoFar(limit, windowMs, key, n - 1);
    }
  }

  /** The bound is met, at every limit and every window. */
  lemma BoundIsMet(limit: nat, windowMs: int, key: string)
    requires limit >= 1 && windowMs >= 1
    ensures var calls := Burst(limit, windowMs, key);
            && ClockRuns(calls)
            && Successes(calls, |calls|, limit, windowMs, key, windowMs, 2 * windowMs) == 2 * limit - 1
  {
    BurstSoFar(limit, windowMs, key, 2 * limit);
  }
}
