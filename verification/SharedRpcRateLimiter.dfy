/**
 `acquire`: the bounded back-off loop around the script, over live Redis keys, while time passes and
 other services make script calls of their own.
 */
module SharedRpcRateLimiter {
  import opened Text
  import opened RpcRateLimiter

  // ---------- back-off arithmetic ----------

  function Pow2(n: nat): nat {
    if n == 0 then 1 else 2 * Pow2(n - 1)
  }

  function Min(a: int, b: int): int {
    if a < b then a else b
  }

  /** The sleep after the given number of refusals. */
  function WaitTime(attempts: nat): int {
    Min(333, 50 * Pow2(Min(attempts, 4)))
  }

  /** 100 ms, then 200 ms, then 333 ms every time. */
  lemma WaitTimes(attempts: nat)
    requires attempts > 0
    ensures WaitTime(attempts) == if attempts == 1 then 100 else if attempts == 2 then 200 else 333
  {
    assert Pow2(1) == 2 && Pow2(2) == 4 && Pow2(3) == 8 && Pow2(4) == 16;
  }

  /** Total sleep of `k` refusals. */
  function Slept(k: nat): int {
    if k == 0 then 0 else Slept(k - 1) + WaitTime(k)
  }

  lemma SleptClosed(k: nat)
    ensures Slept(k) == if k == 0 then 0 else if k == 1 then 100 else 300 + 333 * (k - 2)
  {
    if k > 0 {
      WaitTimes(k);
    }
  }

  lemma SleptNext(k: nat)
    requires k > 0
    ensures Slept(k) == Slept(k - 1) + WaitTime(k) && 0 < WaitTime(k) <= 333
  {
    WaitTimes(k);
  }

  /** How many script calls a call that waits `maxWaitMs` can make. */
  function MaxCalls(maxWaitMs: int): nat {
    if maxWaitMs <= 0 then 0
    else if maxWaitMs <= 100 then 1
    else if maxWaitMs <= 300 then 2
    else 2 + (maxWaitMs - 300 + 332) / 333
  }

  /** `MaxCalls` is the least number of refusals whose sleeps fill `maxWaitMs`; they overshoot by less than 333 ms. */
  lemma MaxCallsExact(maxWaitMs: int, k: nat)
    ensures Slept(k) < maxWaitMs <==> k < MaxCalls(maxWaitMs)
    ensures maxWaitMs > 0 ==> maxWaitMs <= Slept(MaxCalls(maxWaitMs)) < maxWaitMs + 333
  {
    SleptClosed(k);
    SleptClosed(MaxCalls(maxWaitMs));
    if maxWaitMs > 300 {
      var d := maxWaitMs - 300;
      assert 333 * ((d + 332) / 333) <= d + 332 < 333 * ((d + 332) / 333) + 333;
    }
  }

  /** The default of 10 s allows 32 script calls and gives up after 10.29 s of sleep. */
  lemma DefaultWait()
    ensures MaxCalls(10000) == 32 && Slept(MaxCalls(10000)) == 10290
  {
    SleptClosed(32);
  }

  // ---------- Redis ----------

  /** The keys of one chain in Redis, and the clock Redis shares with its callers. */
  class Redis {
    var members: map<Member, int>
    var expiresAt: int
    var limitText: string
    var clock: int
    ghost var log: seq<Attempt>

    /** The sorted set is what the calls logged so far leave behind; the calls come in clock order. */
    ghost predicate Valid()
      reads this
    {
      && Key(members, expiresAt) == Run(log).key
      && InOrder(log, clock)
      && (limitText == "" || ParseInt(limitText).Some?)
    }

    constructor (now: int)
      ensures Valid() && clock == now && log == [] && limitText == ""
    {
      members, expiresAt, limitText, clock, log := map[], 0, "", now, [];
    }

    method Pass(ms: nat)
      requires Valid()
      modifies this`clock
      ensures Valid() && clock == old(clock) + ms
    {
      clock := clock + ms;
    }

    method ZRemRangeByScore(max: int)
      modifies this`members
      ensures members == Prune(Live(Key(old(members), expiresAt), clock), max)
    {
      var live := if clock > expiresAt then map[] else members;
      members := map m | m in live && !(live[m] <= max) :: live[m];
    }

    method ZAdd(score: int, member: Member)
      modifies this`members
      ensures members == old(members)[member := score]
    {
      members := members[member := score];
    }

    method PExpire(ms: int)
      modifies this`expiresAt
      ensures expiresAt == clock + ms
    {
      expiresAt := clock + ms;
    }

    /** The script, executed at the clock's present reading for a caller that read it no later. */
    method Eval(limit: int, windowStart: int, now: int, member: Member) returns (allowed: bool)
      requires Valid()
      requires windowStart == now - 1000 && member.now == now <= clock
      modifies this`members, this`expiresAt, this`log
      ensures Valid() && log == old(log) + [Attempt(limit, member, clock)]
      ensures allowed == Script(Run(old(log)).key, Attempt(limit, member, clock)).1
    {
      hide Run, Live;
      var a := Attempt(limit, member, clock);
      RunSnoc(log, a);
      ghost var kept := Prune(Live(Key(members, expiresAt), clock), windowStart);
      log := log + [a];
      ZRemRangeByScore(windowStart);
      assert members == kept;
      if |members| >= limit {
        return false;
      }
      ZAdd(now, member);
      PExpire(2000);
      return true;
    }

    /** `String(limitPerSecond)` of a number with these digits after the point; `parseInt` drops them. */
    method SeedLimit(whole: int, decimals: string)
      requires Valid() && AllDigits(decimals)
      modifies this`limitText
      ensures Valid() && limitText != "" && ParseInt(limitText) == Some(whole)
    {
      var fraction := if decimals == "" then "" else "." + decimals;
      ParsePrint(whole, fraction);
      limitText := Print(whole) + fraction;
    }
  }

  /** Calls in the order Redis executes them, each with a reading its caller took before, none after `clock`. */
  ghost predicate InOrder(log: seq<Attempt>, clock: int) {
    && (forall i :: 0 <= i < |log| ==> log[i].Now() <= log[i].at <= clock)
    && (forall i, j :: 0 <= i < j < |log| ==> log[i].at <= log[j].at)
  }

  /** No call took longer than `d` ms from its caller's clock reading to Redis. */
  predicate Within(log: seq<Attempt>, d: int) {
    forall i :: 0 <= i < |log| ==> log[i].at <= log[i].Now() + d
  }

  lemma InOrderIsWellTimed(log: seq<Attempt>, clock: int, d: int)
    requires InOrder(log, clock) && FreshMembers(log) && 0 <= d < WINDOW_MS && Within(log, d)
    ensures WellTimed(log, d)
  {
  }

  /** The script's answer to the call at position `i` of the log. */
  function Answer(log: seq<Attempt>, i: nat): bool
    requires i < |log|
  {
    Run(log).answers[i]
  }

  lemma AnswersPersist(log: seq<Attempt>, more: seq<Attempt>)
    ensures forall i :: 0 <= i < |log| ==> Answer(log + more, i) == Answer(log, i)
  {
    if more == [] {
      assert log + more == log;
    } else {
      var n := |more| - 1;
      AnswersPersist(log, more[..n]);
      assert (log + more)[..|log + more| - 1] == log + more[..n];
    }
  }

  /** `now` extends `past` and answers the earlier calls the same way. */
  ghost predicate Extends(now: seq<Attempt>, past: seq<Attempt>) {
    past <= now && forall i :: 0 <= i < |past| ==> Answer(now, i) == Answer(past, i)
  }

  lemma PrefixExtends(now: seq<Attempt>, past: seq<Attempt>)
    requires past <= now
    ensures Extends(now, past)
  {
    AnswersPersist(past, now[|past|..]);
    assert now == past + now[|past|..];
  }

  /** Increasing log positions from `base` on, all made under `limit`; all but perhaps the last refused. */
  ghost predicate OwnCalls(log: seq<Attempt>, base: nat, mine: seq<nat>, limit: int, granted: bool) {
    && (forall i :: 0 <= i < |mine| ==> base <= mine[i] < |log| && log[mine[i]].limit == limit)
    && (forall i, j :: 0 <= i < j < |mine| ==> mine[i] < mine[j])
    && (forall i :: 0 <= i < |mine| ==> (Answer(log, mine[i]) <==> granted && i == |mine| - 1))
  }

  lemma NoOwnCalls(log: seq<Attempt>, base: nat, limit: int)
    ensures OwnCalls(log, base, [], limit, false)
  {
  }

  lemma OwnCallsPersist(now: seq<Attempt>, past: seq<Attempt>, base: nat, mine: seq<nat>, limit: int)
    requires OwnCalls(past, base, mine, limit, false) && past <= now
    ensures OwnCalls(now, base, mine, limit, false)
  {
    PrefixExtends(now, past);
  }

  lemma OwnCallsNext(
      now: seq<Attempt>, past: seq<Attempt>, base: nat, mine: seq<nat>, limit: int, next: nat, granted: bool)
    requires OwnCalls(past, base, mine, limit, false) && past <= now && base <= |past| <= next < |now|
    requires now[next].limit == limit && Answer(now, next) == granted
    ensures OwnCalls(now, base, mine + [next], limit, granted)
  {
    PrefixExtends(now, past);
  }

  lemma OwnCallsMean(log: seq<Attempt>, base: nat, mine: seq<nat>, limit: int, granted: bool)
    requires OwnCalls(log, base, mine, limit, granted) && (granted ==> mine != [])
    ensures forall i :: 0 <= i < |mine| ==> base <= mine[i] < |log| && log[mine[i]].limit == limit
    ensures forall i, j :: 0 <= i < j < |mine| ==> mine[i] < mine[j] && !Answer(log, mine[i])
    ensures granted <==> mine != [] && Answer(log, mine[|mine| - 1])
  {
  }

  // ---------- one call ----------

  /** A script call of another service, `after` ms after the previous one, with a reading `behind` ms old. */
  datatype Rival = Rival(after: nat, behind: nat, limit: int, service: string, rand: string)

  /** Time that passes, and the calls of others that Redis executes meanwhile. */
  datatype Pause = Pause(ms: nat, rivals: seq<Rival>)

  /**
   The delays of one loop pass: between its two clock readings, on the way to Redis, on the way back,
   and what a sleep after a refusal lasts longer than asked.
   */
  datatype Delays = Delays(ready: Pause, there: Pause, back: Pause, over: Pause) {
    function Trip(): nat { ready.ms + there.ms + back.ms }

    function All(): nat { Trip() + over.ms }
  }

  /** The delays of the first `n` passes, when all are refused. */
  function Delayed(delays: nat -> Delays, n: nat): nat {
    if n == 0 then 0 else Delayed(delays, n - 1) + delays(n - 1).All()
  }

  lemma DelayedNext(delays: nat -> Delays, n: nat)
    requires n > 0
    ensures Delayed(delays, n) == Delayed(delays, n - 1) + delays(n - 1).All()
  {
  }

  lemma NoDelay(delays: nat -> Delays, n: nat)
    requires forall i :: delays(i).All() == 0
    ensures Delayed(delays, n) == 0
  {
  }

  class Limiter {
    const redis: Redis
    const serviceClass: string
    const defaultLimit: int

    constructor (redis: Redis, serviceClass: string, defaultLimitPerSecond: Option<int>)
      ensures this.redis == redis && this.serviceClass == serviceClass
      ensures defaultLimitPerSecond.Some? ==> defaultLimit == defaultLimitPerSecond.value
      ensures defaultLimitPerSecond.None? ==> defaultLimit == 3
    {
      this.redis := redis;
      this.serviceClass := serviceClass;
      this.defaultLimit := Or(defaultLimitPerSecond, 3);
    }

    function ReadLimit(): int
      requires redis.Valid()
      reads this, redis
    {
      if redis.limitText != "" then ParseInt(redis.limitText).value else defaultLimit
    }

    /** Let `ms` pass, while other services make the given script calls. */
    method PassAmong(ms: nat, rivals: seq<Rival>)
      requires redis.Valid()
      modifies redis`clock, redis`members, redis`expiresAt, redis`log
      ensures redis.Valid() && redis.clock == old(redis.clock) + ms
      ensures old(redis.log) <= redis.log && |redis.log| == |old(redis.log)| + |rivals|
    {
      var target := redis.clock + ms;
      for i := 0 to |rivals|
        invariant redis.Valid() && old(redis.clock) <= redis.clock <= target
        invariant old(redis.log) <= redis.log && |redis.log| == |old(redis.log)| + i
      {
        var r := rivals[i];
        redis.Pass(Min(r.after, target - redis.clock));
        var now := redis.clock - r.behind;
        var _ := redis.Eval(r.limit, now - 1000, now, Member(now, r.service, r.rand));
      }
      redis.Pass(target - redis.clock);
    }

    /** One pass of the loop up to the script's answer; `own` is the position of its call in the log. */
    method Try(limit: int, rand: string, d: Delays) returns (allowed: bool, ghost own: nat)
      requires redis.Valid()
      modifies redis`clock, redis`members, redis`expiresAt, redis`log
      ensures redis.Valid() && old(redis.log) <= redis.log && |old(redis.log)| <= own < |redis.log|
      ensures redis.clock == old(redis.clock) + d.Trip()
      ensures var now := old(redis.clock) + d.ready.ms;
              redis.log[own] == Attempt(limit, Member(now, serviceClass, rand), now + d.there.ms)
      ensures Answer(redis.log, own) == allowed
    {
      hide Run;
      PassAmong(d.ready.ms, d.ready.rivals);
      var now := redis.clock;
      PassAmong(d.there.ms, d.there.rivals);
      ghost var before := redis.log;
      own := |before|;
      AnswerNext(before, Attempt(limit, Member(now, serviceClass, rand), redis.clock));
      allowed := redis.Eval(limit, now - 1000, now, Member(now, serviceClass, rand));
      ghost var after := redis.log;
      PassAmong(d.back.ms, d.back.rivals);
      PrefixExtends(redis.log, after);
    }

    /** The loop of `acquire`, which starts now. */
    method AwaitSlot(limit: int, maxWaitMs: int, rands: nat -> string, delays: nat -> Delays)
      returns (granted: bool, attempts: nat, ghost elapsed: nat, ghost mine: seq<nat>)
      requires redis.Valid()
      modifies redis`clock, redis`members, redis`expiresAt, redis`log
      ensures redis.Valid() && old(redis.log) <= redis.log && redis.clock == old(redis.clock) + elapsed
      ensures |mine| == attempts + (if granted then 1 else 0)
      ensures OwnCalls(redis.log, |old(redis.log)|, mine, limit, granted)
      ensures elapsed == Slept(attempts) + Delayed(delays, attempts) + (if granted then delays(attempts).Trip() else 0)
      ensures granted ==> Slept(attempts) + Delayed(delays, attempts) < maxWaitMs
      ensures !granted ==> elapsed >= maxWaitMs
      ensures attempts > 0 ==> Slept(attempts - 1) + Delayed(delays, attempts - 1) < maxWaitMs
    {
      hide Run, OwnCalls, WaitTime, Slept, Delayed;
      var startTime := redis.clock;
      attempts, mine, elapsed := 0, [], 0;
      granted := false;
      NoOwnCalls(redis.log, |redis.log|, limit);
      NothingSlept(delays);
      while redis.clock - startTime < maxWaitMs
        invariant redis.Valid() && old(redis.log) <= redis.log
        invariant |mine| == attempts && OwnCalls(redis.log, |old(redis.log)|, mine, limit, false)
        invariant redis.clock - startTime == elapsed == Slept(attempts) + Delayed(delays, attempts)
        invariant attempts > 0 ==> Slept(attempts - 1) + Delayed(delays, attempts - 1) < maxWaitMs
      {
        ghost var before := redis.log;
        ghost var own;
        var allowed;
        allowed, own := Try(limit, rands(attempts), delays(attempts));
        OwnCallsNext(redis.log, before, |old(redis.log)|, mine, limit, own, allowed);
        mine := mine + [own];
        if allowed {
          elapsed := elapsed + delays(attempts).Trip();
          granted := true;
          return;
        }
        attempts := attempts + 1;
        SleptNext(attempts);
        DelayedNext(delays, attempts);
        ghost var evaluated := redis.log;
        var over := delays(attempts - 1).over;
        PassAmong(WaitTime(attempts) + over.ms, over.rivals);
        elapsed := redis.clock - startTime;
        OwnCallsPersist(redis.log, evaluated, |old(redis.log)|, mine, limit);
      }
    }

    /**
     `acquire`: true when a slot was recorded, false on timeout, in `elapsed` ms from the start of its
     loop.  `entry` passes while the limit is read, `delays(i)` are the delays of pass `i`, and `mine`
     holds the log positions of this call's own script calls.
     */
    method Acquire(maxWaitMs: int, rands: nat -> string, entry: Pause, delays: nat -> Delays)
      returns (granted: bool, attempts: nat, ghost elapsed: nat, ghost mine: seq<nat>)
      requires redis.Valid()
      modifies redis`clock, redis`members, redis`expiresAt, redis`log
      ensures redis.Valid() && old(redis.log) <= redis.log
      ensures redis.clock == old(redis.clock) + entry.ms + elapsed
      ensures |mine| == attempts + (if granted then 1 else 0) <= MaxCalls(maxWaitMs)
      ensures forall i :: 0 <= i < |mine| ==> |old(redis.log)| <= mine[i] < |redis.log|
      ensures granted <==> mine != [] && Answer(redis.log, mine[|mine| - 1])
      ensures forall i :: 0 <= i < |mine| ==>
                if old(redis.limitText) == "" then redis.log[mine[i]].limit == defaultLimit
                else ParseInt(old(redis.limitText)) == Some(redis.log[mine[i]].limit)
      ensures forall i, j :: 0 <= i < j < |mine| ==> mine[i] < mine[j] && !Answer(redis.log, mine[i])
      ensures elapsed == Slept(attempts) + Delayed(delays, attempts) + (if granted then delays(attempts).Trip() else 0)
      ensures granted ==> elapsed < maxWaitMs + delays(attempts).Trip()
      ensures !granted ==> elapsed >= maxWaitMs
      ensures !granted && maxWaitMs > 0 ==> attempts > 0 && elapsed < maxWaitMs + 333 + delays(attempts - 1).All()
      ensures (forall i :: delays(i).All() == 0) && !granted ==> attempts == MaxCalls(maxWaitMs)
    {
      hide Run, OwnCalls, Answer, WaitTime, MaxCalls, Slept, Delayed;
      var limit := ReadLimit();
      PassAmong(entry.ms, entry.rivals);
      ghost var begun := |redis.log|;
      granted, attempts, elapsed, mine := AwaitSlot(limit, maxWaitMs, rands, delays);
      OwnCallsMean(redis.log, begun, mine, limit, granted);
      CallsWithin(maxWaitMs, delays, attempts, granted);
      NothingSlept(delays);
    }

    /** A limit seeded before a call is the one all its script calls are made under, whatever the service's default. */
    method SeedAndAcquire(whole: int, decimals: string, maxWaitMs: int, rands: nat -> string, entry: Pause,
                          delays: nat -> Delays)
      returns (granted: bool, ghost mine: seq<nat>)
      requires redis.Valid() && AllDigits(decimals)
      modifies redis
      ensures redis.Valid() && old(redis.log) <= redis.log
      ensures forall i :: 0 <= i < |mine| ==> |old(redis.log)| <= mine[i] < |redis.log|
      ensures forall i :: 0 <= i < |mine| ==> redis.log[mine[i]].limit == whole
      ensures granted <==> mine != [] && Answer(redis.log, mine[|mine| - 1])
    {
      redis.SeedLimit(whole, decimals);
      var attempts;
      ghost var elapsed;
      granted, attempts, elapsed, mine := Acquire(maxWaitMs, rands, entry, delays);
    }
  }

  lemma AnswerNext(log: seq<Attempt>, a: Attempt)
    ensures Answer(log + [a], |log|) == Script(Run(log).key, a).1
  {
    RunSnoc(log, a);
  }

  lemma NothingSlept(delays: nat -> Delays)
    ensures Slept(0) == 0 && Delayed(delays, 0) == 0
  {
  }

  /** The script calls of a loop that began each pass within its wait. */
  lemma CallsWithin(maxWaitMs: int, delays: nat -> Delays, attempts: nat, granted: bool)
    requires attempts > 0 ==> Slept(attempts - 1) + Delayed(delays, attempts - 1) < maxWaitMs
    requires granted ==> Slept(attempts) + Delayed(delays, attempts) < maxWaitMs
    requires !granted ==> Slept(attempts) + Delayed(delays, attempts) >= maxWaitMs
    ensures attempts + (if granted then 1 else 0) <= MaxCalls(maxWaitMs)
    ensures (forall i :: delays(i).All() == 0) && !granted ==> attempts == MaxCalls(maxWaitMs)
    ensures attempts > 0 ==>
              Slept(attempts) + Delayed(delays, attempts) < maxWaitMs + 333 + delays(attempts - 1).All()
  {
    hide MaxCalls, WaitTime;
    MaxCallsExact(maxWaitMs, attempts);
    if attempts > 0 {
      MaxCallsExact(maxWaitMs, attempts - 1);
      SleptNext(attempts);
    }
    if forall i :: delays(i).All() == 0 {
      NoDelay(delays, attempts);
    }
  }
}
