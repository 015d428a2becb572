/**
 Any number of `acquire` calls of any number of services on one chain, interleaved freely: reading
 the limit, the two clock readings of a loop pass, the script's execution, its answer and the sleeps
 are separate steps with any time between them.  The clock is shared and never runs backwards, and a
 sleep lasts at least as long as asked.
 */
module RpcFleet {
  import opened Text
  import opened RpcRateLimiter
  import opened SharedRpcRateLimiter

  /** Where a call stands. */
  datatype Phase =
    | Entered
    | Sleeping(until: int)
    | Ready
    | InFlight(member: Member)
    | Answered(allowed: bool)
    | Slot(time: int)
    | TimedOut(time: int)

  /** One call of `acquire`: the limit it read, when its loop began, and how often it was refused. */
  datatype Call = Call(limit: int, maxWaitMs: int, start: int, attempts: nat, phase: Phase) {
    /** Redis has recorded a grant for this call. */
    predicate Granted() { phase == Answered(true) || phase.Slot? }

    /** The recorded grant's answer has not arrived yet. */
    predicate Unanswered() { phase == Answered(true) }

    predicate Returned() { phase.Slot? || phase.TimedOut? }

    predicate Expired() { phase.TimedOut? }

    function ScriptCalls(): nat { attempts + (if phase.Answered? || phase.Slot? then 1 else 0) }
  }

  datatype Fleet = Fleet(clock: int, stored: Option<int>, calls: seq<Call>, log: seq<Attempt>)

  /** `Enter` begins a call of a service with the given default limit, `Turn` takes a call one step on. */
  datatype Event =
    | Tick(ms: nat)
    | SeedLimit(limitPerSecond: int)
    | Enter(defaultLimit: int, maxWaitMs: int)
    | Turn(id: nat, service: string, rand: string)

  /** The call with the limit it will use throughout. */
  function NewCall(f: Fleet, defaultLimit: int, maxWaitMs: int): Call {
    Call(Or(f.stored, defaultLimit), maxWaitMs, f.clock, 0, Entered)
  }

  /** The script call of a call in flight, executed now. */
  function Arriving(f: Fleet, c: Call): Attempt
    requires c.phase.InFlight?
  {
    Attempt(c.limit, c.phase.member, f.clock)
  }

  /** A call's next step. */
  function NextPhase(f: Fleet, c: Call, service: string, rand: string): Call {
    match c.phase
    case Entered => c.(start := f.clock, phase := Sleeping(f.clock))
    case Sleeping(until) =>
      if f.clock < until then c
      else if f.clock - c.start < c.maxWaitMs then c.(phase := Ready)
      else c.(phase := TimedOut(f.clock))
    case Ready => c.(phase := InFlight(Member(f.clock, service, rand)))
    case InFlight(_) => c.(phase := Answered(Script(Run(f.log).key, Arriving(f, c)).1))
    case Answered(true) => c.(phase := Slot(f.clock))
    case Answered(false) => c.(attempts := c.attempts + 1, phase := Sleeping(f.clock + WaitTime(c.attempts + 1)))
    case _ => c
  }

  function TakeTurn(f: Fleet, id: nat, service: string, rand: string): Fleet
    requires id < |f.calls|
  {
    var c := f.calls[id];
    f.(calls := f.calls[id := NextPhase(f, c, service, rand)],
       log := if c.phase.InFlight? then f.log + [Arriving(f, c)] else f.log)
  }

  function Step(f: Fleet, e: Event): Fleet {
    match e
    case Tick(ms) => f.(clock := f.clock + ms)
    case SeedLimit(n) => f.(stored := Some(n))
    case Enter(defaultLimit, maxWaitMs) => f.(calls := f.calls + [NewCall(f, defaultLimit, maxWaitMs)])
    case Turn(id, service, rand) => if id < |f.calls| then TakeTurn(f, id, service, rand) else f
  }

  function After(start: int, events: seq<Event>): Fleet {
    if events == [] then Fleet(start, None, [], [])
    else Step(After(start, events[..|events| - 1]), events[|events| - 1])
  }

  // ---------- accounting ----------

  /** How many calls satisfy `p`. */
  function Count(calls: seq<Call>, p: Call -> bool): nat {
    if calls == [] then 0 else Count(calls[..|calls| - 1], p) + (if p(calls[|calls| - 1]) then 1 else 0)
  }

  function ScriptCalls(calls: seq<Call>): nat {
    if calls == [] then 0 else ScriptCalls(calls[..|calls| - 1]) + calls[|calls| - 1].ScriptCalls()
  }

  lemma {:induction false} SumsUpdate(calls: seq<Call>, id: nat, c: Call, p: Call -> bool)
    requires id < |calls|
    ensures Count(calls[id := c], p) - Count(calls, p) == (if p(c) then 1 else 0) - (if p(calls[id]) then 1 else 0)
    ensures ScriptCalls(calls[id := c]) - ScriptCalls(calls) == c.ScriptCalls() - calls[id].ScriptCalls()
  {
    var n := |calls| - 1;
    var updated := calls[id := c];
    if id == n {
      assert updated[..n] == calls[..n];
    } else {
      SumsUpdate(calls[..n], id, c, p);
      assert updated[..n] == calls[..n][id := c];
    }
  }

  lemma SumsAppend(calls: seq<Call>, c: Call, p: Call -> bool)
    ensures Count(calls + [c], p) == Count(calls, p) + (if p(c) then 1 else 0)
    ensures ScriptCalls(calls + [c]) == ScriptCalls(calls) + c.ScriptCalls()
  {
    assert (calls + [c])[..|calls|] == calls;
  }

  const GRANTED := (c: Call) => c.Granted()
  const UNANSWERED := (c: Call) => c.Unanswered()
  const RETURNED := (c: Call) => c.Returned()
  const EXPIRED := (c: Call) => c.Expired()

  lemma {:induction false} ReturnedSum(calls: seq<Call>)
    ensures Count(calls, RETURNED) + Count(calls, UNANSWERED) == Count(calls, GRANTED) + Count(calls, EXPIRED)
  {
    if calls != [] {
      ReturnedSum(calls[..|calls| - 1]);
    }
  }

  /** The call has begun its loop, and all its sleeps have been slept by the given time. */
  predicate SleptBy(c: Call, time: int) {
    c.start + Slept(c.attempts) <= time
  }

  /** How far one call can have come. */
  ghost predicate CallOk(c: Call, clock: int) {
    && (c.attempts > 0 ==> Slept(c.attempts - 1) < c.maxWaitMs)
    && match c.phase
       case Entered => c.attempts == 0
       case Sleeping(until) => SleptBy(c, until)
       case InFlight(member) => SleptBy(c, member.now) && member.now <= clock && Slept(c.attempts) < c.maxWaitMs
       case Slot(time) => SleptBy(c, time) && time <= clock && Slept(c.attempts) < c.maxWaitMs
       case TimedOut(time) => c.maxWaitMs <= time - c.start && time <= clock
       case _ => SleptBy(c, clock) && Slept(c.attempts) < c.maxWaitMs
  }

  ghost predicate Sound(f: Fleet) {
    && InOrder(f.log, f.clock)
    && Count(f.calls, GRANTED) == |Run(f.log).grants|
    && ScriptCalls(f.calls) == |f.log|
    && (forall i :: 0 <= i < |f.calls| ==> CallOk(f.calls[i], f.clock))
  }

  lemma SleptNothing()
    ensures Slept(0) == 0
  {
  }

  lemma NextPhaseOk(f: Fleet, c: Call, service: string, rand: string)
    requires CallOk(c, f.clock)
    ensures CallOk(NextPhase(f, c, service, rand), f.clock)
  {
    hide Run, Script, Slept, WaitTime;
    SleptNext(c.attempts + 1);
    SleptNothing();
  }

  /** The sums move with the log. */
  lemma NextPhaseSums(f: Fleet, c: Call, service: string, rand: string)
    ensures var next := NextPhase(f, c, service, rand);
            var granted := c.phase.InFlight? && Script(Run(f.log).key, Arriving(f, c)).1;
            && (if next.Granted() then 1 else 0) == (if c.Granted() then 1 else 0) + (if granted then 1 else 0)
            && next.ScriptCalls() == c.ScriptCalls() + (if c.phase.InFlight? then 1 else 0)
  {
    hide Run, Script;
  }

  lemma TurnSound(f: Fleet, id: nat, service: string, rand: string)
    requires Sound(f) && id < |f.calls|
    ensures Sound(TakeTurn(f, id, service, rand))
  {
    hide Run, Script, Count, ScriptCalls, NextPhase, CallOk;
    var c := f.calls[id];
    var next := NextPhase(f, c, service, rand);
    SumsUpdate(f.calls, id, next, GRANTED);
    NextPhaseOk(f, c, service, rand);
    NextPhaseSums(f, c, service, rand);
    if c.phase.InFlight? {
      LogNext(f, c);
    }
  }

  lemma LogNext(f: Fleet, c: Call)
    requires InOrder(f.log, f.clock) && c.phase.InFlight? && CallOk(c, f.clock)
    ensures var a := Arriving(f, c);
            && InOrder(f.log + [a], f.clock)
            && |Run(f.log + [a]).grants| == |Run(f.log).grants| + (if Script(Run(f.log).key, a).1 then 1 else 0)
  {
    hide Run, Script;
    var a := Arriving(f, c);
    RunSnoc(f.log, a);
  }

  lemma StepSound(f: Fleet, e: Event)
    requires Sound(f)
    ensures Sound(Step(f, e))
  {
    hide TakeTurn, Run, Slept;
    match e
    case Tick(_) =>
    case SeedLimit(_) =>
    case Enter(defaultLimit, maxWaitMs) => EnterSound(f, defaultLimit, maxWaitMs);
    case Turn(id, service, rand) => if id < |f.calls| { TurnSound(f, id, service, rand); }
  }

  lemma EnterSound(f: Fleet, defaultLimit: int, maxWaitMs: int)
    requires Sound(f)
    ensures Sound(Step(f, Enter(defaultLimit, maxWaitMs)))
  {
    hide Run;
    SumsAppend(f.calls, NewCall(f, defaultLimit, maxWaitMs), GRANTED);
  }

  lemma {:induction false} AlwaysSound(start: int, events: seq<Event>)
    ensures Sound(After(start, events))
  {
    if events != [] {
      hide Sound, Step;
      AlwaysSound(start, events[..|events| - 1]);
      StepSound(After(start, events[..|events| - 1]), events[|events| - 1]);
    }
  }

  /** A call's script calls are bounded, a timeout waited, and a slot came after all its sleeps. */
  ghost predicate Bounded(c: Call) {
    && c.ScriptCalls() <= MaxCalls(c.maxWaitMs)
    && (c.phase.TimedOut? ==> c.phase.time - c.start >= c.maxWaitMs)
    && (c.phase.Slot? ==> Slept(c.attempts) <= c.phase.time - c.start && Slept(c.attempts) < c.maxWaitMs)
  }

  lemma OkIsBounded(c: Call, clock: int)
    requires CallOk(c, clock)
    ensures Bounded(c)
  {
    hide MaxCalls, Slept;
    MaxCallsExact(c.maxWaitMs, c.attempts);
    if c.attempts > 0 {
      MaxCallsExact(c.maxWaitMs, c.attempts - 1);
    }
  }

  /**
   Over every run, the calls that have returned are the recorded grants plus the timeouts, apart from
   grants whose answer is still on its way; each timeout waited at least its `maxWaitMs`, and no call
   made more than `MaxCalls` script calls.
   */
  lemma Accounting(start: int, events: seq<Event>)
    ensures var f := After(start, events);
            && Count(f.calls, RETURNED) + Count(f.calls, UNANSWERED) == |Run(f.log).grants| + Count(f.calls, EXPIRED)
            && ScriptCalls(f.calls) == |f.log|
            && forall i :: 0 <= i < |f.calls| ==> Bounded(f.calls[i])
  {
    hide Run, Count, ScriptCalls, CallOk, Bounded;
    AlwaysSound(start, events);
    var f := After(start, events);
    ReturnedSum(f.calls);
    forall i | 0 <= i < |f.calls| ensures Bounded(f.calls[i]) {
      OkIsBounded(f.calls[i], f.clock);
    }
  }

  /** Every limit ever seeded, and every service's default, is at most `bound`. */
  predicate SeedsAtMost(events: seq<Event>, bound: int) {
    forall i :: 0 <= i < |events| ==>
      && (events[i].SeedLimit? ==> events[i].limitPerSecond <= bound)
      && (events[i].Enter? ==> events[i].defaultLimit <= bound)
  }

  lemma {:induction false} LimitsInForce(start: int, events: seq<Event>, bound: int)
    requires SeedsAtMost(events, bound)
    ensures var f := After(start, events);
            && (f.stored.Some? ==> f.stored.value <= bound)
            && (forall i :: 0 <= i < |f.calls| ==> f.calls[i].limit <= bound)
            && (forall i :: 0 <= i < |f.log| ==> f.log[i].limit <= bound)
  {
    if events != [] {
      hide Run, Script;
      LimitsInForce(start, events[..|events| - 1], bound);
    }
  }

  // ---------- the limit of a call ----------

  /** The calls begun in a run. */
  function Begun(events: seq<Event>): nat {
    if events == [] then 0 else Begun(events[..|events| - 1]) + (if events[|events| - 1].Enter? then 1 else 0)
  }

  /** The limit last seeded in a run. */
  function LastSeeded(events: seq<Event>): Option<int> {
    if events == [] then None
    else
      match events[|events| - 1]
      case SeedLimit(n) => Some(n)
      case _ => LastSeeded(events[..|events| - 1])
  }

  lemma {:induction false} StoredAndEntered(start: int, events: seq<Event>)
    ensures After(start, events).stored == LastSeeded(events) && |After(start, events).calls| == Begun(events)
  {
    if events != [] {
      hide NextPhase;
      StoredAndEntered(start, events[..|events| - 1]);
    }
  }

  /** A call keeps its limit, and its script calls carry it. */
  lemma LimitKept(f: Fleet, e: Event, id: nat)
    requires id < |f.calls|
    ensures var g := Step(f, e);
            && id < |g.calls| && g.calls[id].limit == f.calls[id].limit
            && (e.Turn? && e.id == id ==>
                  g.log == f.log || (|g.log| == |f.log| + 1 && g.log[|f.log|].limit == f.calls[id].limit))
  {
    hide Run, Script;
  }

  /** The limit in force when a run begins a call with its `i`-th event: the last seeded, or the service's default. */
  function LimitInForce(events: seq<Event>, i: nat): int
    requires i < |events| && events[i].Enter?
  {
    match LastSeeded(events[..i])
    case Some(n) => n
    case None => events[i].defaultLimit
  }

  lemma {:induction false} LimitOfCall(start: int, events: seq<Event>, i: nat)
    requires i < |events| && events[i].Enter?
    ensures var (f, id) := (After(start, events), Begun(events[..i]));
            id < |f.calls| && f.calls[id].limit == LimitInForce(events, i)
  {
    var n := |events| - 1;
    if i == n {
      StoredAndEntered(start, events[..n]);
    } else {
      LimitOfCall(start, events[..n], i);
      assert events[..n][..i] == events[..i];
      LimitKept(After(start, events[..n]), events[n], Begun(events[..i]));
    }
  }

  /** Every script call that a call makes carries the limit in force when it began, whatever is seeded later. */
  lemma ScriptCallsCarryLimit(start: int, events: seq<Event>, i: nat, m: nat)
    requires i < m < |events| && events[i].Enter?
    requires events[m].Turn? && events[m].id == Begun(events[..i])
    ensures var (before, after) := (After(start, events[..m]).log, After(start, events[..m + 1]).log);
            after == before || (|after| == |before| + 1 && after[|before|].limit == LimitInForce(events, i))
  {
    LimitOfCall(start, events[..m], i);
    assert events[..m][..i] == events[..i] && events[..m + 1][..m] == events[..m];
    LimitKept(After(start, events[..m]), events[m], events[m].id);
  }

  /**
   In every reachable state of the fleet, provided members are fresh and script calls take at most `d`
   ms to reach Redis, which is less than a second: every answer given so far is the unforgetting
   limiter's, any `k` windows of `1000 - d` ms in a row hold at most `k` times the largest limit in
   force for a grant in them, and so at most `k` times the largest limit ever seeded or built in.
   */
  lemma FleetSafety(start: int, events: seq<Event>, d: int, t: int, k: nat, bound: nat)
    requires var log := After(start, events).log; FreshMembers(log) && Within(log, d) && 0 <= d < WINDOW_MS
    ensures var log := After(start, events).log;
            var lo := t - k * (1000 - d);
            && Run(log).answers == LatestRun(log).answers
            && (d == 0 ==> Run(log).answers == NaiveRun(log).answers)
            && (LimitsAtMost(Run(log).grants, lo, t, bound) || SeedsAtMost(events, bound) ==>
                  CountIn(Run(log).grants, lo, t) <= k * bound)
  {
    AlwaysSound(start, events);
    var f := After(start, events);
    hide Sound, Step, Run, LatestRun, NaiveRun, CountIn, WellTimed, FreshMembers, Within, After;
    assert InOrder(f.log, f.clock) by { SoundInOrder(f); }
    InOrderIsWellTimed(f.log, f.clock, d);
    ScriptRefinesLatest(f.log, d);
    if d == 0 {
      ScriptRefinesNaive(f.log);
    }
    if SeedsAtMost(events, bound) {
      LimitsInForce(start, events, bound);
      GrantsComeFromAttempts(f.log);
    }
    if LimitsAtMost(Run(f.log).grants, t - k * (WINDOW_MS - d), t, bound) {
      SecondsSafety(f.log, d, t, k, bound);
    }
  }

  lemma SoundInOrder(f: Fleet)
    requires Sound(f)
    ensures InOrder(f.log, f.clock)
  {
  }
}
