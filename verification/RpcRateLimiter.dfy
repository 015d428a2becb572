/**
 The shared RPC rate limiter: a sliding window kept in one Redis sorted set per chain.

 `Key` is the sorted set with its expiry, `Script` the atomic script, `Run` a run of script calls by
 any number of services, in the order Redis executes them.  The references forget nothing: `NaiveRun`
 counts every past grant in the last second, `LatestRun` does so when calls may come late.
 */
module RpcRateLimiter {

  /** The sorted-set member `<now>:<service>:<random>`; its score is `now`. */
  datatype Member = Member(now: int, service: string, rand: string)

  /** One call of the script: `member.now` is the caller's clock, `at` is Redis's clock. */
  datatype Attempt = Attempt(limit: int, member: Member, at: int) {
    function Now(): int { member.now }
  }

  /** The sorted set and the time after which Redis drops it.  No members: no key. */
  datatype Key = Key(members: map<Member, int>, expiresAt: int)

  const WINDOW_MS := 1000
  const EXPIRE_MS := 2000

  /** The longest time from a caller's clock reading to Redis after which an expired key held nothing of its window. */
  const MAX_FLIGHT_MS := EXPIRE_MS - WINDOW_MS + 1

  /** What Redis sees of a key at time `at`: an expired key is gone. */
  function Live(key: Key, at: int): map<Member, int> {
    if at > key.expiresAt then map[] else key.members
  }

  function Prune(members: map<Member, int>, windowStart: int): map<Member, int> {
    map m | m in members && members[m] > windowStart :: members[m]
  }

  /** The script: prune, count, and insert when there is room. */
  function Script(key: Key, a: Attempt): (Key, bool) {
    var expiry := key.expiresAt;
    var kept := Prune(Live(key, a.at), a.Now() - WINDOW_MS);
    if |kept| >= a.limit then (Key(kept, expiry), false)
    else (Key(kept[a.member := a.Now()], a.at + EXPIRE_MS), true)
  }

  datatype Trace = Trace(key: Key, grants: seq<Attempt>, answers: seq<bool>)

  const NO_KEY := Key(map[], 0)

  function RunStep(tr: Trace, a: Attempt): Trace {
    var (key, ok) := Script(tr.key, a);
    Trace(key, if ok then tr.grants + [a] else tr.grants, tr.answers + [ok])
  }

  function Run(attempts: seq<Attempt>): (tr: Trace)
    ensures |tr.answers| == |attempts|
  {
    if attempts == [] then Trace(NO_KEY, [], [])
    else RunStep(Run(attempts[..|attempts| - 1]), attempts[|attempts| - 1])
  }

  // ---------- the naive limiter ----------

  /** The number of grants with a score in `(lo, hi]`. */
  function CountIn(grants: seq<Attempt>, lo: int, hi: int): nat {
    if grants == [] then 0
    else
      var n := |grants| - 1;
      CountIn(grants[..n], lo, hi) + (if lo < grants[n].Now() <= hi then 1 else 0)
  }

  datatype Naive = Naive(grants: seq<Attempt>, answers: seq<bool>)

  function NaiveStep(nv: Naive, a: Attempt): Naive {
    var ok := CountIn(nv.grants, a.Now() - 1000, a.Now()) < a.limit;
    Naive(if ok then nv.grants + [a] else nv.grants, nv.answers + [ok])
  }

  function NaiveRun(attempts: seq<Attempt>): Naive {
    if attempts == [] then Naive([], [])
    else NaiveStep(NaiveRun(attempts[..|attempts| - 1]), attempts[|attempts| - 1])
  }

  // ---------- the naive limiter when calls come late ----------

  function Max(a: int, b: int): int {
    if a < b then b else a
  }

  /** The latest clock reading that any call has shown. */
  function Latest(attempts: seq<Attempt>): int
    requires attempts != []
  {
    var n := |attempts| - 1;
    if n == 0 then attempts[0].Now() else Max(Latest(attempts[..n]), attempts[n].Now())
  }

  /** The number of grants with a score after `lo`. */
  function CountAfter(grants: seq<Attempt>, lo: int): nat {
    if grants == [] then 0
    else
      var n := |grants| - 1;
      CountAfter(grants[..n], lo) + (if lo < grants[n].Now() then 1 else 0)
  }

  function LatestStep(nv: Naive, a: Attempt, latest: int): Naive {
    var ok := CountAfter(nv.grants, latest - WINDOW_MS) < a.limit;
    Naive(if ok then nv.grants + [a] else nv.grants, nv.answers + [ok])
  }

  /** Counts the grants of the second before the latest reading, and those after it. */
  function LatestRun(attempts: seq<Attempt>): Naive {
    if attempts == [] then Naive([], [])
    else LatestStep(LatestRun(attempts[..|attempts| - 1]), attempts[|attempts| - 1], Latest(attempts))
  }

  // ---------- assumptions about the callers ----------

  /** Redis's clock never runs backwards; no call's own reading is more than `d` ms behind an earlier call's. */
  predicate Ordered(attempts: seq<Attempt>, d: int) {
    forall i, j :: 0 <= i < j < |attempts| ==>
      attempts[i].Now() <= attempts[j].Now() + d && attempts[i].at <= attempts[j].at
  }

  /** A call reaches Redis at most `flight` ms after its caller read the clock. */
  predicate Prompt(attempts: seq<Attempt>, flight: int) {
    forall i :: 0 <= i < |attempts| ==> attempts[i].Now() <= attempts[i].at <= attempts[i].Now() + flight
  }

  /** No two calls use the same member. */
  predicate FreshMembers(attempts: seq<Attempt>) {
    forall i, j :: 0 <= i < j < |attempts| ==> attempts[i].member != attempts[j].member
  }

  /** Calls come at most `d` ms late, which is less than a second, and are not too long in flight. */
  predicate Timely(attempts: seq<Attempt>, d: int) {
    0 <= d < WINDOW_MS && Ordered(attempts, d) && Prompt(attempts, MAX_FLIGHT_MS)
  }

  predicate WellTimed(attempts: seq<Attempt>, d: int) {
    Timely(attempts, d) && FreshMembers(attempts)
  }

  lemma WellTimedPrefix(attempts: seq<Attempt>, d: int, n: nat)
    requires WellTimed(attempts, d) && n <= |attempts|
    ensures WellTimed(attempts[..n], d)
  {
  }

  lemma LatestBounds(attempts: seq<Attempt>)
    requires attempts != []
    ensures forall i :: 0 <= i < |attempts| ==> attempts[i].Now() <= Latest(attempts)
    ensures exists i :: 0 <= i < |attempts| && attempts[i].Now() == Latest(attempts)
  {
    var n := |attempts| - 1;
    if n > 0 {
      LatestBounds(attempts[..n]);
      var i :| 0 <= i < n && attempts[..n][i].Now() == Latest(attempts[..n]);
      assert attempts[i].Now() == Latest(attempts[..n]);
    } else {
      assert attempts[0].Now() == Latest(attempts);
    }
  }

  // ---------- refinement ----------

  function WindowMembers(grants: seq<Attempt>, lo: int): set<Member> {
    set g | g in grants && lo < g.Now() :: g.member
  }

  /**
   Scores are the members' own times; when `latest` is the latest reading so far, the set holds the
   grants of the second before it and those after it, and no others.
   */
  ghost predicate Faithful(tr: Trace, latest: int) {
    && (forall m :: m in tr.key.members ==> tr.key.members[m] == m.now > latest - WINDOW_MS)
    && (forall m :: m in tr.key.members ==> exists g :: g in tr.grants && g.member == m)
    && (forall g :: g in tr.grants && g.member !in tr.key.members ==> g.Now() <= latest - WINDOW_MS)
    && (forall g :: g in tr.grants ==> g.at + EXPIRE_MS <= tr.key.expiresAt)
  }

  lemma GrantsComeFromAttempts(attempts: seq<Attempt>)
    ensures forall g :: g in Run(attempts).grants ==> g in attempts
  {
    if attempts != [] {
      var n := |attempts| - 1;
      GrantsComeFromAttempts(attempts[..n]);
      assert forall g :: g in attempts[..n] ==> g in attempts;
    }
  }

  /** A call that Redis executes after the trace: prompt, not a second behind, and after every grant. */
  ghost predicate Next(tr: Trace, a: Attempt, latest: int) {
    && Faithful(tr, latest)
    && latest - WINDOW_MS < a.Now() && a.Now() <= a.at <= a.Now() + MAX_FLIGHT_MS
    && forall g :: g in tr.grants ==> g.Now() <= g.at <= a.at
  }

  /** What the script counts is exactly the members of the grants still in the window. */
  lemma KeptIsWindow(tr: Trace, a: Attempt, latest: int)
    requires Next(tr, a, latest)
    ensures var kept := Prune(Live(tr.key, a.at), a.Now() - WINDOW_MS);
            && kept.Keys == WindowMembers(tr.grants, Max(latest, a.Now()) - WINDOW_MS)
            && forall m :: m in kept ==> kept[m] == m.now
  {
    var lo := Max(latest, a.Now()) - WINDOW_MS;
    var kept := Prune(Live(tr.key, a.at), a.Now() - WINDOW_MS);
    forall m ensures m in kept <==> m in WindowMembers(tr.grants, lo) {
      if m in kept {
        var g :| g in tr.grants && g.member == m;
        assert lo < g.Now();
      }
      if m in WindowMembers(tr.grants, lo) {
        var g :| g in tr.grants && lo < g.Now() && g.member == m;
        assert g.at + EXPIRE_MS <= tr.key.expiresAt;
      }
    }
  }

  /** The members after a call stem from grants, carry their own times, and are young. */
  lemma MembersStep(tr: Trace, a: Attempt, kept: map<Member, int>, lo: int)
    requires kept == Prune(Live(tr.key, a.at), a.Now() - WINDOW_MS) && lo < a.Now()
    requires kept.Keys == WindowMembers(tr.grants, lo) && forall m :: m in kept ==> kept[m] == m.now
    ensures var after := RunStep(tr, a);
            forall m :: m in after.key.members ==>
              after.key.members[m] == m.now > lo && exists g :: g in after.grants && g.member == m
  {
    hide Prune, Live;
    var after := RunStep(tr, a);
    forall m | m in after.key.members ensures m.now > lo && exists g :: g in after.grants && g.member == m {
      if m in kept {
        assert m in WindowMembers(tr.grants, lo);
        var g :| g in tr.grants && lo < g.Now() && g.member == m;
        assert g in after.grants;
      } else {
        assert a in after.grants;
      }
    }
  }

  /** The grants missing after a call are too old. */
  lemma MissingStep(tr: Trace, a: Attempt, kept: map<Member, int>, lo: int, g: Attempt)
    requires kept == Prune(Live(tr.key, a.at), a.Now() - WINDOW_MS)
    requires kept.Keys == WindowMembers(tr.grants, lo)
    requires g in RunStep(tr, a).grants && g.member !in RunStep(tr, a).key.members
    ensures g.Now() <= lo
  {
    hide Prune, Live;
    assert g in tr.grants;
    assert lo < g.Now() ==> g.member in WindowMembers(tr.grants, lo);
  }

  lemma FaithfulStep(tr: Trace, a: Attempt, latest: int)
    requires Next(tr, a, latest)
    ensures Faithful(RunStep(tr, a), Max(latest, a.Now()))
  {
    hide Prune, Live, WindowMembers;
    KeptIsWindow(tr, a, latest);
    var lo := Max(latest, a.Now()) - WINDOW_MS;
    var kept := Prune(Live(tr.key, a.at), a.Now() - WINDOW_MS);
    var after := RunStep(tr, a);
    MembersStep(tr, a, kept, lo);
    assert forall g :: g in after.grants ==> g.at + EXPIRE_MS <= after.key.expiresAt;
    hide RunStep;
    forall g | g in after.grants && g.member !in after.key.members ensures g.Now() <= lo {
      MissingStep(tr, a, kept, lo, g);
    }
  }

  /** The latest reading before the `n`-th call; at the beginning, any. */
  function LatestBefore(attempts: seq<Attempt>, n: nat): int
    requires n < |attempts|
  {
    if n == 0 then attempts[0].Now() else Latest(attempts[..n])
  }

  lemma LatestNext(attempts: seq<Attempt>, d: int, n: nat)
    requires Timely(attempts, d) && n < |attempts|
    ensures Latest(attempts[..n + 1]) == Max(LatestBefore(attempts, n), attempts[n].Now())
    ensures LatestBefore(attempts, n) <= attempts[n].Now() + d
  {
    assert attempts[..n + 1][..n] == attempts[..n];
    if n > 0 {
      LatestBounds(attempts[..n]);
    }
  }

  /** Every grant so far was executed before the next call. */
  lemma GrantsPrecede(attempts: seq<Attempt>, d: int, n: nat)
    requires Timely(attempts, d) && n < |attempts|
    ensures forall g :: g in Run(attempts[..n]).grants ==>
              g.Now() <= g.at <= attempts[n].at && g.Now() <= attempts[n].Now() + d
  {
    GrantsComeFromAttempts(attempts[..n]);
  }

  lemma {:induction false} AlwaysNext(attempts: seq<Attempt>, d: int, n: nat)
    requires Timely(attempts, d) && n < |attempts|
    ensures Next(Run(attempts[..n]), attempts[n], LatestBefore(attempts, n))
  {
    hide Faithful, Latest;
    LatestNext(attempts, d, n);
    GrantsPrecede(attempts, d, n);
    if n == 0 {
      FaithfulStart(attempts[0].Now());
    } else {
      AlwaysNext(attempts, d, n - 1);
      LatestNext(attempts, d, n - 1);
      assert attempts[..n][..n - 1] == attempts[..n - 1];
      FaithfulStep(Run(attempts[..n - 1]), attempts[n - 1], LatestBefore(attempts, n - 1));
    }
  }

  lemma FaithfulStart(latest: int)
    ensures Run([]) == Trace(NO_KEY, [], []) && Faithful(Run([]), latest)
  {
  }

  predicate DistinctMembers(grants: seq<Attempt>) {
    forall i, j :: 0 <= i < j < |grants| ==> grants[i].member != grants[j].member
  }

  lemma {:induction false} GrantsDistinct(attempts: seq<Attempt>)
    requires FreshMembers(attempts)
    ensures DistinctMembers(Run(attempts).grants)
  {
    if attempts != [] {
      var n := |attempts| - 1;
      GrantsDistinct(attempts[..n]);
      GrantsComeFromAttempts(attempts[..n]);
      var before := Run(attempts[..n]).grants;
      forall i | 0 <= i < |before| ensures before[i].member != attempts[n].member {
        assert before[i] in attempts[..n];
      }
    }
  }

  lemma WindowSnoc(grants: seq<Attempt>, g: Attempt, lo: int)
    ensures WindowMembers(grants + [g], lo) == WindowMembers(grants, lo) + (if lo < g.Now() then {g.member} else {})
  {
  }

  /** The grants after `lo` have different members. */
  predicate DistinctAfter(grants: seq<Attempt>, lo: int) {
    forall i, j :: 0 <= i < j < |grants| && lo < grants[i].Now() && lo < grants[j].Now() ==>
      grants[i].member != grants[j].member
  }

  lemma DistinctAfterSnoc(grants: seq<Attempt>, g: Attempt, lo: int)
    ensures DistinctAfter(grants + [g], lo) <==>
            DistinctAfter(grants, lo) && (lo < g.Now() ==> g.member !in WindowMembers(grants, lo))
  {
    var all := grants + [g];
    if DistinctAfter(all, lo) {
      forall i, j | 0 <= i < j < |grants| && lo < grants[i].Now() && lo < grants[j].Now()
        ensures grants[i].member != grants[j].member
      {
        assert all[i].member != all[j].member;
      }
      forall i | 0 <= i < |grants| && lo < grants[i].Now() && lo < g.Now() ensures grants[i].member != g.member {
        assert all[i].member != all[|grants|].member;
      }
    }
  }

  /** Counting rows of the sorted set and counting grants is the same exactly when the members differ. */
  lemma {:induction false} CardinalityIsCount(grants: seq<Attempt>, lo: int)
    ensures |WindowMembers(grants, lo)| <= CountAfter(grants, lo)
    ensures |WindowMembers(grants, lo)| == CountAfter(grants, lo) <==> DistinctAfter(grants, lo)
  {
    if grants == [] {
      assert WindowMembers(grants, lo) == {};
    } else {
      hide DistinctAfter, WindowMembers;
      var n := |grants| - 1;
      CardinalityIsCount(grants[..n], lo);
      assert grants == grants[..n] + [grants[n]];
      WindowSnoc(grants[..n], grants[n], lo);
      DistinctAfterSnoc(grants[..n], grants[n], lo);
    }
  }

  /** The script's count before the `n`-th call of a run. */
  lemma NextCount(attempts: seq<Attempt>, d: int, n: nat)
    requires Timely(attempts, d) && n < |attempts|
    ensures var (tr, a) := (Run(attempts[..n]), attempts[n]);
            |Prune(Live(tr.key, a.at), a.Now() - WINDOW_MS)|
            == |WindowMembers(tr.grants, Latest(attempts[..n + 1]) - WINDOW_MS)|
  {
    hide Run, Latest, Live, Faithful, WindowMembers;
    var tr, a, latest := Run(attempts[..n]), attempts[n], LatestBefore(attempts, n);
    AlwaysNext(attempts, d, n);
    LatestNext(attempts, d, n);
    KeptIsWindow(tr, a, latest);
    var kept := Prune(Live(tr.key, a.at), a.Now() - WINDOW_MS);
    assert |kept| == |kept.Keys|;
  }

  /** Whatever its limit, the script answers the call as the limiter that forgets nothing. */
  ghost predicate AgreesOn(tr: Trace, a: Attempt, lo: int) {
    forall limit: int :: Script(tr.key, a.(limit := limit)).1 <==> CountAfter(tr.grants, lo) < limit
  }

  lemma CountDecides(tr: Trace, a: Attempt, lo: int)
    requires |Prune(Live(tr.key, a.at), a.Now() - WINDOW_MS)| == |WindowMembers(tr.grants, lo)|
    ensures AgreesOn(tr, a, lo) <==> |WindowMembers(tr.grants, lo)| == CountAfter(tr.grants, lo)
  {
    hide Prune, Live, WindowMembers, CountAfter;
    var count := |WindowMembers(tr.grants, lo)|;
    forall limit: int ensures Script(tr.key, a.(limit := limit)).1 <==> count < limit {
    }
    if AgreesOn(tr, a, lo) {
      hide Script;
      var asked := CountAfter(tr.grants, lo);
      assert Script(tr.key, a.(limit := asked)).1 <==> asked < asked;
      assert Script(tr.key, a.(limit := count)).1 <==> asked < count;
    }
  }

  /**
   Fresh members matter exactly this much: on every timely run, whatever members repeat, the script
   decides the next call under every limit as the limiter that forgets nothing if and only if the
   grants it has to count have different members.
   */
  lemma DecisionExact(attempts: seq<Attempt>, d: int, n: nat)
    requires Timely(attempts, d) && n < |attempts|
    ensures var (tr, lo) := (Run(attempts[..n]), Latest(attempts[..n + 1]) - WINDOW_MS);
            AgreesOn(tr, attempts[n], lo) <==> DistinctAfter(tr.grants, lo)
  {
    hide Run, Timely, Latest, DistinctAfter, Prune, Live, WindowMembers, CountAfter, AgreesOn;
    NextCount(attempts, d, n);
    var tr, lo := Run(attempts[..n]), Latest(attempts[..n + 1]) - WINDOW_MS;
    CardinalityIsCount(tr.grants, lo);
    CountDecides(tr, attempts[n], lo);
  }

  lemma NextDecision(attempts: seq<Attempt>, d: int, n: nat)
    requires WellTimed(attempts, d) && n < |attempts|
    ensures var (tr, a) := (Run(attempts[..n]), attempts[n]);
            Script(tr.key, a).1 <==> CountAfter(tr.grants, Latest(attempts[..n + 1]) - WINDOW_MS) < a.limit
  {
    hide Run, Script, CountAfter, Latest;
    var tr, a := Run(attempts[..n]), attempts[n];
    assert DistinctMembers(tr.grants) by {
      WellTimedPrefix(attempts, d, n);
      GrantsDistinct(attempts[..n]);
    }
    DecisionExact(attempts, d, n);
    assert a.(limit := a.limit) == a;
  }

  /**
   Pruning and key expiry never change a decision, even when calls reach Redis out of order: the
   script answers every call as the limiter that forgets nothing and counts back from the latest
   clock reading so far, and both record the same grants.
   */
  lemma {:induction false} ScriptRefinesLatest(attempts: seq<Attempt>, d: int)
    requires WellTimed(attempts, d)
    ensures Run(attempts).answers == LatestRun(attempts).answers
    ensures Run(attempts).grants == LatestRun(attempts).grants
  {
    if attempts != [] {
      hide Latest, RunStep, LatestStep, WellTimed;
      var n := |attempts| - 1;
      WellTimedPrefix(attempts, d, n);
      ScriptRefinesLatest(attempts[..n], d);
      NextDecision(attempts, d, n);
      assert attempts[..n + 1] == attempts;
      SameStep(Run(attempts[..n]), LatestRun(attempts[..n]), attempts[n], Latest(attempts));
    }
  }

  lemma SameStep(tr: Trace, nv: Naive, a: Attempt, latest: int)
    requires tr.answers == nv.answers && tr.grants == nv.grants
    requires Script(tr.key, a).1 <==> CountAfter(tr.grants, latest - WINDOW_MS) < a.limit
    ensures RunStep(tr, a).answers == LatestStep(nv, a, latest).answers
    ensures RunStep(tr, a).grants == LatestStep(nv, a, latest).grants
  {
    hide Script, CountAfter;
  }

  lemma CountAfterIsIn(grants: seq<Attempt>, lo: int, hi: int)
    requires forall g :: g in grants ==> g.Now() <= hi
    ensures CountAfter(grants, lo) == CountIn(grants, lo, hi)
  {
    if grants != [] {
      var n := |grants| - 1;
      assert grants[n] in grants;
      CountAfterIsIn(grants[..n], lo, hi);
    }
  }

  lemma NaiveDecision(attempts: seq<Attempt>, n: nat)
    requires WellTimed(attempts, 0) && n < |attempts|
    ensures var (tr, a) := (Run(attempts[..n]), attempts[n]);
            Script(tr.key, a).1 <==> CountIn(tr.grants, a.Now() - WINDOW_MS, a.Now()) < a.limit
  {
    NextDecision(attempts, 0, n);
    LatestNext(attempts, 0, n);
    GrantsPrecede(attempts, 0, n);
    hide Run, Script, Latest, LatestBefore, CountIn, CountAfter, WellTimed;
    CountAfterIsIn(Run(attempts[..n]).grants, attempts[n].Now() - WINDOW_MS, attempts[n].Now());
  }

  /** When no call comes late, the script answers as the limiter that counts the grants of the caller's last second. */
  lemma {:induction false} ScriptRefinesNaive(attempts: seq<Attempt>)
    requires WellTimed(attempts, 0)
    ensures Run(attempts).answers == NaiveRun(attempts).answers
    ensures Run(attempts).grants == NaiveRun(attempts).grants
  {
    if attempts != [] {
      var n := |attempts| - 1;
      WellTimedPrefix(attempts, 0, n);
      ScriptRefinesNaive(attempts[..n]);
      NaiveDecision(attempts, n);
    }
  }

  // ---------- the assumptions are needed ----------

  function At(now: int, at: int, limit: int, rand: string): Attempt {
    Attempt(limit, Member(now, "cron-worker", rand), at)
  }

  /** One script call whose pruned set is known. */
  lemma Step(tr: Trace, a: Attempt, kept: map<Member, int>, count: nat)
    requires Prune(Live(tr.key, a.at), a.Now() - WINDOW_MS) == kept && |kept| == count
    ensures count < a.limit ==>
              && RunStep(tr, a).key == Key(kept[a.member := a.Now()], a.at + EXPIRE_MS)
              && RunStep(tr, a).grants == tr.grants + [a]
    ensures count >= a.limit ==> RunStep(tr, a).key == Key(kept, tr.key.expiresAt) && RunStep(tr, a).grants == tr.grants
  {
  }

  lemma RunSnoc(attempts: seq<Attempt>, a: Attempt)
    ensures Run(attempts + [a]) == RunStep(Run(attempts), a)
  {
    assert (attempts + [a])[..|attempts|] == attempts;
  }

  lemma CountSnoc(grants: seq<Attempt>, a: Attempt, lo: int, hi: int)
    ensures CountIn(grants + [a], lo, hi) == CountIn(grants, lo, hi) + (if lo < a.Now() <= hi then 1 else 0)
  {
    assert (grants + [a])[..|grants|] == grants;
  }

  lemma NoRun()
    ensures Run([]) == Trace(NO_KEY, [], [])
    ensures forall lo, hi :: CountIn([], lo, hi) == 0
  {
  }

  /** Two grants, then a call a second later that comes before one read `d` ms earlier. */
  function LateCalls(d: int): seq<Attempt> {
    [At(600, 600, 2, "a"), At(600, 600, 2, "b"), At(1600, 1600, 2, "c"), At(1600 - d, 1600, 2, "d")]
  }

  lemma LateCallGrants(d: int)
    requires 0 <= d < WINDOW_MS
    ensures Run(LateCalls(d)).grants == LateCalls(d)
  {
    hide Run, Script;
    var a, b, c := At(600, 600, 2, "a"), At(600, 600, 2, "b"), At(1600, 1600, 2, "c");
    var late := At(1600 - d, 1600, 2, "d");
    assert [] + [a] == [a] && [a] + [b] == [a, b] && [a, b] + [c] == [a, b, c] && [a, b, c] + [late] == LateCalls(d);
    NoRun();
    RunSnoc([], a);
    Step(Run([]), a, map[], 0);
    RunSnoc([a], b);
    Step(Run([a]), b, map[a.member := 600], 1);
    RunSnoc([a, b], c);
    Step(Run([a, b]), c, map[], 0);
    RunSnoc([a, b, c], late);
    Step(Run([a, b, c]), late, map[c.member := 1600], 1);
  }

  /**
   A window longer than `1000 - d` ms is not safe when calls come `d` ms late: the call in between
   prunes the older grants.  Three grants, limit two.
   */
  lemma LateCallBreaksWindow(d: int, w: int)
    requires 0 <= d < WINDOW_MS && w > WINDOW_MS - d
    ensures var late := LateCalls(d);
            WellTimed(late, d) && CountIn(Run(late).grants, 1600 - d - w, 1600 - d) >= 3
  {
    hide Run;
    LateCallGrants(d);
    var a, b, c := At(600, 600, 2, "a"), At(600, 600, 2, "b"), At(1600, 1600, 2, "c");
    var late := At(1600 - d, 1600, 2, "d");
    var lo, hi := 1600 - d - w, 1600 - d;
    assert [] + [a] == [a] && [a] + [b] == [a, b] && [a, b] + [c] == [a, b, c] && [a, b, c] + [late] == LateCalls(d);
    CountSnoc([], a, lo, hi);
    CountSnoc([a], b, lo, hi);
    CountSnoc([a, b], c, lo, hi);
    CountSnoc([a, b, c], late, lo, hi);
  }

  function RepeatedCalls(): seq<Attempt> {
    [At(600, 600, 2, "a"), At(600, 600, 2, "a"), At(600, 600, 2, "b")]
  }

  lemma RepeatedCallGrants()
    ensures Run(RepeatedCalls()).grants == RepeatedCalls()
  {
    hide Run, Script;
    var a, b := At(600, 600, 2, "a"), At(600, 600, 2, "b");
    assert [] + [a] == [a] && [a] + [a] == [a, a] && [a, a] + [b] == RepeatedCalls();
    NoRun();
    RunSnoc([], a);
    Step(Run([]), a, map[], 0);
    RunSnoc([a], a);
    Step(Run([a]), a, map[a.member := 600], 1);
    RunSnoc([a, a], b);
    Step(Run([a, a]), b, map[a.member := 600], 1);
  }

  /** A repeated member adds no row, so the second grant is not counted: three grants at once, limit two. */
  lemma RepeatedMemberBreaksWindow()
    ensures var twice := RepeatedCalls(); Timely(twice, 0) && CountIn(Run(twice).grants, -400, 600) == 3
  {
    hide Run, CountIn;
    RepeatedCallGrants();
    var a, b := At(600, 600, 2, "a"), At(600, 600, 2, "b");
    assert [] + [a] == [a] && [a] + [a] == [a, a] && [a, a] + [b] == RepeatedCalls();
    NoRun();
    CountSnoc([], a, -400, 600);
    CountSnoc([a], a, -400, 600);
    CountSnoc([a, a], b, -400, 600);
  }

  function SlowCalls(flight: int): seq<Attempt> {
    [At(600, 600, 1, "a"), At(1599, 1599 + flight, 1, "b")]
  }

  /**
   A call longer in flight than `MAX_FLIGHT_MS` can find the key expired with a grant of its window in
   it: two grants in one second, limit one.
   */
  lemma SlowCallBreaksWindow(flight: int)
    requires flight > MAX_FLIGHT_MS
    ensures var slow := SlowCalls(flight);
            && Ordered(slow, 0) && Prompt(slow, flight) && FreshMembers(slow)
            && Run(slow).grants == slow && CountIn(slow, 599, 1599) == 2
  {
    var a, b := At(600, 600, 1, "a"), At(1599, 1599 + flight, 1, "b");
    RunSnoc([], a);
    RunSnoc([a], b);
    assert [] + [a] == [a] && [a] + [b] == [a, b];
    Step(Run([]), a, map[], 0);
    Step(Run([a]), b, map[], 0);
    CountSnoc([], a, 599, 1599);
    CountSnoc([a], b, 599, 1599);
  }

  // ---------- window safety ----------

  /** Every grant in `(lo, hi]` was made under a limit of at most `bound`. */
  predicate LimitsAtMost(grants: seq<Attempt>, lo: int, hi: int, bound: int) {
    forall g :: g in grants && lo < g.Now() <= hi ==> g.limit <= bound
  }

  /** The grants after one more call. */
  lemma GrantsNext(attempts: seq<Attempt>)
    requires attempts != []
    ensures var (tr, a) := (Run(attempts[..|attempts| - 1]), attempts[|attempts| - 1]);
            Run(attempts).grants == if Script(tr.key, a).1 then tr.grants + [a] else tr.grants
  {
    hide Script;
  }

  /** A grant keeps every window it falls into within the limits of its grants. */
  lemma GrantFits(before: seq<Attempt>, a: Attempt, latest: int, d: int, t: int, bound: nat)
    requires CountAfter(before, latest - WINDOW_MS) < a.limit && latest <= a.Now() + d
    requires var lo := t - (WINDOW_MS - d); lo < a.Now() <= t && LimitsAtMost(before + [a], lo, t, bound)
    ensures CountIn(before + [a], t - (WINDOW_MS - d), t) <= bound
  {
    hide CountIn;
    CountSnoc(before, a, t - (WINDOW_MS - d), t);
    CountInAfter(before, t - (WINDOW_MS - d), t, latest - WINDOW_MS);
    assert a in before + [a];
  }

  lemma CountInAfter(grants: seq<Attempt>, lo: int, hi: int, lo': int)
    requires lo' <= lo
    ensures CountIn(grants, lo, hi) <= CountAfter(grants, lo')
  {
  }

  lemma FewerLimits(before: seq<Attempt>, a: Attempt, lo: int, hi: int, bound: int)
    requires LimitsAtMost(before + [a], lo, hi, bound)
    ensures LimitsAtMost(before, lo, hi, bound)
  {
    assert forall g :: g in before ==> g in before + [a];
  }

  lemma NoGrants(lo: int, hi: int)
    ensures CountIn(Run([]).grants, lo, hi) == 0
  {
    NoRun();
  }

  /**
   When calls come at most `d` ms late, no window of `1000 - d` ms holds more grants than the largest
   limit in force for a grant in it, however the limit changes from call to call.
   */
  lemma {:induction false} WindowSafety(attempts: seq<Attempt>, d: int, t: int, bound: nat)
    requires WellTimed(attempts, d)
    requires LimitsAtMost(Run(attempts).grants, t - (WINDOW_MS - d), t, bound)
    ensures CountIn(Run(attempts).grants, t - (WINDOW_MS - d), t) <= bound
  {
    hide *;
    var lo := t - (WINDOW_MS - d);
    if attempts == [] {
      NoGrants(lo, t);
    } else {
      var n := |attempts| - 1;
      var prev, a := attempts[..n], attempts[n];
      var before := Run(prev).grants;
      WellTimedPrefix(attempts, d, n);
      NextDecision(attempts, d, n);
      LatestWithin(attempts, d);
      GrantsNext(attempts);
      assert attempts[..n + 1] == attempts;
      if !Script(Run(prev).key, a).1 {
        WindowSafety(prev, d, t, bound);
      } else if lo < a.Now() <= t {
        GrantFits(before, a, Latest(attempts), d, t, bound);
      } else {
        FewerLimits(before, a, lo, t, bound);
        WindowSafety(prev, d, t, bound);
        CountSnoc(before, a, lo, t);
      }
    }
  }

  lemma LatestWithin(attempts: seq<Attempt>, d: int)
    requires WellTimed(attempts, d) && attempts != []
    ensures Latest(attempts) <= attempts[|attempts| - 1].Now() + d
  {
    LatestBounds(attempts);
  }

  lemma CountSplit(grants: seq<Attempt>, lo: int, mid: int, hi: int)
    requires lo <= mid <= hi
    ensures CountIn(grants, lo, hi) == CountIn(grants, lo, mid) + CountIn(grants, mid, hi)
  {
  }

  /** Any `k` such windows in a row hold at most `k` times the largest limit in force in them. */
  lemma {:induction false} SecondsSafety(attempts: seq<Attempt>, d: int, t: int, k: nat, bound: nat)
    requires WellTimed(attempts, d)
    requires LimitsAtMost(Run(attempts).grants, t - k * (WINDOW_MS - d), t, bound)
    ensures CountIn(Run(attempts).grants, t - k * (WINDOW_MS - d), t) <= k * bound
    decreases k
  {
    var grants, w := Run(attempts).grants, WINDOW_MS - d;
    if k == 0 {
      EmptyWindow(grants, t);
    } else {
      hide Run, WellTimed;
      assert t - w - (k - 1) * w == t - k * w && (k - 1) * w >= 0 by { OneLess(k, w); }
      SecondsSafety(attempts, d, t - w, k - 1, bound);
      WindowSafety(attempts, d, t, bound);
      CountSplit(grants, t - k * w, t - w, t);
      assert k * bound == (k - 1) * bound + bound;
    }
  }

  lemma OneLess(k: nat, w: nat)
    requires k > 0
    ensures k * w == (k - 1) * w + w && (k - 1) * w >= 0
  {
  }

  lemma EmptyWindow(grants: seq<Attempt>, t: int)
    ensures CountIn(grants, t, t) == 0
  {
  }

  // ---------- how far the assumptions reach ----------

  /** The window of `w` ms up to `t` holds at most `bound` grants if each was made under such a limit. */
  ghost predicate WindowOk(attempts: seq<Attempt>, w: int, t: int, bound: nat) {
    var grants := Run(attempts).grants;
    LimitsAtMost(grants, t - w, t, bound) ==> CountIn(grants, t - w, t) <= bound
  }

  /** No window of `w` ms holds more grants than the largest limit in force for a grant in it. */
  ghost predicate SafeFor(attempts: seq<Attempt>, w: int) {
    forall t: int, bound: nat :: WindowOk(attempts, w, t, bound)
  }

  lemma EmptyWindows(grants: seq<Attempt>, lo: int, hi: int)
    requires hi <= lo
    ensures CountIn(grants, lo, hi) == 0
  {
  }

  lemma ShortWindowSafe(attempts: seq<Attempt>, d: int, w: int)
    requires WellTimed(attempts, d) && w <= WINDOW_MS - d
    ensures SafeFor(attempts, w)
  {
    hide Run, CountIn, LimitsAtMost;
    forall t: int, bound: nat ensures WindowOk(attempts, w, t, bound) {
      if w <= 0 {
        EmptyWindows(Run(attempts).grants, t - w, t);
      } else if LimitsAtMost(Run(attempts).grants, t - w, t, bound) {
        WindowSafety(attempts, WINDOW_MS - w, t, bound);
      }
    }
  }

  /** When calls may come `d` ms late, windows are safe on every run exactly up to a length of `1000 - d` ms. */
  lemma WindowExact(d: int, w: int)
    requires 0 <= d < WINDOW_MS
    ensures (forall attempts :: WellTimed(attempts, d) ==> SafeFor(attempts, w)) <==> w <= 1000 - d
  {
    if w <= WINDOW_MS - d {
      forall attempts | WellTimed(attempts, d) ensures SafeFor(attempts, w) {
        ShortWindowSafe(attempts, d, w);
      }
    } else {
      hide Run, CountIn, WellTimed;
      var late := LateCalls(d);
      LateCallBreaksWindow(d, w);
      LateCallGrants(d);
      assert LimitsAtMost(Run(late).grants, 1600 - d - w, 1600 - d, 2);
      assert !WindowOk(late, w, 1600 - d, 2);
    }
  }

  /**
   The expiry of the key is long enough exactly for calls that reach Redis within 1001 ms: then, and
   only then, one-second windows are safe on every run in order with fresh members.
   */
  lemma FlightExact(flight: int)
    ensures (forall attempts :: Ordered(attempts, 0) && Prompt(attempts, flight) && FreshMembers(attempts) ==>
               SafeFor(attempts, WINDOW_MS))
            <==> flight <= 1001
  {
    if flight <= MAX_FLIGHT_MS {
      forall attempts | Ordered(attempts, 0) && Prompt(attempts, flight) && FreshMembers(attempts)
        ensures SafeFor(attempts, WINDOW_MS)
      {
        assert WellTimed(attempts, 0);
        ShortWindowSafe(attempts, 0, WINDOW_MS);
      }
    } else {
      hide Run, CountIn, Ordered, Prompt, FreshMembers;
      var slow := SlowCalls(flight);
      SlowCallBreaksWindow(flight);
      assert LimitsAtMost(Run(slow).grants, 1599 - WINDOW_MS, 1599, 1);
      assert !WindowOk(slow, WINDOW_MS, 1599, 1);
    }
  }
}
