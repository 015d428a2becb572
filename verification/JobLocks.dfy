/**
 The distributed locks of the job workers: the `job_locks` table, at most one row per key, and
 the statements `acquireLock`, `releaseLock` and `purgeExpiredLocks` are made of.  Statements of
 any number of workers interleave; the database clock never runs backwards.
 */
module JobLocks {
  import opened Text

  datatype Lock = Lock(jobId: int, lockedBy: string, expiresAt: int)

  datatype Table = Table(rows: map<string, Lock>, clock: int)

  predicate Expired(lock: Lock, clock: int) {
    lock.expiresAt < clock
  }

  /**
   One database statement of a worker.  `DeleteExpired` then `Insert` is `acquireLock`; the expiry
   of an insert is computed on the worker's own clock, so it may be any time at all.
   */
  datatype Statement =
    | DeleteExpired(key: string)
    | Insert(key: string, lock: Lock)
    | Release(key: string, worker: string)
    | Purge
    | Tick(ms: nat)

  /** The effect of a statement. */
  function Exec(t: Table, s: Statement): Table {
    match s
    case DeleteExpired(key) =>
      if key in t.rows && Expired(t.rows[key], t.clock) then t.(rows := t.rows - {key}) else t
    case Insert(key, lock) =>
      if key in t.rows then t else t.(rows := t.rows[key := lock])
    case Release(key, worker) =>
      if key in t.rows && t.rows[key].lockedBy == worker then t.(rows := t.rows - {key}) else t
    case Purge =>
      t.(rows := map k | k in t.rows && !Expired(t.rows[k], t.clock) :: t.rows[k])
    case Tick(ms) => t.(clock := t.clock + ms)
  }

  function ExecAll(t: Table, run: seq<Statement>): Table {
    if run == [] then t else Exec(ExecAll(t, run[..|run| - 1]), run[|run| - 1])
  }

  const NO_LOCKS := Table(map[], 0)

  /** The table before statement `i` of a run. */
  function Before(run: seq<Statement>, i: nat): Table
    requires i <= |run|
  {
    ExecAll(NO_LOCKS, run[..i])
  }

  /** Statement `i` is the insert of an `acquireLock` that returned true. */
  predicate Acquired(run: seq<Statement>, i: nat) {
    i < |run| && run[i].Insert? && run[i].key !in Before(run, i).rows
  }

  lemma BeforeNext(run: seq<Statement>, i: nat)
    requires i < |run|
    ensures Before(run, i + 1) == Exec(Before(run, i), run[i])
  {
    assert run[..i + 1][..i] == run[..i];
  }

  lemma {:induction false} ClockMonotone(run: seq<Statement>, i: nat, j: nat)
    requires i <= j <= |run|
    ensures Before(run, i).clock <= Before(run, j).clock
    decreases j
  {
    if i < j {
      ClockMonotone(run, i, j - 1);
      BeforeNext(run, j - 1);
    }
  }

  /** Between `i` and `j` the holder did not release the key. */
  predicate NotReleased(run: seq<Statement>, i: nat, j: nat, key: string, worker: string) {
    forall m :: i < m < j && m < |run| ==> run[m] != Release(key, worker)
  }

  /**
   From its insert on, a lock row stays exactly as inserted until its holder releases it or the
   database clock has passed its expiry.
   */
  lemma {:induction false} RowHeld(run: seq<Statement>, i: nat, j: nat)
    requires Acquired(run, i) && i < j <= |run|
    requires NotReleased(run, i, j, run[i].key, run[i].lock.lockedBy)
    requires !Expired(run[i].lock, Before(run, j).clock)
    ensures run[i].key in Before(run, j).rows && Before(run, j).rows[run[i].key] == run[i].lock
    decreases j
  {
    BeforeNext(run, j - 1);
    if i + 1 < j {
      ClockMonotone(run, j - 1, j);
      RowHeld(run, i, j - 1);
    }
  }

  /**
   Mutual exclusion: once a worker's `acquireLock` has returned true on a key, another
   `acquireLock` on that key returns true only after the first holder's release, or after the
   database clock passed the first lock's expiry.
   */
  lemma MutualExclusion(run: seq<Statement>, i: nat, j: nat)
    requires Acquired(run, i) && Acquired(run, j) && i < j
    requires run[i].key == run[j].key
    ensures Expired(run[i].lock, Before(run, j).clock)
            || exists m :: i < m < j && run[m] == Release(run[i].key, run[i].lock.lockedBy)
  {
    if !Expired(run[i].lock, Before(run, j).clock) && NotReleased(run, i, j, run[i].key, run[i].lock.lockedBy) {
      RowHeld(run, i, j);
    }
  }

  /** The worker's acquisition at `i` is still good at `j`: unexpired by the database clock and not released. */
  predicate Holds(run: seq<Statement>, i: nat, j: nat) {
    && Acquired(run, i) && i < j <= |run|
    && !Expired(run[i].lock, Before(run, j).clock)
    && NotReleased(run, i, j, run[i].key, run[i].lock.lockedBy)
  }

  /** At any moment at most one acquisition of a key is good. */
  lemma OneHolder(run: seq<Statement>, i: nat, i': nat, j: nat)
    requires Holds(run, i, j) && Holds(run, i', j) && run[i].key == run[i'].key
    ensures i == i'
  {
    if i != i' {
      var first, second := if i < i' then i else i', if i < i' then i' else i;
      ClockMonotone(run, second, j);
      RowHeld(run, first, second);
    }
  }

  /**
   A release of a key somebody holds changes the table, and ends the hold, exactly when it carries
   the holder's worker id: a late release of an earlier holder changes nothing.
   */
  lemma LateRelease(run: seq<Statement>, i: nat, j: nat)
    requires Holds(run, i, j) && j < |run| && run[j].Release? && run[j].key == run[i].key
    ensures Before(run, j + 1) == Before(run, j) <==> run[j].worker != run[i].lock.lockedBy
    ensures Holds(run, i, j + 1) <==> run[j].worker != run[i].lock.lockedBy
    ensures run[j].worker == run[i].lock.lockedBy ==> Before(run, j + 1).rows == Before(run, j).rows - {run[i].key}
  {
    RowHeld(run, i, j);
    BeforeNext(run, j);
  }

  /** The row of `key` at `j` is that of the acquisition at `i`, which nobody has released since. */
  predicate StandsFor(run: seq<Statement>, i: nat, j: nat, key: string)
    requires j <= |run| && key in Before(run, j).rows
  {
    && i < j && Acquired(run, i) && run[i].key == key
    && run[i].lock == Before(run, j).rows[key]
    && NotReleased(run, i, j, key, run[i].lock.lockedBy)
  }

  lemma RowAfter(run: seq<Statement>, j: nat, key: string)
    requires j < |run| && key in Before(run, j + 1).rows
    ensures key in Before(run, j).rows ==>
              && Before(run, j + 1).rows[key] == Before(run, j).rows[key]
              && run[j] != Release(key, Before(run, j).rows[key].lockedBy)
    ensures key !in Before(run, j).rows ==> StandsFor(run, j, j + 1, key)
  {
    BeforeNext(run, j);
  }

  /** Every row in the table is the row of some acquisition on its key that nobody has removed since. */
  lemma {:induction false} RowsAreAcquired(run: seq<Statement>, j: nat, key: string)
    requires j <= |run| && key in Before(run, j).rows
    ensures exists i: nat :: StandsFor(run, i, j, key)
    decreases j
  {
    assert Before(run, 0) == NO_LOCKS;
    RowAfter(run, j - 1, key);
    if key in Before(run, j - 1).rows {
      hide Before, Acquired;
      RowsAreAcquired(run, j - 1, key);
      var i: nat :| StandsFor(run, i, j - 1, key);
      assert StandsFor(run, i, j, key);
    }
  }

  /**
   When nothing comes between its two statements, `acquireLock` returns true exactly when no
   acquisition of the key is still good.
   */
  lemma AcquireExact(run: seq<Statement>, j: nat)
    requires j + 1 < |run| && run[j].DeleteExpired? && run[j + 1].Insert? && run[j].key == run[j + 1].key
    ensures Acquired(run, j + 1) <==> !exists i: nat :: Holds(run, i, j) && run[i].key == run[j].key
  {
    var key := run[j].key;
    BeforeNext(run, j);
    if i: nat :| Holds(run, i, j) && run[i].key == key {
      RowHeld(run, i, j);
    }
    if !Acquired(run, j + 1) {
      RowsAreAcquired(run, j, key);
      var i: nat :| StandsFor(run, i, j, key);
      assert Holds(run, i, j);
    }
  }

  /** A release by a worker's own id does remove that worker's later lock: the guarantee needs distinct ids. */
  lemma SharedIdReleases(key: string, worker: string, first: Lock, second: Lock)
    requires first.lockedBy == second.lockedBy == worker && 0 <= first.expiresAt < second.expiresAt
    ensures var run := [Insert(key, first), Tick(first.expiresAt + 1), DeleteExpired(key), Insert(key, second),
                        Release(key, worker)];
            Acquired(run, 0) && Acquired(run, 3) && key !in Before(run, 5).rows
  {
    var run := [Insert(key, first), Tick(first.expiresAt + 1), DeleteExpired(key), Insert(key, second),
                Release(key, worker)];
    assert run[..0] == [];
    BeforeNext(run, 0);
    BeforeNext(run, 1);
    BeforeNext(run, 2);
    BeforeNext(run, 3);
    BeforeNext(run, 4);
  }

  // ---------- the service over the live table ----------

  class Locks {
    var rows: map<string, Lock>
    var clock: int

    function Contents(): Table
      reads this
    {
      Table(rows, clock)
    }

    constructor ()
      ensures Contents() == NO_LOCKS
    {
      rows, clock := map[], 0;
    }

    /** Run one statement of some other worker. */
    method Interleave(s: Statement)
      modifies this
      ensures Contents() == Exec(old(Contents()), s)
    {
      match s
      case DeleteExpired(key) => DeleteIfExpired(key);
      case Insert(key, lock) => var _ := TryInsert(key, lock);
      case Release(key, worker) => ReleaseLock(key, worker);
      case Purge => var _ := PurgeExpiredLocks();
      case Tick(ms) => clock := clock + ms;
    }

    method DeleteIfExpired(key: string)
      modifies this`rows
      ensures Contents() == Exec(old(Contents()), DeleteExpired(key))
      ensures rows == if key in old(rows) && old(rows)[key].expiresAt < clock then old(rows) - {key} else old(rows)
    {
      if key in rows && rows[key].expiresAt < clock {
        rows := rows - {key};
      }
    }

    /** False is `ER_DUP_ENTRY`: `lock_key` is the primary key. */
    method TryInsert(key: string, lock: Lock) returns (inserted: bool)
      modifies this`rows
      ensures Contents() == Exec(old(Contents()), Insert(key, lock))
      ensures inserted == (key !in old(rows))
      ensures rows == if inserted then old(rows)[key := lock] else old(rows)
    {
      if key in rows {
        return false;
      }
      rows := rows[key := lock];
      return true;
    }

    /** `acquireLock`, with the statements other workers run between its two. */
    method AcquireLock(key: string, jobId: int, worker: string, now: int, ttlMs: int, between: seq<Statement>)
      returns (acquired: bool)
      modifies this
      ensures var run := [DeleteExpired(key)] + between + [Insert(key, Lock(jobId, worker, now + ttlMs))];
              Contents() == ExecAll(old(Contents()), run)
              && acquired == (key !in ExecAll(old(Contents()), run[..|run| - 1]).rows)
      ensures acquired ==> key in rows && rows[key] == Lock(jobId, worker, now + ttlMs)
      ensures between == [] ==> (acquired <==> key !in old(rows) || old(rows)[key].expiresAt < old(clock))
      ensures between == [] ==>
                && clock == old(clock)
                && rows == if acquired then old(rows)[key := Lock(jobId, worker, now + ttlMs)] else old(rows)
    {
      var expiresAt := now + ttlMs;
      ghost var start := Contents();
      ghost var prefix := [DeleteExpired(key)];
      DeleteIfExpired(key);
      assert ExecAll(start, prefix) == Exec(start, DeleteExpired(key)) by {
        assert prefix[..0] == [];
      }
      for i := 0 to |between|
        invariant Contents() == ExecAll(start, prefix + between[..i])
      {
        Interleave(between[i]);
        assert (prefix + between[..i + 1])[..|prefix + between[..i + 1]| - 1] == prefix + between[..i];
      }
      assert between[..|between|] == between;
      acquired := TryInsert(key, Lock(jobId, worker, expiresAt));
      ghost var run := prefix + between + [Insert(key, Lock(jobId, worker, expiresAt))];
      assert run[..|run| - 1] == prefix + between;
      if between == [] {
        assert prefix + between == prefix;
      }
    }

    method ReleaseLock(key: string, worker: string)
      modifies this`rows
      ensures Contents() == Exec(old(Contents()), Release(key, worker))
      ensures rows == if key in old(rows) && old(rows)[key].lockedBy == worker then old(rows) - {key} else old(rows)
    {
      if key in rows && rows[key].lockedBy == worker {
        rows := rows - {key};
      }
    }

    /** Removes exactly the expired rows and reports how many there were. */
    method PurgeExpiredLocks() returns (affectedRows: nat)
      modifies this`rows
      ensures Contents() == Exec(old(Contents()), Purge)
      ensures forall k :: k in rows <==> k in old(rows) && !(old(rows)[k].expiresAt < clock)
      ensures forall k :: k in rows ==> rows[k] == old(rows)[k]
      ensures affectedRows == |set k | k in old(rows) && old(rows)[k].expiresAt < clock|
    {
      var expired := set k | k in rows && rows[k].expiresAt < clock;
      affectedRows := |expired|;
      assert expired == set k | k in rows && Expired(rows[k], clock);
      rows := rows - expired;
    }
  }
}
