/**
 The orchestrator's and the monitor's methods over the live tables, statement by statement, proved
 to have the effects `JobTables.Apply` gives them.
 */
module JobStore {
  import opened Text
  import opened JobTables

  // ---------- the assembled UPDATE ----------

  /** A bound parameter. */
  datatype Cell = StatusCell(status: Status) | TimeCell(time: int) | JsonCell(json: string) | IdCell(id: nat)

  /** One assignment of an UPDATE with its parameter; None is a column or type error. */
  function Assign(job: Job, assignment: string, cell: Cell): Option<Job> {
    match cell
    case StatusCell(s) => if assignment == "status = ?" then Some(job.(status := s)) else None
    case JsonCell(json) => if assignment == "result = ?" then Some(job.(result := Some(json))) else None
    case TimeCell(time) =>
      if assignment == "updated_at = ?" then Some(job.(updatedAt := time))
      else if assignment == "started_at = ?" then Some(job.(startedAt := Some(time)))
      else if assignment == "completed_at = ?" then Some(job.(completedAt := Some(time)))
      else if assignment == "failed_at = ?" then Some(job.(failedAt := Some(time)))
      else None
    case IdCell(_) => None
  }

  /** `SET` clauses bind their parameters by position. */
  function AssignAll(job: Job, sets: seq<string>, values: seq<Cell>): Option<Job> {
    if |sets| != |values| then None
    else if sets == [] then Some(job)
    else
      var n := |sets| - 1;
      match AssignAll(job, sets[..n], values[..n])
      case None => None
      case Some(j) => Assign(j, sets[n], values[n])
  }

  lemma AssignNext(job: Job, sets: seq<string>, values: seq<Cell>, assignment: string, cell: Cell)
    requires AssignAll(job, sets, values).Some?
    ensures AssignAll(job, sets + [assignment], values + [cell])
            == Assign(AssignAll(job, sets, values).value, assignment, cell)
  {
    assert (sets + [assignment])[..|sets|] == sets && (values + [cell])[..|values|] == values;
  }

  lemma AssignFacts(job: Job, status: Status, json: string, now: int)
    ensures Assign(job, "status = ?", StatusCell(status)) == Some(job.(status := status))
    ensures Assign(job, "result = ?", JsonCell(json)) == Some(job.(result := Some(json)))
    ensures Assign(job, "updated_at = ?", TimeCell(now)) == Some(job.(updatedAt := now))
    ensures Assign(job, "started_at = ?", TimeCell(now)) == Some(job.(startedAt := Some(now)))
    ensures Assign(job, "completed_at = ?", TimeCell(now)) == Some(job.(completedAt := Some(now)))
    ensures Assign(job, "failed_at = ?", TimeCell(now)) == Some(job.(failedAt := Some(now)))
  {
    assert "updated_at = ?"[0] == 'u' && "started_at = ?"[0] == 's';
    assert "completed_at = ?"[0] == 'c' && "failed_at = ?"[0] == 'f';
  }

  /** What every update sets. */
  function Touched(job: Job, status: Status, result: Option<string>, now: int): Job {
    job.(status := status, updatedAt := now, result := if result.Some? then result else job.result)
  }

  /** The clauses and parameters of an update, pushed side by side. */
  method AssembleUpdate(status: Status, result: Option<string>, now: int, ghost job: Job)
    returns (sets: seq<string>, values: seq<Cell>)
    ensures AssignAll(job, sets, values) == Some(WithStatus(job, status, result, now))
  {
    hide Assign;
    sets, values := AssembleTouch(status, result, now, job);
    ghost var touched := Touched(job, status, result, now);
    AssignFacts(touched, status, "", now);
    if status == Processing {
      AssignNext(job, sets, values, "started_at = ?", TimeCell(now));
      sets, values := sets + ["started_at = ?"], values + [TimeCell(now)];
    } else if status == Completed {
      AssignNext(job, sets, values, "completed_at = ?", TimeCell(now));
      sets, values := sets + ["completed_at = ?"], values + [TimeCell(now)];
    } else if status == Failed {
      AssignNext(job, sets, values, "failed_at = ?", TimeCell(now));
      sets, values := sets + ["failed_at = ?"], values + [TimeCell(now)];
    }
  }

  method AssembleTouch(status: Status, result: Option<string>, now: int, ghost job: Job)
    returns (sets: seq<string>, values: seq<Cell>)
    ensures AssignAll(job, sets, values) == Some(Touched(job, status, result, now))
  {
    hide Assign;
    sets, values := [], [];
    AssignFacts(job, status, "", now);
    AssignNext(job, [], [], "status = ?", StatusCell(status));
    AssignFacts(job.(status := status), status, "", now);
    AssignNext(job, [] + ["status = ?"], [] + [StatusCell(status)], "updated_at = ?", TimeCell(now));
    sets, values := [] + ["status = ?"] + ["updated_at = ?"], [] + [StatusCell(status)] + [TimeCell(now)];
    if result.Some? {
      AssignFacts(job.(status := status, updatedAt := now), status, result.value, now);
      AssignNext(job, sets, values, "result = ?", JsonCell(result.value));
      sets, values := sets + ["result = ?"], values + [JsonCell(result.value)];
    }
  }

  class JobStore {
    var jobs: map<nat, Job>
    var nextJob: nat
    var attempts: seq<AttemptRow>
    var dead: map<nat, DeadRow>
    var nextDead: nat

    function Contents(): Tables
      reads this
    {
      Tables(jobs, nextJob, attempts, dead, nextDead)
    }

    ghost predicate Valid()
      reads this
    {
      Numbered(Contents()) && UniqueUids(jobs)
    }

    constructor ()
      ensures Valid() && Contents() == NO_ROWS
    {
      jobs, nextJob, attempts, dead, nextDead := map[], 1, [], map[], 1;
    }

    // ---------- statements ----------

    /** `SELECT * FROM jobs WHERE job_uid = ?` */
    method FindJobByUid(uid: string) returns (r: Option<nat>)
      requires Valid()
      ensures r.None? <==> !UidTaken(jobs, uid)
      ensures r.Some? ==> UidTaken(jobs, uid) && r.value == JobWithUid(jobs, uid)
    {
      if id: nat :| id in jobs && jobs[id].uid == uid {
        r := Some(id);
      } else {
        r := None;
      }
    }

    /** `SELECT * FROM jobs WHERE id = ?`, serialised. */
    method GetJobById(id: nat) returns (r: Result<Job>)
      ensures id !in jobs ==> r == Err(NotFound)
      ensures id in jobs ==> r == Ok(jobs[id].(work := Serialized(jobs[id].work)))
    {
      if id !in jobs {
        return Err(NotFound);
      }
      var row := jobs[id];
      var w := row.work;
      return Ok(row.(work := w.(clientId := Truthy(w.clientId), projectId := Truthy(w.projectId))));
    }

    method ExecuteInsert(job: Job) returns (r: Result<nat>)
      requires Valid()
      modifies this`jobs, this`nextJob
      ensures Valid()
      ensures Contents() == InsertJob(old(Contents()), job).0 && r == InsertJob(old(Contents()), job).1
    {
      InsertKeeps(Contents(), job);
      var other := FindJobByUid(job.uid);
      if other.Some? {
        return Err(DuplicateUid);
      }
      jobs := jobs[nextJob := job];
      r := Ok(nextJob);
      nextJob := nextJob + 1;
    }

    /** `UPDATE jobs SET <sets> WHERE id = ?`: the last parameter is the id; false is a malformed statement. */
    method ExecuteUpdate(sets: seq<string>, values: seq<Cell>) returns (ok: bool)
      requires values != [] && values[|values| - 1].IdCell?
      modifies this`jobs
      ensures var (id, cells) := (values[|values| - 1].id, values[..|values| - 1]);
              if id !in old(jobs) then ok && jobs == old(jobs)
              else match AssignAll(old(jobs)[id], sets, cells)
                   case None => !ok && jobs == old(jobs)
                   case Some(job) => ok && jobs == old(jobs)[id := job]
    {
      var id := values[|values| - 1].id;
      if id !in jobs {
        return true;
      }
      var updated := AssignAll(jobs[id], sets, values[..|values| - 1]);
      if updated.None? {
        return false;
      }
      jobs := jobs[id := updated.value];
      return true;
    }

    // ---------- operations ----------

    static ghost predicate HasUid(jobs: map<nat, Job>, uid: string) {
      exists id :: id in jobs && jobs[id].uid == uid
    }

    /** The row `createJob` writes, column by column: `pending`, unattempted, with the defaults of absent parameters. */
    static ghost function CreatedRow(p: CreateParams, uid: string, now: int): Job {
      Job(uid,
          Work(p.queueName, p.jobType,
               match p.priority case Some(v) => v case None => Standard,
               p.clientId, p.projectId, p.chainId, p.payload, p.correlationId,
               match p.maxAttempts case Some(v) => v case None => 3,
               match p.backoff case Some(v) => v case None => Exponential,
               match p.backoffDelayMs case Some(v) => v case None => 1000,
               match p.timeoutMs case Some(v) => v case None => 30000),
          p.parent, Pending, None, 0, p.scheduledAt, None, None, None, now)
    }

    /** The work of a row that another job takes over: ids of zero are lost. */
    static ghost function TakenOver(w: Work): Work {
      Work(w.queueName, w.jobType, w.priority,
           if w.clientId == Some(0) then None else w.clientId, if w.projectId == Some(0) then None else w.projectId,
           w.chainId, w.payload, w.correlationId, w.maxAttempts, w.backoff, w.backoffDelayMs, w.timeoutMs)
    }

    method CreateJob(p: CreateParams, uid: string, now: int) returns (r: Result<nat>)
      requires Valid()
      modifies this`jobs, this`nextJob
      ensures Valid()
      ensures r == if HasUid(old(jobs), uid) then Err(DuplicateUid) else Ok(old(nextJob))
      ensures r.Err? ==> jobs == old(jobs) && nextJob == old(nextJob)
      ensures r.Ok? ==> nextJob == old(nextJob) + 1 && jobs == old(jobs)[old(nextJob) := CreatedRow(p, uid, now)]
      ensures (Contents(), r) == Apply(old(Contents()), Op.CreateJob(p, uid, now))
    {
      var priority := Or(p.priority, Standard);
      var maxAttempts := Or(p.maxAttempts, 3);
      var backoff := Or(p.backoff, Exponential);
      var backoffDelayMs := Or(p.backoffDelayMs, 1000);
      var timeoutMs := Or(p.timeoutMs, 30000);
      var work := Work(p.queueName, p.jobType, priority, p.clientId, p.projectId, p.chainId, p.payload,
                       p.correlationId, maxAttempts, backoff, backoffDelayMs, timeoutMs);
      r := ExecuteInsert(Job(uid, work, p.parent, Pending, None, 0, p.scheduledAt, None, None, None, now));
    }

    method CreateJobIfNotExists(p: CreateParams, uid: string, now: int) returns (r: Result<nat>)
      requires Valid()
      modifies this`jobs, this`nextJob
      ensures Valid()
      ensures r.Ok? && r.value in jobs && jobs[r.value].uid == uid
      ensures HasUid(old(jobs), uid) ==> jobs == old(jobs) && nextJob == old(nextJob)
      ensures !HasUid(old(jobs), uid) ==>
                r.value == old(nextJob) && jobs == old(jobs)[old(nextJob) := CreatedRow(p, uid, now)]
      ensures (Contents(), r) == Apply(old(Contents()), Op.CreateJobIfNotExists(p, uid, now))
      ensures r.Ok?
    {
      var existing := FindJobByUid(uid);
      if existing.Some? {
        return Ok(existing.value);
      }
      r := CreateJob(p, uid, now);
    }

    /** A row after an update: the status and its own time, and the result if there is one. */
    static ghost function StatusRow(j: Job, status: Status, result: Option<string>, now: int): Job {
      Job(j.uid, j.work, j.parent, status, if result == None then j.result else result, j.attemptCount, j.scheduledAt,
          if status == Processing then Some(now) else j.startedAt,
          if status == Completed then Some(now) else j.completedAt,
          if status == Failed then Some(now) else j.failedAt, now)
    }

    /** The clauses and parameters are pushed side by side; the id comes last. */
    method UpdateJobStatus(id: nat, status: Status, result: Option<string>, now: int)
      requires Valid()
      modifies this`jobs
      ensures Valid()
      ensures Contents() == Apply(old(Contents()), Op.UpdateJobStatus(id, status, result, now)).0
      ensures id !in old(jobs) ==> jobs == old(jobs)
      ensures id in old(jobs) ==> jobs == old(jobs)[id := StatusRow(old(jobs)[id], status, result, now)]
    {
      SetStatusKeeps(Contents(), id, status, result, now);
      ghost var blank := Work("", "", Standard, None, None, None, "", None, 0, Fixed, 0, 0);
      ghost var job := if id in jobs then jobs[id] else NewJob("", blank, None, None, 0);
      StatusRowIs(job, status, result, now);
      hide Assign, AssignAll, WithStatus, StatusRow, Numbered, UniqueUids;
      var sets, values := AssembleUpdate(status, result, now, job);
      assert (values + [IdCell(id)])[..|values|] == values;
      var _ := ExecuteUpdate(sets, values + [IdCell(id)]);
    }

    static lemma StatusRowIs(j: Job, status: Status, result: Option<string>, now: int)
      ensures WithStatus(j, status, result, now) == StatusRow(j, status, result, now)
    {
    }

    /** `INSERT INTO job_attempts`: `job_id` refers to a job. */
    method ExecuteInsertAttempt(row: AttemptRow) returns (ok: bool)
      modifies this`attempts
      ensures ok == (row.jobId in jobs)
      ensures attempts == if ok then old(attempts) + [row] else old(attempts)
    {
      if row.jobId !in jobs {
        return false;
      }
      attempts := attempts + [row];
      return true;
    }

    /** `UPDATE jobs SET attempt_count = ? WHERE id = ?` */
    method ExecuteSetCount(id: nat, number: int, now: int)
      modifies this`jobs
      ensures jobs == if id in old(jobs) then old(jobs)[id := WithCount(old(jobs)[id], number, now)] else old(jobs)
    {
      if id in jobs && jobs[id].attemptCount != number {
        jobs := jobs[id := jobs[id].(attemptCount := number, updatedAt := now)];
      }
    }

    /** The attempt row first, then the count. */
    method RecordAttempt(id: nat, attempt: Attempt, now: int) returns (r: Result<nat>)
      requires Valid()
      modifies this`jobs, this`attempts
      ensures Valid()
      ensures (Contents(), r) == Apply(old(Contents()), Op.RecordAttempt(id, attempt, now))
      ensures id !in old(jobs) ==> r == Err(NotFound) && jobs == old(jobs) && attempts == old(attempts)
      ensures id in old(jobs) ==> r == Ok(id) && attempts == old(attempts) + [AttemptRow(id, attempt)]
      ensures id in old(jobs) ==>
                var j := old(jobs)[id];
                jobs == old(jobs)[id := j.(attemptCount := attempt.number,
                                           updatedAt := if j.attemptCount == attempt.number then j.updatedAt else now)]
    {
      RecordKeeps(Contents(), id, attempt, now);
      var inserted := ExecuteInsertAttempt(AttemptRow(id, attempt));
      if !inserted {
        return Err(NotFound);
      }
      ExecuteSetCount(id, attempt.number, now);
      r := Ok(id);
    }

    /** The entry `moveToDeadLetter` writes, column by column, waiting for review. */
    static ghost function EntryRow(id: nat, j: Job, error: string): DeadRow {
      var w := TakenOver(j.work);
      DeadRow(id, j.uid, w.queueName, w.jobType, w.clientId, w.projectId, w.payload, error, j.attemptCount,
              PendingReview, None, None, None, None)
    }

    method MoveToDeadLetter(id: nat, error: string, now: int) returns (r: Result<nat>)
      requires Valid()
      modifies this`jobs, this`dead, this`nextDead
      ensures Valid()
      ensures (Contents(), r) == Apply(old(Contents()), Op.MoveToDeadLetter(id, error, now))
      ensures id !in old(jobs) ==>
                r == Err(NotFound) && jobs == old(jobs) && dead == old(dead) && nextDead == old(nextDead)
      ensures id in old(jobs) ==>
                && r == Ok(old(nextDead)) && nextDead == old(nextDead) + 1
                && dead == old(dead)[old(nextDead) := EntryRow(id, old(jobs)[id], error)]
                && jobs == old(jobs)[id := old(jobs)[id].(status := DeadLetter, updatedAt := now)]
    {
      var job := GetJobById(id);
      if job.Err? {
        return Err(job.error);
      }
      var j := job.value;
      dead := dead[nextDead := DeadRow(id, j.uid, j.work.queueName, j.work.jobType, j.work.clientId, j.work.projectId,
                                       j.work.payload, error, j.attemptCount, PendingReview, None, None, None, None)];
      r := Ok(nextDead);
      nextDead := nextDead + 1;
      UpdateJobStatus(id, DeadLetter, None, now);
    }

    method RetryJob(id: nat, uid: string, now: int) returns (r: Result<nat>)
      requires Valid()
      modifies this`jobs, this`nextJob
      ensures Valid()
      ensures r == if id !in old(jobs) then Err(NotFound)
                   else if HasUid(old(jobs), uid) then Err(DuplicateUid)
                   else Ok(old(nextJob))
      ensures r.Err? ==> jobs == old(jobs) && nextJob == old(nextJob)
      ensures r.Ok? ==>
                && nextJob == old(nextJob) + 1
                && jobs == old(jobs)[old(nextJob) := Job(uid, TakenOver(old(jobs)[id].work), Some(id), Pending, None, 0,
                                                         None, None, None, None, now)]
      ensures (Contents(), r) == Apply(old(Contents()), Op.RetryJob(id, uid, now))
    {
      var original := GetJobById(id);
      if original.Err? {
        return Err(original.error);
      }
      var w := original.value.work;
      var params := CreateParams(w.queueName, w.jobType, Some(w.priority), w.clientId, w.projectId, w.chainId,
                                 w.payload, w.correlationId, Some(id), Some(w.maxAttempts), Some(w.backoff),
                                 Some(w.backoffDelayMs), Some(w.timeoutMs), None);
      r := CreateJob(params, uid, now);
    }

    method CancelJob(id: nat, now: int) returns (r: Result<nat>)
      requires Valid()
      modifies this`jobs
      ensures Valid()
      ensures (Contents(), r) == Apply(old(Contents()), Op.CancelJob(id, now))
      ensures r == if id !in old(jobs) then Err(NotFound)
                   else if old(jobs)[id].status == Pending || old(jobs)[id].status == Queued then Ok(id)
                   else Err(WrongStatus)
      ensures r.Err? ==> jobs == old(jobs)
      ensures r.Ok? ==> jobs == old(jobs)[id := old(jobs)[id].(status := Canceled, updatedAt := now)]
    {
      var job := GetJobById(id);
      if job.Err? {
        return Err(job.error);
      }
      if job.value.status != Pending && job.value.status != Queued {
        return Err(WrongStatus);
      }
      UpdateJobStatus(id, Canceled, None, now);
      r := Ok(id);
    }

    /** The work of a reprocessed entry: its own columns, and the rest from the original job or the defaults. */
    static ghost function Revived(d: DeadRow, jobs: map<nat, Job>): Work {
      if d.originalJob in jobs then
        var w := jobs[d.originalJob].work;
        Work(d.queueName, d.jobType, w.priority, d.clientId, d.projectId, w.chainId, d.payload,
             w.correlationId, w.maxAttempts, w.backoff, w.backoffDelayMs, w.timeoutMs)
      else
        Work(d.queueName, d.jobType, Standard, d.clientId, d.projectId, None, d.payload,
             None, 3, Exponential, 1000, 30000)
    }

    method ReprocessDeadLetter(deadId: nat, adminId: int, uid: string, now: int) returns (r: Result<nat>)
      requires Valid()
      modifies this`jobs, this`nextJob, this`dead
      ensures Valid()
      ensures r == if deadId !in old(dead) then Err(NotFound)
                   else if old(dead)[deadId].status != PendingReview then Err(WrongStatus)
                   else if HasUid(old(jobs), uid) then Err(DuplicateUid)
                   else Ok(old(nextJob))
      ensures r.Err? ==> jobs == old(jobs) && nextJob == old(nextJob) && dead == old(dead)
      ensures r.Ok? ==>
                var (d, made) := (old(dead)[deadId], old(nextJob));
                && nextJob == made + 1
                && jobs == old(jobs)[made := Job(uid, Revived(d, old(jobs)), Some(d.originalJob), Pending, None, 0,
                                                 None, None, None, None, now)]
                && dead == old(dead)[deadId := d.(status := Reprocessed, reprocessedAt := Some(now),
                                                  reprocessedJob := Some(made), reviewedBy := Some(adminId))]
      ensures (Contents(), r) == Apply(old(Contents()), Op.ReprocessDeadLetter(deadId, adminId, uid, now))
    {
      ReprocessKeeps(Contents(), deadId, adminId, uid, now);
      if deadId !in dead {
        return Err(NotFound);
      }
      var d := dead[deadId];
      if d.status != PendingReview {
        return Err(WrongStatus);
      }
      var orig := if d.originalJob in jobs then Some(jobs[d.originalJob]) else None;
      var w := match orig
        case Some(o) =>
          Work(d.queueName, d.jobType, o.work.priority, d.clientId, d.projectId, o.work.chainId, d.payload,
               o.work.correlationId, o.work.maxAttempts, o.work.backoff, o.work.backoffDelayMs, o.work.timeoutMs)
        case None =>
          Work(d.queueName, d.jobType, Standard, d.clientId, d.projectId, None, d.payload,
               None, 3, Exponential, 1000, 30000);
      r := ExecuteInsert(NewJob(uid, w, Some(d.originalJob), None, now));
      if r.Ok? {
        dead := dead[deadId := d.(status := Reprocessed, reprocessedAt := Some(now), reprocessedJob := Some(r.value),
                                  reviewedBy := Some(adminId))];
      }
    }

    method DiscardDeadLetter(deadId: nat, adminId: int, notes: Option<string>) returns (r: Result<nat>)
      requires Valid()
      modifies this`dead
      ensures Valid()
      ensures (Contents(), r) == Apply(old(Contents()), Op.DiscardDeadLetter(deadId, adminId, notes))
      ensures r == if deadId !in old(dead) then Err(NotFound)
                   else if old(dead)[deadId].status != PendingReview then Err(WrongStatus)
                   else Ok(deadId)
      ensures r.Err? ==> dead == old(dead)
      ensures r.Ok? ==> dead == old(dead)[deadId := old(dead)[deadId].(status := Discarded,
                                                                       reviewedBy := Some(adminId), notes := notes)]
    {
      if deadId !in dead {
        return Err(NotFound);
      }
      if dead[deadId].status != PendingReview {
        return Err(WrongStatus);
      }
      dead := dead[deadId := dead[deadId].(status := Discarded, reviewedBy := Some(adminId), notes := notes)];
      r := Ok(deadId);
    }

    // ---------- whole runs ----------

    method Perform(op: Op) returns (r: Result<nat>)
      requires Valid()
      modifies this
      ensures Valid()
      ensures (Contents(), r) == Apply(old(Contents()), op)
    {
      match op
      case CreateJob(p, uid, now) => r := CreateJob(p, uid, now);
      case CreateJobIfNotExists(p, uid, now) => r := CreateJobIfNotExists(p, uid, now);
      case UpdateJobStatus(id, status, result, now) => UpdateJobStatus(id, status, result, now); r := Ok(id);
      case RecordAttempt(id, attempt, now) => r := RecordAttempt(id, attempt, now);
      case MoveToDeadLetter(id, error, now) => r := MoveToDeadLetter(id, error, now);
      case RetryJob(id, uid, now) => r := RetryJob(id, uid, now);
      case CancelJob(id, now) => r := CancelJob(id, now);
      case ReprocessDeadLetter(deadId, adminId, uid, now) => r := ReprocessDeadLetter(deadId, adminId, uid, now);
      case DiscardDeadLetter(deadId, adminId, notes) => r := DiscardDeadLetter(deadId, adminId, notes);
    }

    /**
     Any run of calls on a fresh store leaves the tables `After` speaks about, with each call's own
     answer: so the live store has every property proved of all runs.  Among them: ids and uids stay
     unique, timestamps go with their statuses, entries repeat their jobs, and each is reprocessed
     at most once.
     */
    method Serve(ops: seq<Op>) returns (answers: seq<Result<nat>>)
      requires Contents() == NO_ROWS
      modifies this
      ensures Valid() && Contents() == After(ops)
      ensures |answers| == |ops| && forall k :: 0 <= k < |ops| ==> answers[k] == Apply(State(ops, k), ops[k]).1
      ensures AllStamped(jobs) && AllRepeat(Contents()) && ReprocessingsOk(Contents(), Reprocessings(ops))
      ensures DecisionsStand(ops, answers, dead)
    {
      hide Apply, AllStamped, AllRepeat, ReprocessingsOk, Reprocessings, DecisionsStand;
      answers := [];
      assert ops[..0] == [];
      for i := 0 to |ops|
        invariant Valid() && Contents() == State(ops, i)
        invariant |answers| == i && forall k :: 0 <= k < i ==> answers[k] == Apply(State(ops, k), ops[k]).1
      {
        var r := Perform(ops[i]);
        answers := answers + [r];
        StateNext(ops, i);
      }
      assert ops[..|ops|] == ops;
      DecisionsOfRun(ops, answers);
      AlwaysStamped(ops);
      AlwaysRepeat(ops);
      ReprocessedOnce(ops);
    }
  }
}
