/**
 The job tables and the operations of the orchestrator and the monitor on them, each one atomic.
 `Tables` holds the rows of `jobs`, `job_attempts` and `dead_letter_jobs`.
 */
module JobTables {
  import opened Text

  datatype Status = Pending | Queued | Processing | Completed | Failed | DeadLetter | Canceled
  datatype Priority = Critical | Standard | Bulk
  datatype Backoff = Exponential | Linear | Fixed
  datatype ReviewStatus = PendingReview | Reprocessed | Discarded

  /** What a job is to do: the columns a derived job takes over. */
  datatype Work = Work(
    queueName: string, jobType: string, priority: Priority,
    clientId: Option<int>, projectId: Option<int>, chainId: Option<int>,
    payload: string, correlationId: Option<string>,
    maxAttempts: int, backoff: Backoff, backoffDelayMs: int, timeoutMs: int)

  datatype Job = Job(
    uid: string, work: Work, parent: Option<nat>, status: Status, result: Option<string>, attemptCount: int,
    scheduledAt: Option<int>, startedAt: Option<int>, completedAt: Option<int>, failedAt: Option<int>, updatedAt: int)

  datatype AttemptStatus = AttemptProcessing | AttemptCompleted | AttemptFailed

  /** The parameters of `recordAttempt`; times are in milliseconds, the result is its JSON text. */
  datatype Attempt = Attempt(
    number: int, status: AttemptStatus, workerId: Option<string>, startedAt: int, completedAt: Option<int>,
    durationMs: Option<int>, errorMessage: Option<string>, errorStack: Option<string>, result: Option<string>)

  datatype AttemptRow = AttemptRow(jobId: nat, attempt: Attempt)

  datatype DeadRow = DeadRow(
    originalJob: nat, uid: string, queueName: string, jobType: string,
    clientId: Option<int>, projectId: Option<int>,
    payload: string, lastError: string, totalAttempts: int, status: ReviewStatus,
    reprocessedAt: Option<int>, reprocessedJob: Option<nat>, reviewedBy: Option<int>, notes: Option<string>)

  datatype Tables = Tables(
    jobs: map<nat, Job>, nextJob: nat, attempts: seq<AttemptRow>, dead: map<nat, DeadRow>, nextDead: nat)

  const NO_ROWS := Tables(map[], 1, [], map[], 1)

  datatype Error = NotFound | DuplicateUid | WrongStatus

  datatype Result<+T> = Ok(value: T) | Err(error: Error)

  /** The parameters of `createJob`; None is an absent parameter. */
  datatype CreateParams = CreateParams(
    queueName: string, jobType: string, priority: Option<Priority>,
    clientId: Option<int>, projectId: Option<int>, chainId: Option<int>,
    payload: string, correlationId: Option<string>, parent: Option<nat>,
    maxAttempts: Option<int>, backoff: Option<Backoff>, backoffDelayMs: Option<int>, timeoutMs: Option<int>,
    scheduledAt: Option<int>)

  /** `row.client_id ? String(row.client_id) : null`: an id of zero reads as null. */
  function Truthy(id: Option<int>): Option<int> {
    if id == Some(0) then None else id
  }

  /** The work of a job as `serializeJob` hands it out. */
  function Serialized(w: Work): Work {
    w.(clientId := Truthy(w.clientId), projectId := Truthy(w.projectId))
  }

  function WorkOf(p: CreateParams): Work {
    Work(p.queueName, p.jobType, Or(p.priority, Standard), p.clientId, p.projectId, p.chainId, p.payload,
         p.correlationId, Or(p.maxAttempts, 3), Or(p.backoff, Exponential), Or(p.backoffDelayMs, 1000),
         Or(p.timeoutMs, 30000))
  }

  function ParamsOf(w: Work, parent: nat): CreateParams {
    CreateParams(w.queueName, w.jobType, Some(w.priority), w.clientId, w.projectId, w.chainId, w.payload,
                 w.correlationId, Some(parent), Some(w.maxAttempts), Some(w.backoff), Some(w.backoffDelayMs),
                 Some(w.timeoutMs), None)
  }

  function NewJob(uid: string, w: Work, parent: Option<nat>, scheduledAt: Option<int>, now: int): Job {
    Job(uid, w, parent, Pending, None, 0, scheduledAt, None, None, None, now)
  }

  // ---------- single statements ----------

  predicate UidTaken(jobs: map<nat, Job>, uid: string) {
    exists id :: id in jobs && jobs[id].uid == uid
  }

  /** `INSERT INTO jobs`: `job_uid` is unique, ids count up. */
  function InsertJob(t: Tables, job: Job): (Tables, Result<nat>) {
    if UidTaken(t.jobs, job.uid) then (t, Err(DuplicateUid))
    else (t.(jobs := t.jobs[t.nextJob := job], nextJob := t.nextJob + 1), Ok(t.nextJob))
  }

  /** A job after `updateJobStatus`. */
  function WithStatus(job: Job, status: Status, result: Option<string>, now: int): Job {
    job.(status := status, updatedAt := now,
         result := if result.Some? then result else job.result,
         startedAt := if status.Processing? then Some(now) else job.startedAt,
         completedAt := if status.Completed? then Some(now) else job.completedAt,
         failedAt := if status.Failed? then Some(now) else job.failedAt)
  }

  /** An update of a missing job matches no row. */
  function SetStatus(t: Tables, id: nat, status: Status, result: Option<string>, now: int): Tables {
    if id in t.jobs then t.(jobs := t.jobs[id := WithStatus(t.jobs[id], status, result, now)]) else t
  }

  // ---------- operations ----------

  datatype Op =
    | CreateJob(params: CreateParams, uid: string, now: int)
    | CreateJobIfNotExists(params: CreateParams, uid: string, now: int)
    | UpdateJobStatus(id: nat, status: Status, result: Option<string>, now: int)
    | RecordAttempt(id: nat, attempt: Attempt, now: int)
    | MoveToDeadLetter(id: nat, error: string, now: int)
    | RetryJob(id: nat, uid: string, now: int)
    | CancelJob(id: nat, now: int)
    | ReprocessDeadLetter(deadId: nat, adminId: int, uid: string, now: int)
    | DiscardDeadLetter(deadId: nat, adminId: int, notes: Option<string>)

  function Create(t: Tables, p: CreateParams, uid: string, now: int): (Tables, Result<nat>) {
    InsertJob(t, NewJob(uid, WorkOf(p), p.parent, p.scheduledAt, now))
  }

  /** The job with a uid; the unique key leaves only one. */
  ghost function JobWithUid(jobs: map<nat, Job>, uid: string): (id: nat)
    requires UidTaken(jobs, uid)
    ensures id in jobs && jobs[id].uid == uid
  {
    var id :| id in jobs && jobs[id].uid == uid;
    id
  }

  /** `UPDATE jobs SET attempt_count = ?`: an update that changes a row also sets its `updated_at`. */
  function WithCount(job: Job, number: int, now: int): Job {
    if job.attemptCount == number then job else job.(attemptCount := number, updatedAt := now)
  }

  /** An attempt of a missing job violates the foreign key. */
  function Record(t: Tables, id: nat, attempt: Attempt, now: int): (Tables, Result<nat>) {
    if id !in t.jobs then (t, Err(NotFound))
    else (t.(attempts := t.attempts + [AttemptRow(id, attempt)],
             jobs := t.jobs[id := WithCount(t.jobs[id], attempt.number, now)]), Ok(id))
  }

  function DeadRowOf(id: nat, job: Job, error: string): DeadRow {
    var w := Serialized(job.work);
    DeadRow(id, job.uid, w.queueName, w.jobType, w.clientId, w.projectId, w.payload, error, job.attemptCount,
            PendingReview, None, None, None, None)
  }

  function ToDeadLetter(t: Tables, id: nat, error: string, now: int): (Tables, Result<nat>) {
    if id !in t.jobs then (t, Err(NotFound))
    else
      var t1 := t.(dead := t.dead[t.nextDead := DeadRowOf(id, t.jobs[id], error)], nextDead := t.nextDead + 1);
      (SetStatus(t1, id, DeadLetter, None, now), Ok(t.nextDead))
  }

  function Retry(t: Tables, id: nat, uid: string, now: int): (Tables, Result<nat>) {
    if id !in t.jobs then (t, Err(NotFound))
    else Create(t, ParamsOf(Serialized(t.jobs[id].work), id), uid, now)
  }

  function Cancel(t: Tables, id: nat, now: int): (Tables, Result<nat>) {
    if id !in t.jobs then (t, Err(NotFound))
    else if !t.jobs[id].status.Pending? && !t.jobs[id].status.Queued? then (t, Err(WrongStatus))
    else (SetStatus(t, id, Canceled, None, now), Ok(id))
  }

  /** The job `reprocessDeadLetter` inserts: work from the entry, settings from the original if it is still there. */
  function ReprocessedWork(d: DeadRow, orig: Option<Job>): Work {
    match orig
    case Some(o) =>
      var w := o.work;
      Work(d.queueName, d.jobType, w.priority, d.clientId, d.projectId, w.chainId, d.payload, w.correlationId,
           w.maxAttempts, w.backoff, w.backoffDelayMs, w.timeoutMs)
    case None =>
      Work(d.queueName, d.jobType, Standard, d.clientId, d.projectId, None, d.payload, None,
           3, Exponential, 1000, 30000)
  }

  function Lookup(jobs: map<nat, Job>, id: nat): Option<Job> {
    if id in jobs then Some(jobs[id]) else None
  }

  function Reprocess(t: Tables, deadId: nat, adminId: int, uid: string, now: int): (Tables, Result<nat>) {
    if deadId !in t.dead then (t, Err(NotFound))
    else
      var d := t.dead[deadId];
      if !d.status.PendingReview? then (t, Err(WrongStatus))
      else
        var w := ReprocessedWork(d, Lookup(t.jobs, d.originalJob));
        var (t1, r) := InsertJob(t, NewJob(uid, w, Some(d.originalJob), None, now));
        if r.Err? then (t, r)
        else
          var d1 := d.(status := Reprocessed, reprocessedAt := Some(now), reprocessedJob := Some(r.value),
                       reviewedBy := Some(adminId));
          (t1.(dead := t1.dead[deadId := d1]), r)
  }

  function Discard(t: Tables, deadId: nat, adminId: int, notes: Option<string>): (Tables, Result<nat>) {
    if deadId !in t.dead then (t, Err(NotFound))
    else if !t.dead[deadId].status.PendingReview? then (t, Err(WrongStatus))
    else
      var d1 := t.dead[deadId].(status := Discarded, reviewedBy := Some(adminId), notes := notes);
      (t.(dead := t.dead[deadId := d1]), Ok(deadId))
  }

  ghost function Apply(t: Tables, op: Op): (Tables, Result<nat>) {
    match op
    case CreateJob(p, uid, now) => Create(t, p, uid, now)
    case CreateJobIfNotExists(p, uid, now) =>
      if UidTaken(t.jobs, uid) then (t, Ok(JobWithUid(t.jobs, uid))) else Create(t, p, uid, now)
    case UpdateJobStatus(id, status, result, now) => (SetStatus(t, id, status, result, now), Ok(id))
    case RecordAttempt(id, attempt, now) => Record(t, id, attempt, now)
    case MoveToDeadLetter(id, error, now) => ToDeadLetter(t, id, error, now)
    case RetryJob(id, uid, now) => Retry(t, id, uid, now)
    case CancelJob(id, now) => Cancel(t, id, now)
    case ReprocessDeadLetter(deadId, adminId, uid, now) => Reprocess(t, deadId, adminId, uid, now)
    case DiscardDeadLetter(deadId, adminId, notes) => Discard(t, deadId, adminId, notes)
  }

  ghost function After(ops: seq<Op>): Tables {
    if ops == [] then NO_ROWS else Apply(After(ops[..|ops| - 1]), ops[|ops| - 1]).0
  }

  lemma AfterNext(ops: seq<Op>, k: nat)
    requires k < |ops|
    ensures After(ops[..k + 1]) == Apply(After(ops[..k]), ops[k]).0
  {
    assert ops[..k + 1][..k] == ops[..k];
  }

  // ---------- what no operation changes ----------

  /** Every job of `t` is still there, with the same uid, work and parent; every entry is still there. */
  ghost predicate Frozen(t: Tables, t': Tables) {
    && (forall id :: id in t.jobs ==>
          && id in t'.jobs && t'.jobs[id].uid == t.jobs[id].uid
          && t'.jobs[id].work == t.jobs[id].work && t'.jobs[id].parent == t.jobs[id].parent)
    && (forall d :: d in t.dead ==> d in t'.dead)
  }

  /** Ids count up and uids are unique. */
  ghost predicate Numbered(t: Tables) {
    && (forall id :: id in t.jobs ==> 0 < id < t.nextJob)
    && (forall d :: d in t.dead ==> 0 < d < t.nextDead)
    && 0 < t.nextJob && 0 < t.nextDead
  }

  ghost predicate UniqueUids(jobs: map<nat, Job>) {
    forall i, j :: i in jobs && j in jobs && jobs[i].uid == jobs[j].uid ==> i == j
  }

  /** What every operation keeps. */
  ghost predicate Keeps(t: Tables, t': Tables) {
    Frozen(t, t') && Numbered(t') && (UniqueUids(t.jobs) ==> UniqueUids(t'.jobs))
  }

  lemma InsertKeeps(t: Tables, job: Job)
    requires Numbered(t)
    ensures Keeps(t, InsertJob(t, job).0)
  {
  }

  lemma SetStatusKeeps(t: Tables, id: nat, status: Status, result: Option<string>, now: int)
    requires Numbered(t)
    ensures Keeps(t, SetStatus(t, id, status, result, now))
  {
  }

  lemma RecordKeeps(t: Tables, id: nat, attempt: Attempt, now: int)
    requires Numbered(t)
    ensures Keeps(t, Record(t, id, attempt, now).0)
  {
  }

  lemma ToDeadLetterKeeps(t: Tables, id: nat, error: string, now: int)
    requires Numbered(t)
    ensures Keeps(t, ToDeadLetter(t, id, error, now).0)
  {
    hide SetStatus;
    if id in t.jobs {
      var t1 := t.(dead := t.dead[t.nextDead := DeadRowOf(id, t.jobs[id], error)], nextDead := t.nextDead + 1);
      SetStatusKeeps(t1, id, DeadLetter, None, now);
    }
  }

  lemma ReprocessKeeps(t: Tables, deadId: nat, adminId: int, uid: string, now: int)
    requires Numbered(t)
    ensures Keeps(t, Reprocess(t, deadId, adminId, uid, now).0)
  {
    if deadId in t.dead && t.dead[deadId].status.PendingReview? {
      var d := t.dead[deadId];
      InsertKeeps(t, NewJob(uid, ReprocessedWork(d, Lookup(t.jobs, d.originalJob)), Some(d.originalJob), None, now));
    }
  }

  lemma DiscardKeeps(t: Tables, deadId: nat, adminId: int, notes: Option<string>)
    requires Numbered(t)
    ensures Keeps(t, Discard(t, deadId, adminId, notes).0)
  {
  }

  lemma ApplyKeeps(t: Tables, op: Op)
    requires Numbered(t)
    ensures Keeps(t, Apply(t, op).0)
  {
    hide InsertJob, SetStatus, Record, ToDeadLetter, Reprocess, Discard, UidTaken, Frozen, UniqueUids;
    assert Keeps(t, t) by { KeepsItself(t); }
    match op
    case CreateJob(p, uid, now) => InsertKeeps(t, NewJob(uid, WorkOf(p), p.parent, p.scheduledAt, now));
    case CreateJobIfNotExists(p, uid, now) => InsertKeeps(t, NewJob(uid, WorkOf(p), p.parent, p.scheduledAt, now));
    case UpdateJobStatus(id, status, result, now) => SetStatusKeeps(t, id, status, result, now);
    case RecordAttempt(id, attempt, now) => RecordKeeps(t, id, attempt, now);
    case MoveToDeadLetter(id, error, now) => ToDeadLetterKeeps(t, id, error, now);
    case RetryJob(id, uid, now) =>
      if id in t.jobs {
        var p := ParamsOf(Serialized(t.jobs[id].work), id);
        InsertKeeps(t, NewJob(uid, WorkOf(p), p.parent, p.scheduledAt, now));
      }
    case CancelJob(id, now) => SetStatusKeeps(t, id, Canceled, None, now);
    case ReprocessDeadLetter(deadId, adminId, uid, now) => ReprocessKeeps(t, deadId, adminId, uid, now);
    case DiscardDeadLetter(deadId, adminId, notes) => DiscardKeeps(t, deadId, adminId, notes);
  }

  lemma KeepsItself(t: Tables)
    requires Numbered(t)
    ensures Keeps(t, t)
  {
  }

  lemma {:induction false} AlwaysNumbered(ops: seq<Op>)
    ensures Numbered(After(ops)) && UniqueUids(After(ops).jobs)
  {
    if ops != [] {
      AlwaysNumbered(ops[..|ops| - 1]);
      ApplyKeeps(After(ops[..|ops| - 1]), ops[|ops| - 1]);
    }
  }

  lemma FrozenThrough(t: Tables, t1: Tables, t2: Tables)
    requires Frozen(t, t1) && Frozen(t1, t2)
    ensures Frozen(t, t2)
  {
  }

  lemma FrozenItself(t: Tables)
    ensures Frozen(t, t)
  {
  }

  lemma {:induction false} FrozenFrom(ops: seq<Op>, k: nat)
    requires k <= |ops|
    ensures Frozen(After(ops[..k]), After(ops))
  {
    hide Apply, Frozen, Numbered, UniqueUids;
    if k == |ops| {
      assert ops[..k] == ops;
      FrozenItself(After(ops));
    } else {
      var n := |ops| - 1;
      FrozenFrom(ops[..n], k);
      assert ops[..n][..k] == ops[..k];
      AlwaysNumbered(ops[..n]);
      ApplyKeeps(After(ops[..n]), ops[n]);
      FrozenThrough(After(ops[..k]), After(ops[..n]), After(ops));
    }
  }

  /** An operation that fails changes nothing. */
  lemma ErrorChangesNothing(t: Tables, op: Op)
    requires Apply(t, op).1.Err?
    ensures Apply(t, op).0 == t
  {
    hide UidTaken, WorkOf, ReprocessedWork, DeadRowOf, ParamsOf;
  }

  /**
   Idempotent creation: once a job was created under a uid, however long ago and whatever happened
   since, creating it again with any parameters returns that job and changes nothing.
   */
  lemma CreatedOnce(ops: seq<Op>, k: nat, p: CreateParams, now: int)
    requires k < |ops| && ops[k].CreateJobIfNotExists?
    ensures var first := Apply(After(ops[..k]), ops[k]).1;
            first.Ok? && Apply(After(ops), CreateJobIfNotExists(p, ops[k].uid, now)) == (After(ops), first)
  {
    var uid := ops[k].uid;
    var t := After(ops[..k]);
    AlwaysNumbered(ops);
    AlwaysNumbered(ops[..k]);
    AfterNext(ops, k);
    FrozenFrom(ops, k + 1);
    CreatedHasUid(t, ops[k]);
    var id := Apply(t, ops[k]).1.value;
    hide Apply;
    assert id in After(ops).jobs && After(ops).jobs[id].uid == uid;
    ExistingReturned(After(ops), id, p, uid, now);
  }

  lemma CreatedHasUid(t: Tables, op: Op)
    requires Numbered(t) && op.CreateJobIfNotExists?
    ensures var (t', r) := Apply(t, op); r.Ok? && r.value in t'.jobs && t'.jobs[r.value].uid == op.uid
  {
    hide WorkOf;
  }

  lemma ExistingReturned(t: Tables, id: nat, p: CreateParams, uid: string, now: int)
    requires UniqueUids(t.jobs) && id in t.jobs && t.jobs[id].uid == uid
    ensures Apply(t, CreateJobIfNotExists(p, uid, now)) == (t, Ok(id))
  {
    assert UidTaken(t.jobs, uid);
  }

  // ---------- lineage ----------

  /** A dead-letter entry repeats its original job, which is still in the table. */
  ghost predicate Repeats(d: DeadRow, jobs: map<nat, Job>) {
    && d.originalJob in jobs
    && var o := jobs[d.originalJob]; var w := Serialized(o.work);
       d.uid == o.uid && d.queueName == w.queueName && d.jobType == w.jobType && d.clientId == w.clientId
       && d.projectId == w.projectId && d.payload == w.payload
  }

  ghost predicate AllRepeat(t: Tables) {
    forall d :: d in t.dead ==> Repeats(t.dead[d], t.jobs)
  }

  lemma RepeatsStays(d: DeadRow, t: Tables, t': Tables)
    requires Repeats(d, t.jobs) && Frozen(t, t')
    ensures Repeats(d, t'.jobs)
  {
  }

  /** An operation adds no entry but the copy `moveToDeadLetter` makes, and never rewrites what an entry repeats. */
  lemma EntriesAfter(t: Tables, op: Op, d: nat)
    requires Numbered(t) && d in Apply(t, op).0.dead
    ensures var e := Apply(t, op).0.dead[d];
            if d in t.dead
            then e == t.dead[d].(status := e.status, reprocessedAt := e.reprocessedAt,
                                 reprocessedJob := e.reprocessedJob, reviewedBy := e.reviewedBy, notes := e.notes)
            else && op.MoveToDeadLetter? && op.id in t.jobs && d == t.nextDead
                 && e == DeadRowOf(op.id, t.jobs[op.id], op.error)
  {
    hide UidTaken, WorkOf, ReprocessedWork, DeadRowOf;
  }

  lemma ApplyRepeats(t: Tables, op: Op)
    requires Numbered(t) && AllRepeat(t)
    ensures AllRepeat(Apply(t, op).0)
  {
    var t' := Apply(t, op).0;
    hide Apply;
    ApplyKeeps(t, op);
    forall d | d in t'.dead ensures Repeats(t'.dead[d], t'.jobs) {
      EntriesAfter(t, op, d);
      if d in t.dead {
        RepeatsStays(t.dead[d], t, t');
      } else {
        RepeatsStays(t'.dead[d], t, t');
      }
    }
  }

  lemma {:induction false} AlwaysRepeat(ops: seq<Op>)
    ensures AllRepeat(After(ops))
  {
    if ops != [] {
      var prev := ops[..|ops| - 1];
      AlwaysRepeat(prev);
      AlwaysNumbered(prev);
      ApplyRepeats(After(prev), ops[|ops| - 1]);
    }
  }

  /** The job an operation derives another from, when it does. */
  ghost function DerivedStep(t: Tables, op: Op): map<nat, nat> {
    match op
    case RetryJob(id, uid, now) =>
      (match Apply(t, op).1 case Ok(j) => map[j := id] case Err(_) => map[])
    case ReprocessDeadLetter(deadId, _, uid, now) =>
      (match Apply(t, op).1 case Ok(j) => map[j := t.dead[deadId].originalJob] case Err(_) => map[])
    case _ => map[]
  }

  /** Each job a run made by retrying or reprocessing, with the job it was made from. */
  ghost function Derived(ops: seq<Op>): map<nat, nat> {
    if ops == [] then map[]
    else
      var prev := ops[..|ops| - 1];
      Derived(prev) + DerivedStep(After(prev), ops[|ops| - 1])
  }

  /** `j` was made from `p`: a later id, `p` as its parent, and `p`'s work as `serializeJob` reads it. */
  ghost predicate ChildOf(jobs: map<nat, Job>, j: nat, p: nat) {
    p in jobs && j in jobs && p < j && jobs[j].parent == Some(p) && jobs[j].work == Serialized(jobs[p].work)
  }

  lemma DerivedStepChild(t: Tables, op: Op, j: nat)
    requires Numbered(t) && AllRepeat(t) && j in DerivedStep(t, op)
    ensures j == t.nextJob && ChildOf(Apply(t, op).0.jobs, j, DerivedStep(t, op)[j])
  {
    if op.ReprocessDeadLetter? {
      assert Repeats(t.dead[op.deadId], t.jobs);
    }
  }

  lemma {:induction false} DerivedAreChildren(ops: seq<Op>)
    ensures forall j :: j in Derived(ops) ==> ChildOf(After(ops).jobs, j, Derived(ops)[j])
  {
    if ops != [] {
      var prev, op := ops[..|ops| - 1], ops[|ops| - 1];
      var t := After(prev);
      DerivedAreChildren(prev);
      AlwaysNumbered(prev);
      AlwaysRepeat(prev);
      ApplyKeeps(t, op);
      forall j | j in Derived(ops) ensures ChildOf(After(ops).jobs, j, Derived(ops)[j]) {
        if j in DerivedStep(t, op) {
          DerivedStepChild(t, op, j);
        } else {
          assert ChildOf(t.jobs, j, Derived(prev)[j]);
        }
      }
    }
  }

  ghost predicate Descends(derived: map<nat, nat>) {
    forall j :: j in derived ==> derived[j] < j
  }

  /** Walk up the derivations; ids fall, so the walk ends. */
  ghost function Root(derived: map<nat, nat>, j: nat): (r: nat)
    requires Descends(derived)
    ensures r !in derived && r <= j && (j in derived ==> r < j)
  {
    if j in derived then Root(derived, derived[j]) else j
  }

  lemma {:induction false} WorkOfRoot(jobs: map<nat, Job>, derived: map<nat, nat>, j: nat)
    requires forall i :: i in derived ==> ChildOf(jobs, i, derived[i])
    requires j in derived && Descends(derived)
    ensures Root(derived, j) in jobs && j in jobs && jobs[j].work == Serialized(jobs[Root(derived, j)].work)
  {
    assert ChildOf(jobs, j, derived[j]);
    if derived[j] in derived {
      WorkOfRoot(jobs, derived, derived[j]);
    }
  }

  /**
   Lineage: in every run, a job made by retrying or reprocessing has a larger id than its parent, so
   the walk to its root ends, and it carries the root's whole work as the root is read: unchanged
   exactly when the root has no client or project id of zero.
   */
  lemma LineageConserved(ops: seq<Op>, j: nat)
    requires j in Derived(ops)
    ensures var (t, d) := (After(ops), Derived(ops));
            && Descends(d) && ChildOf(t.jobs, j, d[j])
            && var root := Root(d, j);
            && root in t.jobs && root < j && root !in d
            && t.jobs[j].work == Serialized(t.jobs[root].work)
            && (t.jobs[j].work == t.jobs[root].work <==>
                t.jobs[root].work.clientId != Some(0) && t.jobs[root].work.projectId != Some(0))
  {
    DerivedAreChildren(ops);
    WorkOfRoot(After(ops).jobs, Derived(ops), j);
  }

  /** An id of zero is lost: retrying a job of client 0 makes a job without a client. */
  lemma ZeroIdLost(p: CreateParams, first: string, second: string)
    requires p.clientId == Some(0) && first != second
    ensures var ops := [CreateJob(p, first, 0), RetryJob(1, second, 1)];
            var jobs := After(ops).jobs;
            && Derived(ops) == map[2 := 1] && 1 in jobs && 2 in jobs
            && jobs[1].work.clientId == Some(0) && jobs[2].work.clientId == None
  {
    var ops := [CreateJob(p, first, 0), RetryJob(1, second, 1)];
    assert ops[..1] == [ops[0]] && ops[..1][..0] == [];
    AfterNext(ops, 0);
    AfterNext(ops, 1);
    assert ops[..2] == ops;
    assert Derived(ops[..1]) == map[];
    assert DerivedStep(After(ops[..1]), ops[1]) == map[2 := 1];
  }

  // ---------- the states of a run ----------

  /** The tables after the first `k` operations. */
  ghost function State(ops: seq<Op>, k: nat): Tables
    requires k <= |ops|
  {
    After(ops[..k])
  }

  lemma StateNext(ops: seq<Op>, k: nat)
    requires k < |ops|
    ensures State(ops, k + 1) == Apply(State(ops, k), ops[k]).0
    ensures Numbered(State(ops, k)) && AllRepeat(State(ops, k))
  {
    AfterNext(ops, k);
    AlwaysNumbered(ops[..k]);
    AlwaysRepeat(ops[..k]);
  }

  // ---------- the life of a dead-letter entry ----------

  lemma ReviewedStays(t: Tables, op: Op, d: nat)
    requires Numbered(t) && d in t.dead && !t.dead[d].status.PendingReview?
    ensures var t' := Apply(t, op).0; d in t'.dead && t'.dead[d] == t.dead[d]
  {
  }

  /** Once an entry has left `pending_review` it never changes again. */
  lemma {:induction false} ReviewedForever(ops: seq<Op>, k: nat, d: nat)
    requires k <= |ops| && d in After(ops[..k]).dead && !After(ops[..k]).dead[d].status.PendingReview?
    ensures d in After(ops).dead && After(ops).dead[d] == After(ops[..k]).dead[d]
  {
    if k == |ops| {
      assert ops[..k] == ops;
    } else {
      var n := |ops| - 1;
      assert ops[..n][..k] == ops[..k];
      ReviewedForever(ops[..n], k, d);
      AlwaysNumbered(ops[..n]);
      ReviewedStays(After(ops[..n]), ops[n], d);
    }
  }

  /** An admin's decision about an entry. */
  predicate Reviews(op: Op, d: nat) {
    (op.DiscardDeadLetter? && op.deadId == d) || (op.ReprocessDeadLetter? && op.deadId == d)
  }

  /** What a decision that answered `answer` leaves in its entry. */
  predicate Decided(op: Op, answer: nat, e: DeadRow) {
    match op
    case DiscardDeadLetter(_, adminId, notes) =>
      e.status == Discarded && e.reviewedBy == Some(adminId) && e.notes == notes
    case ReprocessDeadLetter(_, adminId, _, now) =>
      && e.status == Reprocessed && e.reviewedBy == Some(adminId)
      && e.reprocessedAt == Some(now) && e.reprocessedJob == Some(answer)
    case _ => false
  }

  lemma DecisionTaken(t: Tables, op: Op, d: nat)
    requires Reviews(op, d) && Apply(t, op).1.Ok?
    ensures var (t', r) := Apply(t, op);
            d in t'.dead && Decided(op, r.value, t'.dead[d]) && !t'.dead[d].status.PendingReview?
  {
  }

  lemma NoSecondDecision(t: Tables, op: Op, d: nat)
    requires Reviews(op, d) && d in t.dead && !t.dead[d].status.PendingReview?
    ensures Apply(t, op).1.Err?
  {
  }

  /**
   A decision that once succeeded stands at any later point of the run: the entry is still discarded, or
   reprocessed into the same job, and no second decision about it succeeds.
   */
  lemma DecidedForever(ops: seq<Op>, k: nat, m: nat, d: nat)
    requires k < m <= |ops| && Reviews(ops[k], d) && Apply(State(ops, k), ops[k]).1.Ok?
    ensures d in State(ops, m).dead
    ensures Decided(ops[k], Apply(State(ops, k), ops[k]).1.value, State(ops, m).dead[d])
    ensures m < |ops| && Reviews(ops[m], d) ==> Apply(State(ops, m), ops[m]).1.Err?
  {
    DecisionTaken(State(ops, k), ops[k], d);
    StateNext(ops, k);
    hide Apply;
    assert ops[..m][..k + 1] == ops[..k + 1];
    ReviewedForever(ops[..m], k + 1, d);
    if m < |ops| && Reviews(ops[m], d) {
      NoSecondDecision(State(ops, m), ops[m], d);
    }
  }

  /** Two decisions about one entry. */
  predicate SameEntry(a: Op, b: Op) {
    && (a.DiscardDeadLetter? || a.ReprocessDeadLetter?) && (b.DiscardDeadLetter? || b.ReprocessDeadLetter?)
    && a.deadId == b.deadId
  }

  /** Every decision that was answered Ok stands in the rows, and every later one about the same entry failed. */
  ghost predicate DecisionsStand(ops: seq<Op>, answers: seq<Result<nat>>, dead: map<nat, DeadRow>)
    requires |answers| == |ops|
  {
    && (forall k :: 0 <= k < |ops| && answers[k].Ok? && ops[k].DiscardDeadLetter? ==>
          var d := ops[k].deadId;
          && d in dead && dead[d].status == Discarded
          && dead[d].reviewedBy == Some(ops[k].adminId) && dead[d].notes == ops[k].notes)
    && (forall k :: 0 <= k < |ops| && answers[k].Ok? && ops[k].ReprocessDeadLetter? ==>
          var d := ops[k].deadId;
          && d in dead && dead[d].status == Reprocessed && dead[d].reprocessedJob == Some(answers[k].value)
          && dead[d].reviewedBy == Some(ops[k].adminId) && dead[d].reprocessedAt == Some(ops[k].now))
    && (forall k, m :: 0 <= k < m < |ops| && answers[k].Ok? && SameEntry(ops[k], ops[m]) ==> answers[m].Err?)
  }

  lemma DecisionsOfRun(ops: seq<Op>, answers: seq<Result<nat>>)
    requires |answers| == |ops| && forall k :: 0 <= k < |ops| ==> answers[k] == Apply(State(ops, k), ops[k]).1
    ensures DecisionsStand(ops, answers, State(ops, |ops|).dead)
  {
    hide Apply, State;
    var dead := State(ops, |ops|).dead;
    forall k | 0 <= k < |ops| && answers[k].Ok? && (ops[k].DiscardDeadLetter? || ops[k].ReprocessDeadLetter?)
      ensures ops[k].deadId in dead && Decided(ops[k], answers[k].value, dead[ops[k].deadId])
    {
      DecidedForever(ops, k, |ops|, ops[k].deadId);
    }
    forall k, m | 0 <= k < m < |ops| && answers[k].Ok? && SameEntry(ops[k], ops[m]) ensures answers[m].Err? {
      DecidedForever(ops, k, m, ops[k].deadId);
    }
  }

  /** The successful reprocessings of a run, in order: the entry and the job made from it. */
  ghost function Reprocessings(ops: seq<Op>): seq<(nat, nat)> {
    if ops == [] then []
    else
      var prev, op := ops[..|ops| - 1], ops[|ops| - 1];
      var r := Apply(After(prev), op).1;
      if op.ReprocessDeadLetter? && r.Ok? then Reprocessings(prev) + [(op.deadId, r.value)] else Reprocessings(prev)
  }

  ghost function ReprocessedEntries(t: Tables): set<nat> {
    set d | d in t.dead && t.dead[d].status.Reprocessed?
  }

  /** A reprocessed entry and its job point at each other: the job's parent is the entry's original job. */
  ghost predicate Linked(t: Tables, d: nat, j: nat) {
    && d in t.dead && t.dead[d].status.Reprocessed? && t.dead[d].reprocessedJob == Some(j)
    && j in t.jobs && t.jobs[j].parent == Some(t.dead[d].originalJob)
  }

  ghost predicate ReprocessingsOk(t: Tables, made: seq<(nat, nat)>) {
    && (forall i :: 0 <= i < |made| ==> Linked(t, made[i].0, made[i].1))
    && (forall i, j :: 0 <= i < j < |made| ==> made[i].0 != made[j].0 && made[i].1 != made[j].1)
    && (forall d :: d in ReprocessedEntries(t) ==> exists i :: 0 <= i < |made| && made[i].0 == d)
    && |made| == |ReprocessedEntries(t)|
  }

  lemma ApplyOtherwise(t: Tables, op: Op)
    requires Numbered(t)
    requires !(op.ReprocessDeadLetter? && Apply(t, op).1.Ok?)
    ensures ReprocessedEntries(Apply(t, op).0) == ReprocessedEntries(t)
  {
  }

  lemma ApplyReprocess(t: Tables, op: Op)
    requires Numbered(t) && op.ReprocessDeadLetter? && Apply(t, op).1.Ok?
    ensures var t' := Apply(t, op).0;
            && ReprocessedEntries(t') == ReprocessedEntries(t) + {op.deadId} && op.deadId !in ReprocessedEntries(t)
            && Apply(t, op).1.value == t.nextJob && Linked(t', op.deadId, t.nextJob)
  {
  }

  lemma LinkedStays(t: Tables, op: Op, d: nat, j: nat)
    requires Numbered(t) && Linked(t, d, j)
    ensures Linked(Apply(t, op).0, d, j) && j < t.nextJob
  {
    ApplyKeeps(t, op);
    ReviewedStays(t, op, d);
  }

  lemma LinkedAllStay(t: Tables, op: Op, made: seq<(nat, nat)>)
    requires Numbered(t) && ReprocessingsOk(t, made)
    ensures forall i :: 0 <= i < |made| ==> Linked(Apply(t, op).0, made[i].0, made[i].1) && made[i].1 < t.nextJob
  {
    hide Apply, Numbered, Linked;
    forall i | 0 <= i < |made| ensures Linked(Apply(t, op).0, made[i].0, made[i].1) && made[i].1 < t.nextJob {
      LinkedStays(t, op, made[i].0, made[i].1);
    }
  }

  lemma LinkedEntries(t: Tables, made: seq<(nat, nat)>)
    requires ReprocessingsOk(t, made)
    ensures forall i :: 0 <= i < |made| ==> made[i].0 in ReprocessedEntries(t)
  {
    forall i | 0 <= i < |made| ensures made[i].0 in ReprocessedEntries(t) {
      assert Linked(t, made[i].0, made[i].1);
    }
  }

  /** One more successful reprocessing. */
  lemma OneMoreReprocessed(t: Tables, op: Op, made: seq<(nat, nat)>)
    requires Numbered(t) && ReprocessingsOk(t, made) && op.ReprocessDeadLetter? && Apply(t, op).1.Ok?
    ensures ReprocessingsOk(Apply(t, op).0, made + [(op.deadId, Apply(t, op).1.value)])
  {
    hide Apply, Linked, ReprocessedEntries, Numbered;
    LinkedAllStay(t, op, made);
    ApplyReprocess(t, op);
    LinkedEntries(t, made);
    var made' := made + [(op.deadId, t.nextJob)];
    forall d | d in ReprocessedEntries(Apply(t, op).0) ensures exists i :: 0 <= i < |made'| && made'[i].0 == d {
      if d in ReprocessedEntries(t) {
        var i :| 0 <= i < |made| && made[i].0 == d;
        assert made'[i].0 == d;
      } else {
        assert made'[|made|].0 == d;
      }
    }
  }

  lemma NoneReprocessed(t: Tables, op: Op, made: seq<(nat, nat)>)
    requires Numbered(t) && ReprocessingsOk(t, made) && !(op.ReprocessDeadLetter? && Apply(t, op).1.Ok?)
    ensures ReprocessingsOk(Apply(t, op).0, made)
  {
    LinkedAllStay(t, op, made);
    ApplyOtherwise(t, op);
    hide Apply, Linked, ReprocessedEntries;
  }

  /**
   In every run the reprocessed entries are exactly the entries of the successful reprocessings, one
   each; distinct entries point to distinct new jobs, whose parent is the entry's original job; so
   there are as many reprocessed entries as jobs made by reprocessing.
   */
  lemma {:induction false} ReprocessedOnce(ops: seq<Op>)
    ensures ReprocessingsOk(After(ops), Reprocessings(ops))
  {
    if ops != [] {
      hide Apply, ReprocessingsOk, Numbered;
      var prev, op := ops[..|ops| - 1], ops[|ops| - 1];
      ReprocessedOnce(prev);
      AlwaysNumbered(prev);
      if op.ReprocessDeadLetter? && Apply(After(prev), op).1.Ok? {
        OneMoreReprocessed(After(prev), op, Reprocessings(prev));
      } else {
        NoneReprocessed(After(prev), op, Reprocessings(prev));
      }
    }
  }

  // ---------- the job table ----------

  /** A job's status has its timestamp. */
  ghost predicate Stamped(job: Job) {
    && (job.status.Processing? ==> job.startedAt.Some?)
    && (job.status.Completed? ==> job.completedAt.Some?)
    && (job.status.Failed? ==> job.failedAt.Some?)
  }

  ghost predicate AllStamped(jobs: map<nat, Job>) {
    forall id :: id in jobs ==> Stamped(jobs[id])
  }

  lemma ApplyStamped(t: Tables, op: Op)
    requires AllStamped(t.jobs)
    ensures AllStamped(Apply(t, op).0.jobs)
  {
    hide UidTaken, WorkOf, ReprocessedWork, DeadRowOf, ParamsOf;
  }

  /** Whatever callers do, a processing, completed or failed job has that status's timestamp. */
  lemma {:induction false} AlwaysStamped(ops: seq<Op>)
    ensures AllStamped(After(ops).jobs)
  {
    if ops != [] {
      AlwaysStamped(ops[..|ops| - 1]);
      ApplyStamped(After(ops[..|ops| - 1]), ops[|ops| - 1]);
    }
  }

  /** Some dead-letter entry was made from this job, with its uid and payload. */
  ghost predicate HasEntry(t: Tables, id: nat) {
    exists d :: d in t.dead && t.dead[d].originalJob == id && id in t.jobs
                && t.dead[d].uid == t.jobs[id].uid && t.dead[d].payload == t.jobs[id].work.payload
  }

  /** Every dead-letter job has its entry. */
  ghost predicate Covered(t: Tables) {
    forall id :: id in t.jobs && t.jobs[id].status.DeadLetter? ==> HasEntry(t, id)
  }

  /** A caller puts an existing job in the status without `moveToDeadLetter`. */
  predicate SetsDirectly(t: Tables, op: Op) {
    op.UpdateJobStatus? && op.status.DeadLetter? && op.id in t.jobs
  }

  predicate Moves(t: Tables, op: Op, id: nat) {
    op.MoveToDeadLetter? && op.id == id && id in t.jobs
  }

  lemma EntryStays(t: Tables, op: Op, id: nat)
    requires Numbered(t) && HasEntry(t, id)
    ensures HasEntry(Apply(t, op).0, id)
  {
    hide Apply;
    ApplyKeeps(t, op);
    var t' := Apply(t, op).0;
    var d :| d in t.dead && t.dead[d].originalJob == id && id in t.jobs
             && t.dead[d].uid == t.jobs[id].uid && t.dead[d].payload == t.jobs[id].work.payload;
    EntriesAfter(t, op, d);
    assert d in t'.dead;
  }

  lemma NewEntry(t: Tables, op: Op, id: nat)
    requires Numbered(t) && Moves(t, op, id)
    ensures HasEntry(Apply(t, op).0, id)
  {
    var t' := Apply(t, op).0;
    assert t.nextDead in t'.dead && t'.dead[t.nextDead] == DeadRowOf(op.id, t.jobs[op.id], op.error);
  }

  /** A job gets its entry by being moved, and in no other way. */
  lemma EntryAfter(t: Tables, op: Op, id: nat)
    requires Numbered(t) && AllRepeat(t)
    ensures HasEntry(Apply(t, op).0, id) <==> HasEntry(t, id) || Moves(t, op, id)
  {
    hide Apply, HasEntry;
    if HasEntry(t, id) {
      EntryStays(t, op, id);
    } else if Moves(t, op, id) {
      NewEntry(t, op, id);
    } else if HasEntry(Apply(t, op).0, id) {
      OldEntry(t, op, id);
    }
  }

  lemma OldEntry(t: Tables, op: Op, id: nat)
    requires Numbered(t) && AllRepeat(t) && HasEntry(Apply(t, op).0, id) && !Moves(t, op, id)
    ensures HasEntry(t, id)
  {
    hide Apply;
    var t' := Apply(t, op).0;
    var d :| d in t'.dead && t'.dead[d].originalJob == id && id in t'.jobs
             && t'.dead[d].uid == t'.jobs[id].uid && t'.dead[d].payload == t'.jobs[id].work.payload;
    EntriesAfter(t, op, d);
    assert Repeats(t.dead[d], t.jobs);
  }

  /** No other operation puts a job in the status. */
  lemma EntersDeadLetter(t: Tables, op: Op, id: nat)
    requires id in Apply(t, op).0.jobs && Apply(t, op).0.jobs[id].status.DeadLetter?
    ensures (SetsDirectly(t, op) && op.id == id) || Moves(t, op, id) || (id in t.jobs && t.jobs[id].status.DeadLetter?)
  {
    hide UidTaken, WorkOf, ReprocessedWork, DeadRowOf, ParamsOf;
  }

  lemma DirectlySet(t: Tables, op: Op)
    requires SetsDirectly(t, op)
    ensures op.id in Apply(t, op).0.jobs && Apply(t, op).0.jobs[op.id].status.DeadLetter?
  {
  }

  /** One operation leaves the dead-letter jobs covered unless it sets the status of a job that has no entry. */
  lemma ApplyCovered(t: Tables, op: Op)
    requires Numbered(t) && AllRepeat(t) && Covered(t)
    ensures Covered(Apply(t, op).0) <==> (SetsDirectly(t, op) ==> HasEntry(t, op.id))
  {
    hide Apply, HasEntry, Numbered, AllRepeat;
    var t' := Apply(t, op).0;
    if SetsDirectly(t, op) {
      DirectlySet(t, op);
      EntryAfter(t, op, op.id);
    }
    if SetsDirectly(t, op) ==> HasEntry(t, op.id) {
      forall id | id in t'.jobs && t'.jobs[id].status.DeadLetter? ensures HasEntry(t', id) {
        EntersDeadLetter(t, op, id);
        EntryAfter(t, op, id);
      }
    }
  }

  /** Some operation before the `k`-th moved the job to the dead letters. */
  ghost predicate MovedBefore(ops: seq<Op>, k: nat, id: nat)
    requires k <= |ops|
  {
    exists m :: 0 <= m < k && Moves(State(ops, m), ops[m], id)
  }

  lemma {:induction false} EntryIffMoved(ops: seq<Op>, k: nat, id: nat)
    requires k <= |ops|
    ensures HasEntry(State(ops, k), id) <==> MovedBefore(ops, k, id)
  {
    hide *;
    if k == 0 {
      NothingYet(ops, id);
    } else {
      EntryIffMoved(ops, k - 1, id);
      StateNext(ops, k - 1);
      EntryAfter(State(ops, k - 1), ops[k - 1], id);
      MovedBeforeNext(ops, k - 1, id);
    }
  }

  lemma NothingYet(ops: seq<Op>, id: nat)
    ensures State(ops, 0) == NO_ROWS && !HasEntry(NO_ROWS, id) && Covered(NO_ROWS)
    ensures !MovedBefore(ops, 0, id)
  {
    assert ops[..0] == [];
  }

  lemma MovedBeforeNext(ops: seq<Op>, k: nat, id: nat)
    requires k < |ops|
    ensures MovedBefore(ops, k + 1, id) <==> MovedBefore(ops, k, id) || Moves(State(ops, k), ops[k], id)
  {
    hide State, Moves;
  }

  /** The `k`-th operation sets the status directly only for a job that was moved before. */
  ghost predicate SetsOnlyMoved(ops: seq<Op>, k: nat)
    requires k < |ops|
  {
    SetsDirectly(State(ops, k), ops[k]) ==> MovedBefore(ops, k, ops[k].id)
  }

  ghost predicate CoveredUpTo(ops: seq<Op>, n: nat)
    requires n <= |ops|
  {
    forall k :: 0 <= k <= n ==> Covered(State(ops, k))
  }

  ghost predicate SetsOnlyMovedUpTo(ops: seq<Op>, n: nat)
    requires n <= |ops|
  {
    forall k :: 0 <= k < n ==> SetsOnlyMoved(ops, k)
  }

  lemma CoveredUpToNext(ops: seq<Op>, n: nat)
    requires n < |ops|
    ensures CoveredUpTo(ops, n + 1) <==> CoveredUpTo(ops, n) && Covered(State(ops, n + 1))
    ensures SetsOnlyMovedUpTo(ops, n + 1) <==> SetsOnlyMovedUpTo(ops, n) && SetsOnlyMoved(ops, n)
    ensures CoveredUpTo(ops, n) ==> Covered(State(ops, n))
  {
    hide State, Covered, SetsOnlyMoved;
  }

  lemma {:induction false} DeadJobsUpTo(ops: seq<Op>, n: nat)
    requires n <= |ops|
    ensures CoveredUpTo(ops, n) <==> SetsOnlyMovedUpTo(ops, n)
  {
    hide State, Covered, MovedBefore, HasEntry, Apply, Numbered, AllRepeat;
    if n == 0 {
      NothingYet(ops, 0);
    } else {
      DeadJobsUpTo(ops, n - 1);
      CoveredUpToNext(ops, n - 1);
      if Covered(State(ops, n - 1)) {
        StateNext(ops, n - 1);
        ApplyCovered(State(ops, n - 1), ops[n - 1]);
        if SetsDirectly(State(ops, n - 1), ops[n - 1]) {
          EntryIffMoved(ops, n - 1, ops[n - 1].id);
        }
      }
    }
  }

  /**
   Throughout a run every dead-letter job has an entry with its uid and payload exactly when the
   status is set directly only for jobs that `moveToDeadLetter` has moved before.
   */
  lemma DeadJobsHaveEntries(ops: seq<Op>)
    ensures (forall k :: 0 <= k <= |ops| ==> Covered(State(ops, k)))
            <==> (forall k :: 0 <= k < |ops| ==> SetsOnlyMoved(ops, k))
  {
    hide State, Covered, SetsOnlyMoved;
    DeadJobsUpTo(ops, |ops|);
  }

  /** Nothing stops a caller from setting the status of a job that was never moved; then there is no entry. */
  lemma DirectDeadLetter(p: CreateParams)
    ensures var t := After([CreateJob(p, "u", 0), UpdateJobStatus(1, DeadLetter, None, 1)]);
            1 in t.jobs && t.jobs[1].status.DeadLetter? && !HasEntry(t, 1)
  {
    var ops := [CreateJob(p, "u", 0), UpdateJobStatus(1, DeadLetter, None, 1)];
    AfterNext(ops, 0);
    AfterNext(ops, 1);
    assert ops[..2] == ops;
  }

  // ---------- attempts ----------

  function RowsOf(attempts: seq<AttemptRow>, id: nat): nat {
    if attempts == [] then 0
    else RowsOf(attempts[..|attempts| - 1], id) + (if attempts[|attempts| - 1].jobId == id then 1 else 0)
  }

  /** `attempt_count` of every job is its number of attempt rows. */
  ghost predicate CountsMatch(t: Tables) {
    forall id :: id in t.jobs ==> t.jobs[id].attemptCount == RowsOf(t.attempts, id)
  }

  ghost predicate AttemptsKnown(t: Tables) {
    forall i :: 0 <= i < |t.attempts| ==> t.attempts[i].jobId in t.jobs
  }

  lemma RowsOfUnknown(attempts: seq<AttemptRow>, id: nat)
    requires forall i :: 0 <= i < |attempts| ==> attempts[i].jobId != id
    ensures RowsOf(attempts, id) == 0
  {
  }

  /** An operation adds no attempt row but the one `recordAttempt` inserts. */
  lemma AttemptsAfter(t: Tables, op: Op)
    ensures Apply(t, op).0.attempts ==
            t.attempts + if op.RecordAttempt? && op.id in t.jobs then [AttemptRow(op.id, op.attempt)] else []
  {
    hide UidTaken, WorkOf, ReprocessedWork, DeadRowOf, ParamsOf;
  }

  lemma ApplyKnown(t: Tables, op: Op)
    requires Numbered(t) && AttemptsKnown(t)
    ensures AttemptsKnown(Apply(t, op).0)
  {
    hide Apply;
    ApplyKeeps(t, op);
    AttemptsAfter(t, op);
  }

  lemma {:induction false} AlwaysKnown(ops: seq<Op>)
    ensures AttemptsKnown(After(ops))
  {
    if ops != [] {
      hide Apply, Numbered, AttemptsKnown;
      AlwaysKnown(ops[..|ops| - 1]);
      AlwaysNumbered(ops[..|ops| - 1]);
      ApplyKnown(After(ops[..|ops| - 1]), ops[|ops| - 1]);
    }
  }

  lemma StateKnown(ops: seq<Op>, k: nat)
    requires k <= |ops|
    ensures AttemptsKnown(State(ops, k))
  {
    AlwaysKnown(ops[..k]);
  }

  /** The operation records an existing job's attempt under the next number. */
  ghost predicate NextNumber(t: Tables, op: Op) {
    op.RecordAttempt? && op.id in t.jobs ==> op.attempt.number == RowsOf(t.attempts, op.id) + 1
  }

  lemma ApplyCounts(t: Tables, op: Op)
    requires Numbered(t) && AttemptsKnown(t) && CountsMatch(t)
    ensures CountsMatch(Apply(t, op).0) <==> NextNumber(t, op)
  {
    hide UidTaken, WorkOf, ReprocessedWork, DeadRowOf, ParamsOf;
    AttemptsAfter(t, op);
    if op.RecordAttempt? && op.id in t.jobs {
      RecordCounts(t, op.id, op.attempt, op.now);
    } else {
      RowsOfNew(t);
    }
  }

  lemma RecordCounts(t: Tables, id: nat, attempt: Attempt, now: int)
    requires id in t.jobs && CountsMatch(t)
    ensures CountsMatch(Record(t, id, attempt, now).0) <==> attempt.number == RowsOf(t.attempts, id) + 1
  {
    var t' := Record(t, id, attempt, now).0;
    assert (t.attempts + [AttemptRow(id, attempt)])[..|t.attempts|] == t.attempts;
    assert t'.jobs[id].attemptCount == attempt.number;
    assert RowsOf(t'.attempts, id) == RowsOf(t.attempts, id) + 1;
  }

  lemma RowsOfNew(t: Tables)
    requires Numbered(t) && AttemptsKnown(t)
    ensures RowsOf(t.attempts, t.nextJob) == 0
  {
    RowsOfUnknown(t.attempts, t.nextJob);
  }

  /** The first `n` operations leave every count right at each step. */
  ghost predicate MatchUpTo(ops: seq<Op>, n: nat)
    requires n <= |ops|
  {
    forall k :: 0 <= k <= n ==> CountsMatch(State(ops, k))
  }

  ghost predicate NumberedUpTo(ops: seq<Op>, n: nat)
    requires n <= |ops|
  {
    forall k :: 0 <= k < n ==> NextNumber(State(ops, k), ops[k])
  }

  lemma UpToNext(ops: seq<Op>, n: nat)
    requires n < |ops|
    ensures MatchUpTo(ops, n + 1) <==> MatchUpTo(ops, n) && CountsMatch(State(ops, n + 1))
    ensures NumberedUpTo(ops, n + 1) <==> NumberedUpTo(ops, n) && NextNumber(State(ops, n), ops[n])
    ensures MatchUpTo(ops, n) ==> CountsMatch(State(ops, n))
  {
    hide State, CountsMatch, NextNumber;
  }

  lemma NoCounts(ops: seq<Op>)
    ensures MatchUpTo(ops, 0) && NumberedUpTo(ops, 0)
  {
    hide Apply;
    assert State(ops, 0) == NO_ROWS;
  }

  lemma {:induction false} CountsUpTo(ops: seq<Op>, n: nat)
    requires n <= |ops|
    ensures MatchUpTo(ops, n) <==> NumberedUpTo(ops, n)
  {
    hide *;
    if n == 0 {
      NoCounts(ops);
    } else {
      CountsUpTo(ops, n - 1);
      UpToNext(ops, n - 1);
      if CountsMatch(State(ops, n - 1)) {
        StateNext(ops, n - 1);
        StateKnown(ops, n - 1);
        ApplyCounts(State(ops, n - 1), ops[n - 1]);
      }
    }
  }

  /**
   Throughout a run `attempt_count` is the number of attempt rows of every job exactly when every
   recorded attempt carries the next number, counting from one.
   */
  lemma AttemptCounts(ops: seq<Op>)
    ensures (forall k :: 0 <= k <= |ops| ==> CountsMatch(State(ops, k)))
            <==> (forall k :: 0 <= k < |ops| ==> NextNumber(State(ops, k), ops[k]))
  {
    hide State, CountsMatch, NextNumber;
    CountsUpTo(ops, |ops|);
  }
}
