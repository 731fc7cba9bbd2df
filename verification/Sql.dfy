/** The statements of src/store.rs: each updates the job rows that pass its WHERE clause.

    `Where` looks at the row alone, `Joins` at the other tables, `Set` gives the new row. A row is a
    `Job` of the lease machine; `job_dependencies` is kept per graph. */
module Sql {
  import opened Prelude
  import opened Collections
  import opened Domain
  import opened Graphs
  import opened Backoff
  import opened LeaseMachine

  datatype DagState = RunningDag | CancelledDag

  type Dags = map<string, DagState>

  type Dependencies = map<string, Edges>

  /** Server time in milliseconds; the server's range ends long before 64 bits do. */
  type Instant = x: int | I64_MIN <= x <= I64_MAX - 60_000

  const MAX_LEASE_MS := 60_000

  type LeaseMs = x: int | 1 <= x <= MAX_LEASE_MS witness 1

  datatype Statement =
    | ReapRows
    | ClaimRow(owner: string, token: string, leaseMs: LeaseMs)
    | HeartbeatRow(ref: JobRef, owner: string, token: string, leaseMs: LeaseMs)
    | CompleteRow(ref: JobRef, owner: string, token: string, result: string)
    | ReleaseRows(parent: JobRef)
    | FailRow(ref: JobRef, owner: string, token: string)
    | CancelRows(dag: string)

  predicate Where(st: Statement, now: Instant, r: JobRef, job: Job) {
    match st
    case ReapRows => Expired(job, now)
    case ClaimRow(_, _, _) => Waiting(job) && job.availableAtMs <= now
    case HeartbeatRow(ref, owner, token, _) => r == ref && Holds(job, owner, token, now)
    case CompleteRow(ref, owner, token, _) => r == ref && Holds(job, owner, token, now)
    case ReleaseRows(parent) => r.dag == parent.dag && job.state == Pending
    case FailRow(ref, owner, token) => r == ref && Holds(job, owner, token, now)
    case CancelRows(dag) => r.dag == dag && !Terminal(job)
  }

  /** `NOT EXISTS (... JOIN jobs parent ... AND parent.state <> 'succeeded')`. */
  predicate NoUnfinishedParent(deps: Dependencies, jobs: Jobs, r: JobRef) {
    r.dag in deps ==>
      forall e :: e in deps[r.dag] && e.to == r.job && JobRef(r.dag, e.from) in jobs ==>
        jobs[JobRef(r.dag, e.from)].state == Succeeded
  }

  predicate Joins(st: Statement, dags: Dags, deps: Dependencies, jobs: Jobs, r: JobRef) {
    match st
    case ClaimRow(_, _, _) => r.dag in dags && dags[r.dag] == RunningDag && NoUnfinishedParent(deps, jobs, r)
    case ReleaseRows(parent) =>
      r.dag in deps && Dependency(parent.job, r.job) in deps[r.dag] && NoUnfinishedParent(deps, jobs, r)
    case _ => true
  }

  /** Back to waiting without jitter, or dead once the attempt budget is spent. */
  function SqlRetried(job: Job, now: Instant): Job {
    if job.attempts >= job.spec.maxAttempts then job.(state := DeadLettered, lease := None)
    else job.(state := RetryWait, lease := None, availableAtMs := now + SqlBackoff(job.attempts))
  }

  function Set(st: Statement, now: Instant, job: Job): Job {
    match st
    case ReapRows => SqlRetried(job, now)
    case ClaimRow(owner, token, leaseMs) => LeasedTo(job, owner, token, now + leaseMs)
    case HeartbeatRow(_, owner, token, leaseMs) => job.(lease := Some(Lease(owner, token, now + leaseMs)))
    case CompleteRow(_, _, _, result) => job.(state := Succeeded, lease := None, result := Some(result))
    case ReleaseRows(_) => job.(state := Ready, availableAtMs := now)
    case FailRow(_, _, _) => SqlRetried(job, now)
    case CancelRows(_) => job.(state := Cancelled, lease := None)
  }

  /** The rows a statement qualifies, all tables read at once. */
  function Rows(st: Statement, now: Instant, dags: Dags, deps: Dependencies, jobs: Jobs): set<JobRef> {
    set r | r in jobs && Where(st, now, r, jobs[r]) && Joins(st, dags, deps, jobs, r)
  }

  function UpdateRows(st: Statement, now: Instant, jobs: Jobs, rows: set<JobRef>): Jobs {
    map r | r in jobs :: if r in rows then Set(st, now, jobs[r]) else jobs[r]
  }

  // ----- The claim order -----

  /** `ORDER BY j.priority DESC, j.available_at, j.dag_id, j.id`. */
  datatype QueueKey = QueueKey(priority: I16, availableAtMs: I64, dagId: string, jobId: string)

  function QueueKeyOf(r: JobRef, job: Job): QueueKey {
    QueueKey(job.spec.priority, job.availableAtMs, r.dag, r.job)
  }

  predicate QueueLe(a: QueueKey, b: QueueKey) {
    if a.priority != b.priority then a.priority > b.priority
    else if a.availableAtMs != b.availableAtMs then a.availableAtMs < b.availableAtMs
    else if a.dagId != b.dagId then StrLe(a.dagId, b.dagId)
    else StrLe(a.jobId, b.jobId)
  }

  lemma QueueOrder()
    ensures TotalOrder(QueueLe)
  {
    forall x: QueueKey, y: QueueKey ensures QueueLe(x, y) || QueueLe(y, x) {
      StrLeTotal(x.dagId, y.dagId);
      StrLeTotal(x.jobId, y.jobId);
    }
    forall x: QueueKey, y: QueueKey | QueueLe(x, y) && QueueLe(y, x) ensures x == y {
      QueueLeAntisymmetric(x, y);
    }
    forall x: QueueKey, y: QueueKey, z: QueueKey | QueueLe(x, y) && QueueLe(y, z) ensures QueueLe(x, z) {
      QueueLeTransitive(x, y, z);
    }
  }

  lemma QueueLeAntisymmetric(x: QueueKey, y: QueueKey)
    requires QueueLe(x, y) && QueueLe(y, x)
    ensures x == y
  {
    if StrLe(x.dagId, y.dagId) && StrLe(y.dagId, x.dagId) { StrLeAntisymmetric(x.dagId, y.dagId); }
    if StrLe(x.jobId, y.jobId) && StrLe(y.jobId, x.jobId) { StrLeAntisymmetric(x.jobId, y.jobId); }
  }

  lemma QueueLeTransitive(x: QueueKey, y: QueueKey, z: QueueKey)
    requires QueueLe(x, y) && QueueLe(y, z)
    ensures QueueLe(x, z)
  {
    if x.priority == y.priority == z.priority && x.availableAtMs == y.availableAtMs == z.availableAtMs {
      if StrLe(x.dagId, y.dagId) && StrLe(y.dagId, z.dagId) { StrLeTransitive(x.dagId, y.dagId, z.dagId); }
      if StrLe(x.jobId, y.jobId) && StrLe(y.jobId, z.jobId) { StrLeTransitive(x.jobId, y.jobId, z.jobId); }
      if x.dagId == z.dagId && x.dagId != y.dagId { StrLeAntisymmetric(x.dagId, y.dagId); }
    }
  }

  ghost function FirstInQueue(keys: set<QueueKey>): (first: QueueKey)
    requires keys != {}
    ensures first in keys && forall k :: k in keys ==> QueueLe(first, k)
  {
    QueueOrder();
    Least(QueueLe, keys)
  }

  lemma FirstInQueueUnique(keys: set<QueueKey>, k: QueueKey)
    requires k in keys && forall other :: other in keys ==> QueueLe(k, other)
    ensures FirstInQueue(keys) == k
  {
    QueueLeAntisymmetric(k, FirstInQueue(keys));
  }
}
