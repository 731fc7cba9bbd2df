/** The lease machine: what the scheduler does, without its heap and without its counters.

    Jobs live in one flat map. Claiming takes the least key among the eligible jobs; completing releases
    the pending children all of whose parents have succeeded. `stale` keeps the keys that cancelled jobs
    left in the ready index and that no claim has discarded yet: admission counts them, nothing else does.
    Every operation is a function from the old system to the new one and the reply. */
module LeaseMachine {
  import opened Prelude
  import opened Collections
  import opened Domain
  import opened Graphs
  import opened Multigraphs
  import opened Backoff
  import V = Validation

  datatype JobRef = JobRef(dag: string, job: string)

  datatype Lease = Lease(owner: string, token: string, expiresAtMs: I64)

  datatype Job = Job(
    spec: JobSpec,
    state: JobState,
    attempts: U16,
    availableAtMs: I64,
    lease: Option<Lease>,
    result: Option<string>)

  type Jobs = map<JobRef, Job>

  datatype ReadyKey = ReadyKey(availableAtMs: I64, priorityRank: I16, dagId: string, jobId: string)

  datatype System = System(dags: map<string, Edges>, jobs: Jobs, stale: set<ReadyKey>, sequence: U64)

  datatype ClaimedJob = ClaimedJob(
    dagId: string,
    jobId: string,
    kind: JobKind,
    payload: string,
    attempt: U16,
    leaseToken: string,
    leaseExpiresAtMs: I64)

  datatype SchedulerError =
    | ValidationFailed(error: ValidationError)
    | DagAlreadyExists
    | DagNotFound
    | JobNotFound
    | Overloaded
    | InvalidLease
    | LeaseConflict
    | ResultTooLarge

  ghost predicate IsEmpty(s: System) {
    s.dags == map[] && s.jobs == map[] && s.stale == {} && s.sequence == 0
  }

  // ----- Keys -----

  /** `100_i16.saturating_sub(priority)`. */
  function PriorityRank(priority: I16): I16 {
    Min(100 - priority, 0x7FFF)
  }

  function KeyOf(r: JobRef, job: Job): ReadyKey {
    ReadyKey(job.availableAtMs, PriorityRank(job.spec.priority), r.dag, r.job)
  }

  function RefOf(key: ReadyKey): JobRef {
    JobRef(key.dagId, key.jobId)
  }

  /** The derived order of `ReadyKey`: field by field. */
  predicate KeyLe(a: ReadyKey, b: ReadyKey) {
    if a.availableAtMs != b.availableAtMs then a.availableAtMs < b.availableAtMs
    else if a.priorityRank != b.priorityRank then a.priorityRank < b.priorityRank
    else if a.dagId != b.dagId then StrLe(a.dagId, b.dagId)
    else StrLe(a.jobId, b.jobId)
  }

  lemma KeyOrder()
    ensures TotalOrder(KeyLe)
  {
    forall x: ReadyKey, y: ReadyKey ensures KeyLe(x, y) || KeyLe(y, x) {
      StrLeTotal(x.dagId, y.dagId);
      StrLeTotal(x.jobId, y.jobId);
    }
    forall x: ReadyKey, y: ReadyKey | KeyLe(x, y) && KeyLe(y, x) ensures x == y {
      KeyLeAntisymmetric(x, y);
    }
    forall x: ReadyKey, y: ReadyKey, z: ReadyKey | KeyLe(x, y) && KeyLe(y, z) ensures KeyLe(x, z) {
      KeyLeTransitive(x, y, z);
    }
  }

  lemma KeyLeAntisymmetric(x: ReadyKey, y: ReadyKey)
    requires KeyLe(x, y) && KeyLe(y, x)
    ensures x == y
  {
    if StrLe(x.dagId, y.dagId) && StrLe(y.dagId, x.dagId) { StrLeAntisymmetric(x.dagId, y.dagId); }
    if StrLe(x.jobId, y.jobId) && StrLe(y.jobId, x.jobId) { StrLeAntisymmetric(x.jobId, y.jobId); }
  }

  lemma KeyLeTransitive(x: ReadyKey, y: ReadyKey, z: ReadyKey)
    requires KeyLe(x, y) && KeyLe(y, z)
    ensures KeyLe(x, z)
  {
    if x.availableAtMs == y.availableAtMs == z.availableAtMs && x.priorityRank == y.priorityRank == z.priorityRank {
      if StrLe(x.dagId, y.dagId) && StrLe(y.dagId, z.dagId) { StrLeTransitive(x.dagId, y.dagId, z.dagId); }
      if StrLe(x.jobId, y.jobId) && StrLe(y.jobId, z.jobId) { StrLeTransitive(x.jobId, y.jobId, z.jobId); }
      if x.dagId == z.dagId && x.dagId != y.dagId { StrLeAntisymmetric(x.dagId, y.dagId); }
    }
  }

  /** The least key of a non-empty set. */
  ghost function LeastKey(keys: set<ReadyKey>): (least: ReadyKey)
    requires keys != {}
    ensures least in keys && forall k :: k in keys ==> KeyLe(least, k)
  {
    KeyOrder();
    Least(KeyLe, keys)
  }

  lemma LeastKeyUnique(keys: set<ReadyKey>, k: ReadyKey)
    requires k in keys && forall other :: other in keys ==> KeyLe(k, other)
    ensures LeastKey(keys) == k
  {
    KeyLeAntisymmetric(k, LeastKey(keys));
  }

  // ----- Reading the job map -----

  predicate Waiting(job: Job) {
    job.state == Ready || job.state == RetryWait
  }

  predicate Terminal(job: Job) {
    job.state == Succeeded || job.state == DeadLettered || job.state == Cancelled
  }

  predicate Expired(job: Job, now: I64) {
    job.state == Leased && job.lease.Some? && job.lease.value.expiresAtMs <= now
  }

  /** The keys of all jobs that wait to be claimed. */
  ghost function LiveKeys(jobs: Jobs): set<ReadyKey> {
    set r | r in jobs && Waiting(jobs[r]) :: KeyOf(r, jobs[r])
  }

  /** The keys of the jobs that may be claimed at `now`. */
  ghost function Eligible(jobs: Jobs, now: I64): set<ReadyKey> {
    set r | r in jobs && Waiting(jobs[r]) && jobs[r].availableAtMs <= now :: KeyOf(r, jobs[r])
  }

  /** The succeeded jobs of one graph. */
  ghost function Done(jobs: Jobs, dag: string): set<string> {
    set r | r in jobs && r.dag == dag && jobs[r].state == Succeeded :: r.job
  }

  ghost function ExpiredRefs(jobs: Jobs, now: I64): set<JobRef> {
    set r | r in jobs && Expired(jobs[r], now)
  }

  ghost function Unfinished(jobs: Jobs, dag: string): set<JobRef> {
    set r | r in jobs && r.dag == dag && !Terminal(jobs[r])
  }

  /** `format!("lease-{}-{}-{}")`. */
  function Token(dag: string, job: string, sequence: nat): string {
    "lease-" + dag + "-" + job + "-" + Decimal(sequence)
  }

  /** The decimal after the last dash of a token. */
  function TokenNumber(token: string): nat {
    DecimalValue(AfterLastDash(token))
  }

  lemma TokenNumberRoundTrip(dag: string, job: string, sequence: nat)
    ensures TokenNumber(Token(dag, job, sequence)) == sequence
  {
    AfterLastDashOfSuffix("lease-" + dag + "-" + job, Decimal(sequence));
    DecimalRoundTrip(sequence);
  }

  // ----- Single-job transitions -----

  /** A failed or expired attempt: back to waiting, or dead once the attempt budget is spent. */
  function Retried(config: SchedulerConfig, jobId: string, job: Job, now: I64): Job {
    if job.attempts >= job.spec.maxAttempts then job.(state := DeadLettered, lease := None)
    else job.(
      state := RetryWait,
      lease := None,
      availableAtMs := RetryAt(config, jobId, job.attempts, now))
  }

  function SaturatingSuccessor(n: int, limit: int): int {
    if n < limit then n + 1 else limit
  }

  function LeasedTo(job: Job, owner: string, token: string, expires: I64): Job {
    job.(
      state := Leased,
      attempts := SaturatingSuccessor(job.attempts, 0xFFFF),
      lease := Some(Lease(owner, token, expires)))
  }

  /** The compare-and-set guard of heartbeat, complete and fail. */
  predicate Holds(job: Job, owner: string, token: string, now: I64) {
    && job.state == Leased
    && job.lease.Some?
    && job.lease.value.owner == owner
    && job.lease.value.token == token
    && job.lease.value.expiresAtMs > now
  }

  // ----- Operations -----

  /** The submitted specification of one job id. */
  ghost function SpecOf(jobs: seq<JobSpec>, id: string): (job: JobSpec)
    requires exists j :: j in jobs && j.id == id
    ensures job in jobs && job.id == id
  {
    if jobs[0].id == id then jobs[0] else
      assert jobs == [jobs[0]] + jobs[1..];
      SpecOf(jobs[1..], id)
  }

  /** A job as admitted: ready without parents, pending otherwise. */
  ghost function InitialJob(spec: DagSpec, job: JobSpec, now: I64): Job {
    Job(job, if ParentsIn(V.EdgeSet(spec), {}, job.id) then Ready else Pending, 0, now, None, None)
  }

  ghost function InitialJobs(spec: DagSpec, now: I64): Jobs {
    map r | r in (set job | job in spec.jobs :: JobRef(spec.id, job.id)) ::
      InitialJob(spec, SpecOf(spec.jobs, r.job), now)
  }

  /** The length of the ready index: one entry per waiting job, plus the leftovers of cancelled jobs. */
  ghost function IndexSize(s: System): nat {
    |LiveKeys(s.jobs) + s.stale|
  }

  ghost function Submit(config: SchedulerConfig, s: System, spec: DagSpec, now: I64)
    : (System, Result<(), SchedulerError>)
  {
    if V.Validation(spec).Err? then (s, Err(ValidationFailed(V.Validation(spec).error)))
    else if spec.id in s.dags then (s, Err(DagAlreadyExists))
    else if |s.dags| >= config.maxDags then (s, Err(Overloaded))
    else if Min(IndexSize(s) + |V.Sources(V.JobIds(spec), V.EdgeSet(spec))|, U64_MAX) > config.maxReadyJobs
    then (s, Err(Overloaded))
    else
      (s.(dags := s.dags[spec.id := V.EdgeSet(spec)], jobs := s.jobs + InitialJobs(spec, now)), Ok(()))
  }

  ghost function ReapedJobs(config: SchedulerConfig, jobs: Jobs, now: I64): Jobs {
    map r | r in jobs :: if Expired(jobs[r], now) then Retried(config, r.job, jobs[r], now) else jobs[r]
  }

  ghost function Reap(config: SchedulerConfig, s: System, now: I64): (System, nat) {
    (s.(jobs := ReapedJobs(config, s.jobs, now)), |ExpiredRefs(s.jobs, now)|)
  }

  predicate ValidClaim(config: SchedulerConfig, owner: string, leaseMs: I64) {
    owner != [] && |owner| <= 64 && 0 < leaseMs <= config.maxLeaseMs
  }

  /** Claiming after the reap. */
  ghost function Take(s: System, owner: string, now: I64, leaseMs: I64): (System, Option<ClaimedJob>) {
    var eligible := Eligible(s.jobs, now);
    if eligible == {} then
      (s.(stale := (set k | k in s.stale && k.availableAtMs > now)), None)
    else
      var key := LeastKey(eligible);
      var r := RefOf(key);
      assert r in s.jobs;
      var sequence: U64 := SaturatingSuccessor(s.sequence, U64_MAX);
      var token := Token(r.dag, r.job, sequence);
      var expires := SatAdd(now, leaseMs);
      var job := LeasedTo(s.jobs[r], owner, token, expires);
      (System(s.dags, s.jobs[r := job], (set k | k in s.stale && !KeyLe(k, key)), sequence),
       Some(ClaimedJob(r.dag, r.job, job.spec.kind, job.spec.payload, job.attempts, token, expires)))
  }

  ghost function Claim(config: SchedulerConfig, s: System, owner: string, now: I64, leaseMs: I64)
    : (System, Result<Option<ClaimedJob>, SchedulerError>)
  {
    if !ValidClaim(config, owner, leaseMs) then (s, Err(InvalidLease))
    else
      var (s', claimed) := Take(Reap(config, s, now).0, owner, now, leaseMs);
      (s', Ok(claimed))
  }

  /** The verdict on a caller that presents a lease. */
  ghost function LeaseError(s: System, r: JobRef, owner: string, token: string, now: I64): Option<SchedulerError> {
    if r.dag !in s.dags then Some(DagNotFound)
    else if r !in s.jobs then Some(JobNotFound)
    else if Holds(s.jobs[r], owner, token, now) then None
    else Some(LeaseConflict)
  }

  ghost function Heartbeat(
    config: SchedulerConfig, s: System, r: JobRef, owner: string, token: string, now: I64, leaseMs: I64)
    : (System, Result<I64, SchedulerError>)
  {
    if !(0 < leaseMs <= config.maxLeaseMs) then (s, Err(InvalidLease))
    else
      match LeaseError(s, r, owner, token, now)
      case Some(e) => (s, Err(e))
      case None =>
        var expires := SatAdd(now, leaseMs);
        (s.(jobs := s.jobs[r := s.jobs[r].(lease := Some(Lease(owner, token, expires)))]), Ok(expires))
  }

  /** Is `r` a pending child of `parent` whose parents have all succeeded? */
  ghost predicate Released(edges: Edges, jobs: Jobs, parent: JobRef, r: JobRef) {
    && r in jobs && r.dag == parent.dag && jobs[r].state == Pending
    && Dependency(parent.job, r.job) in edges
    && ParentsIn(edges, Done(jobs, parent.dag), r.job)
  }

  ghost function WithReleased(edges: Edges, jobs: Jobs, parent: JobRef, now: I64): Jobs {
    map r | r in jobs ::
      if Released(edges, jobs, parent, r) then jobs[r].(state := Ready, availableAtMs := now) else jobs[r]
  }

  ghost function WithSuccess(jobs: Jobs, r: JobRef, result: string): Jobs
    requires r in jobs
  {
    jobs[r := jobs[r].(state := Succeeded, lease := None, result := Some(result))]
  }

  ghost function Complete(s: System, r: JobRef, owner: string, token: string, result: string, now: I64)
    : (System, Result<(), SchedulerError>)
  {
    if |result| > MAX_PAYLOAD_BYTES then (s, Err(ResultTooLarge))
    else
      match LeaseError(s, r, owner, token, now)
      case Some(e) => (s, Err(e))
      case None => (s.(jobs := WithReleased(s.dags[r.dag], WithSuccess(s.jobs, r, result), r, now)), Ok(()))
  }

  ghost function Fail(config: SchedulerConfig, s: System, r: JobRef, owner: string, token: string, now: I64)
    : (System, Result<JobState, SchedulerError>)
  {
    match LeaseError(s, r, owner, token, now)
    case Some(e) => (s, Err(e))
    case None =>
      var job := Retried(config, r.job, s.jobs[r], now);
      (s.(jobs := s.jobs[r := job]), Ok(job.state))
  }

  ghost function CancelledJobs(jobs: Jobs, dag: string): Jobs {
    map r | r in jobs ::
      if r.dag == dag && !Terminal(jobs[r]) then jobs[r].(state := Cancelled, lease := None) else jobs[r]
  }

  ghost function Cancel(s: System, dag: string): (System, Result<nat, SchedulerError>) {
    if dag !in s.dags then (s, Err(DagNotFound))
    else
      var leftovers := set k | k in LiveKeys(s.jobs) && k.dagId == dag;
      (s.(jobs := CancelledJobs(s.jobs, dag), stale := s.stale + leftovers), Ok(|Unfinished(s.jobs, dag)|))
  }

  // ----- Calls and runs -----

  datatype Call =
    | SubmitCall(spec: DagSpec, now: I64)
    | ClaimCall(owner: string, now: I64, leaseMs: I64)
    | HeartbeatCall(ref: JobRef, owner: string, token: string, now: I64, leaseMs: I64)
    | CompleteCall(ref: JobRef, owner: string, token: string, result: string, now: I64)
    | FailCall(ref: JobRef, owner: string, token: string, now: I64)
    | ReapCall(now: I64)
    | CancelCall(dag: string)

  datatype Reply =
    | SubmitReply(submitted: Result<(), SchedulerError>)
    | ClaimReply(claimed: Result<Option<ClaimedJob>, SchedulerError>)
    | HeartbeatReply(extended: Result<I64, SchedulerError>)
    | CompleteReply(completed: Result<(), SchedulerError>)
    | FailReply(failed: Result<JobState, SchedulerError>)
    | ReapReply(reaped: nat)
    | CancelReply(cancelled: Result<nat, SchedulerError>)

  ghost function Step(config: SchedulerConfig, s: System, call: Call): (System, Reply) {
    match call
    case SubmitCall(spec, now) => var (s', r) := Submit(config, s, spec, now); (s', SubmitReply(r))
    case ClaimCall(owner, now, leaseMs) => var (s', r) := Claim(config, s, owner, now, leaseMs); (s', ClaimReply(r))
    case HeartbeatCall(ref, owner, token, now, leaseMs) =>
      var (s', r) := Heartbeat(config, s, ref, owner, token, now, leaseMs); (s', HeartbeatReply(r))
    case CompleteCall(ref, owner, token, result, now) =>
      var (s', r) := Complete(s, ref, owner, token, result, now); (s', CompleteReply(r))
    case FailCall(ref, owner, token, now) =>
      var (s', r) := Fail(config, s, ref, owner, token, now); (s', FailReply(r))
    case ReapCall(now) => var (s', n) := Reap(config, s, now); (s', ReapReply(n))
    case CancelCall(dag) => var (s', r) := Cancel(s, dag); (s', CancelReply(r))
  }

  ghost predicate StepIs(config: SchedulerConfig, s: System, call: Call, s': System, reply: Reply) {
    Step(config, s, call) == (s', reply)
  }

  /** A run from the empty system: `states[i]` is the system before `calls[i]`, which answers `replies[i]`. */
  ghost predicate IsRun(config: SchedulerConfig, states: seq<System>, calls: seq<Call>, replies: seq<Reply>) {
    && |states| == |calls| + 1 == |replies| + 1
    && IsEmpty(states[0])
    && forall i :: 0 <= i < |calls| ==> StepIs(config, states[i], calls[i], states[i + 1], replies[i])
  }

  predicate IsError(reply: Reply) {
    match reply
    case SubmitReply(r) => r.Err?
    case ClaimReply(r) => r.Err?
    case HeartbeatReply(r) => r.Err?
    case CompleteReply(r) => r.Err?
    case FailReply(r) => r.Err?
    case ReapReply(_) => false
    case CancelReply(r) => r.Err?
  }
}
