/** The durable store as a transition system whose steps are whole transactions (src/store.rs).

    The steps are stated without the statements' joins: a claim takes the first waiting row of the claim
    order, a completion releases the pending children all of whose parents have succeeded. `issued` is the
    history of lease tokens; a claim brings a token that is not in it. */
module StoreModel {
  import opened Prelude
  import opened Collections
  import opened Domain
  import opened Graphs
  import opened Multigraphs
  import opened Backoff
  import opened LeaseMachine
  import opened LeaseInvariants
  import opened EventLog
  import opened Sql
  import V = Validation

  datatype StoreError =
    | Rejected(error: ValidationError)
    | Database
    | NotFound
    | Conflict
    | InvalidConfiguration

  datatype Tables = Tables(dags: Dags, jobs: Jobs, deps: Dependencies, events: seq<Event>, issued: set<string>)

  predicate ValidRequest(owner: string, leaseMs: I64) {
    owner != [] && |owner| <= 64 && 1 <= leaseMs <= MAX_LEASE_MS
  }

  // ----- Transactions -----

  ghost function Submit(t: Tables, spec: DagSpec, now: Instant): (Tables, Result<(), StoreError>) {
    if V.Validation(spec).Err? then (t, Err(Rejected(V.Validation(spec).error)))
    else if spec.id in t.dags || !NoDuplicates(spec.dependencies) then (t, Err(Database))
    else
      (t.(dags := t.dags[spec.id := RunningDag],
          jobs := t.jobs + InitialJobs(spec, now),
          deps := t.deps[spec.id := V.EdgeSet(spec)]), Ok(()))
  }

  ghost function Reaped(jobs: Jobs, now: Instant): Jobs {
    map r | r in jobs :: if Expired(jobs[r], now) then SqlRetried(jobs[r], now) else jobs[r]
  }

  /** The queue keys of all rows that wait and are due. */
  ghost function Queue(jobs: Jobs, now: Instant): set<QueueKey> {
    set r | r in jobs && Waiting(jobs[r]) && jobs[r].availableAtMs <= now :: QueueKeyOf(r, jobs[r])
  }

  ghost function Grant(t: Tables, r: JobRef, owner: string, now: Instant, leaseMs: LeaseMs, token: string)
    : (Tables, ClaimedJob)
    requires r in t.jobs
  {
    var job := LeasedTo(t.jobs[r], owner, token, now + leaseMs);
    (t.(jobs := t.jobs[r := job],
        events := t.events + [Event(r, ClaimEvent, job.attempts, owner)],
        issued := t.issued + {token}),
     ClaimedJob(r.dag, r.job, job.spec.kind, job.spec.payload, job.attempts, token, now + leaseMs))
  }

  ghost function Claim(t: Tables, owner: string, now: Instant, leaseMs: I64, token: string)
    : (Tables, Result<Option<ClaimedJob>, StoreError>)
  {
    if !ValidRequest(owner, leaseMs) then (t, Err(InvalidConfiguration))
    else
      var reaped := t.(jobs := Reaped(t.jobs, now));
      var queue := Queue(reaped.jobs, now);
      if queue == {} then (reaped, Ok(None))
      else
        var first := FirstInQueue(queue);
        var (t', claimed) := Grant(reaped, JobRef(first.dagId, first.jobId), owner, now, leaseMs, token);
        (t', Ok(Some(claimed)))
  }

  predicate Presents(jobs: Jobs, r: JobRef, owner: string, token: string, now: Instant) {
    r in jobs && Holds(jobs[r], owner, token, now)
  }

  ghost function Heartbeat(t: Tables, r: JobRef, owner: string, token: string, now: Instant, leaseMs: I64)
    : (Tables, Result<(), StoreError>)
  {
    if !ValidRequest(owner, leaseMs) then (t, Err(InvalidConfiguration))
    else if !Presents(t.jobs, r, owner, token, now) then (t, Err(Conflict))
    else (t.(jobs := t.jobs[r := t.jobs[r].(lease := Some(Lease(owner, token, now + leaseMs)))]), Ok(()))
  }

  ghost function Complete(t: Tables, r: JobRef, owner: string, token: string, result: string, now: Instant)
    : (Tables, Result<(), StoreError>)
  {
    if |result| > MAX_PAYLOAD_BYTES then (t, Err(InvalidConfiguration))
    else if !Presents(t.jobs, r, owner, token, now) then (t, Err(Conflict))
    else
      var edges := if r.dag in t.deps then t.deps[r.dag] else {};
      (t.(jobs := WithReleased(edges, WithSuccess(t.jobs, r, result), r, now),
          events := t.events + [Event(r, OutcomeEvent(Succeeded), t.jobs[r].attempts, owner)]), Ok(()))
  }

  ghost function Fail(t: Tables, r: JobRef, owner: string, token: string, now: Instant)
    : (Tables, Result<JobState, StoreError>)
  {
    if !Presents(t.jobs, r, owner, token, now) then (t, Err(Conflict))
    else
      var job := SqlRetried(t.jobs[r], now);
      (t.(jobs := t.jobs[r := job],
          events := t.events + [Event(r, OutcomeEvent(job.state), job.attempts, owner)]), Ok(job.state))
  }

  ghost function Reap(t: Tables, now: Instant): (Tables, nat) {
    (t.(jobs := Reaped(t.jobs, now)), |ExpiredRefs(t.jobs, now)|)
  }

  ghost function Cancel(t: Tables, dag: string): (Tables, Result<nat, StoreError>) {
    if dag !in t.dags then (t, Err(NotFound))
    else
      (t.(dags := t.dags[dag := CancelledDag], jobs := CancelledJobs(t.jobs, dag)),
       Ok(|Unfinished(t.jobs, dag)|))
  }

  datatype StoreCall =
    | SubmitTx(spec: DagSpec, now: Instant)
    | ClaimTx(owner: string, now: Instant, leaseMs: I64, token: string)
    | HeartbeatTx(ref: JobRef, owner: string, token: string, now: Instant, leaseMs: I64)
    | CompleteTx(ref: JobRef, owner: string, token: string, result: string, now: Instant)
    | FailTx(ref: JobRef, owner: string, token: string, now: Instant)
    | ReapTx(now: Instant)
    | CancelTx(dag: string)

  datatype StoreReply =
    | Submitted(submitted: Result<(), StoreError>)
    | Claimed(claimed: Result<Option<ClaimedJob>, StoreError>)
    | Extended(extended: Result<(), StoreError>)
    | Completed(completed: Result<(), StoreError>)
    | Failed(failed: Result<JobState, StoreError>)
    | ReapedReply(reaped: nat)
    | CancelledReply(cancelled: Result<nat, StoreError>)

  ghost function Step(t: Tables, call: StoreCall): (Tables, StoreReply) {
    match call
    case SubmitTx(spec, now) => var (t', r) := Submit(t, spec, now); (t', Submitted(r))
    case ClaimTx(owner, now, leaseMs, token) => var (t', r) := Claim(t, owner, now, leaseMs, token); (t', Claimed(r))
    case HeartbeatTx(ref, owner, token, now, leaseMs) =>
      var (t', r) := Heartbeat(t, ref, owner, token, now, leaseMs); (t', Extended(r))
    case CompleteTx(ref, owner, token, result, now) =>
      var (t', r) := Complete(t, ref, owner, token, result, now); (t', Completed(r))
    case FailTx(ref, owner, token, now) => var (t', r) := Fail(t, ref, owner, token, now); (t', Failed(r))
    case ReapTx(now) => var (t', n) := Reap(t, now); (t', ReapedReply(n))
    case CancelTx(dag) => var (t', r) := Cancel(t, dag); (t', CancelledReply(r))
  }

  /** A claim brings a token never issued before. */
  ghost predicate FreshToken(t: Tables, call: StoreCall) {
    call.ClaimTx? ==> call.token !in t.issued
  }

  ghost predicate StepIs(t: Tables, call: StoreCall, t': Tables, reply: StoreReply) {
    Step(t, call) == (t', reply)
  }

  const NO_ROWS := Tables(map[], map[], map[], [], {})

  ghost predicate IsStoreRun(states: seq<Tables>, calls: seq<StoreCall>, replies: seq<StoreReply>) {
    && |states| == |calls| + 1 == |replies| + 1
    && states[0] == NO_ROWS
    && forall i :: 0 <= i < |calls| ==>
         FreshToken(states[i], calls[i]) && StepIs(states[i], calls[i], states[i + 1], replies[i])
  }

  // ----- The invariant -----

  /** The job and edge tables read as a lease machine. */
  ghost function AsSystem(t: Tables): System {
    System(t.deps, t.jobs, {}, 0)
  }

  ghost predicate RowsOk(t: Tables) {
    JobsOk(AsSystem(t)) && GraphsOk(AsSystem(t)) && DependenciesOk(t.deps, t.jobs) && t.deps.Keys == t.dags.Keys
  }

  /** Exactly the rows of cancelled graphs may be cancelled, and none of them is left unfinished. */
  ghost predicate CancelledOk(dags: Dags, jobs: Jobs) {
    forall r :: r in jobs && r.dag in dags ==>
      && (dags[r.dag] == CancelledDag ==> Terminal(jobs[r]))
      && (jobs[r].state == Cancelled ==> dags[r.dag] == CancelledDag)
  }

  ghost predicate HasToken(jobs: Jobs, r: JobRef, token: string) {
    r in jobs && jobs[r].lease.Some? && jobs[r].lease.value.token == token
  }

  ghost predicate LeasesOk(jobs: Jobs, issued: set<string>) {
    && (forall r, token :: HasToken(jobs, r, token) ==> token in issued)
    && (forall r1, r2, token :: HasToken(jobs, r1, token) && HasToken(jobs, r2, token) ==> r1 == r2)
  }

  ghost predicate StoreInv(t: Tables) {
    RowsOk(t) && CancelledOk(t.dags, t.jobs) && LeasesOk(t.jobs, t.issued) && LogsOk(t.jobs, t.events)
  }

  // ----- Frames -----

  /** A row change that no event records. */
  ghost predicate Quiet(job: Job, job': Job) {
    && job'.spec == job.spec && job'.attempts == job.attempts
    && (|| job'.state == job.state
        || (job.state == Pending && job'.state == Ready)
        || (job.state == Leased && (job'.state == RetryWait || job'.state == DeadLettered))
        || (!Terminal(job) && job'.state == Cancelled))
  }

  lemma QuietFits(job: Job, job': Job, reading: Option<Reading>)
    requires Quiet(job, job') && LogFits(job, reading)
    ensures LogFits(job', reading)
  {
  }

  lemma QuietLogs(jobs: Jobs, jobs': Jobs, events: seq<Event>)
    requires LogsOk(jobs, events) && jobs'.Keys == jobs.Keys && forall r :: r in jobs ==> Quiet(jobs[r], jobs'[r])
    ensures LogsOk(jobs', events)
  {
    hide ReadLog, LogOf, LogFits;
    forall r | r in jobs' ensures LogFits(jobs'[r], ReadLog(LogOf(events, r), jobs'[r].spec.maxAttempts)) {
      assert Quiet(jobs[r], jobs'[r]);
      QuietFits(jobs[r], jobs'[r], ReadLog(LogOf(events, r), jobs[r].spec.maxAttempts));
    }
  }

  /** One event is logged and its row changes with it; all other rows change quietly. */
  lemma LoggedOne(jobs: Jobs, jobs': Jobs, events: seq<Event>, e: Event)
    requires LogsOk(jobs, events) && jobs'.Keys == jobs.Keys && e.ref in jobs
    requires forall r :: r in jobs && r != e.ref ==> Quiet(jobs[r], jobs'[r])
    requires jobs'[e.ref].spec == jobs[e.ref].spec
    requires forall reading :: LogFits(jobs[e.ref], Some(reading)) ==>
               LogFits(jobs'[e.ref], ReadEvent(reading, e, jobs[e.ref].spec.maxAttempts))
    ensures LogsOk(jobs', events + [e])
  {
    hide ReadLog, LogOf, LogFits, ReadEvent;
    forall r | r in jobs' ensures LogFits(jobs'[r], ReadLog(LogOf(events + [e], r), jobs'[r].spec.maxAttempts)) {
      LogAppend(events, e, r);
      var max := jobs[r].spec.maxAttempts;
      var log := LogOf(events, r);
      FitsReads(jobs[r], ReadLog(log, max));
      if r == e.ref {
        ReadAppend(log, e, max);
      } else {
        assert Quiet(jobs[r], jobs'[r]);
        assert log + [] == log;
        QuietFits(jobs[r], jobs'[r], ReadLog(log, max));
      }
    }
  }

  lemma FitsReads(job: Job, reading: Option<Reading>)
    requires LogFits(job, reading)
    ensures reading.Some?
  {
  }

  lemma CalmRows(t: Tables, t': Tables)
    requires RowsOk(t) && t'.deps == t.deps && t'.dags.Keys == t.dags.Keys && t'.jobs.Keys == t.jobs.Keys
    requires forall r :: r in t.jobs ==> Calm(t.jobs[r], t'.jobs[r])
    ensures RowsOk(t')
  {
    hide GraphsOk, DependenciesOk, HasCycle;
    DependenciesFrame(t.deps, t.jobs, t'.jobs);
    GraphsFrame(AsSystem(t), AsSystem(t'));
    assert JobsOk(AsSystem(t'));
  }

  /** Dropping or keeping leases keeps the token rule. */
  lemma LeasesFrame(jobs: Jobs, jobs': Jobs, issued: set<string>)
    requires LeasesOk(jobs, issued) && jobs'.Keys == jobs.Keys
    requires forall r :: r in jobs && jobs'[r].lease.Some? ==>
      jobs[r].lease.Some? && jobs'[r].lease.value.token == jobs[r].lease.value.token
    ensures LeasesOk(jobs', issued)
  {
    forall r, token | HasToken(jobs', r, token) ensures HasToken(jobs, r, token) {
    }
  }

  // ----- Transactions keep the invariant -----

  lemma SqlRetriedCalm(job: Job, now: Instant)
    requires JobOk(job) && job.state == Leased
    ensures Calm(job, SqlRetried(job, now)) && Quiet(job, SqlRetried(job, now))
    ensures SqlRetried(job, now).lease.None? && SqlRetried(job, now).state != Cancelled
  {
    hide SqlBackoff;
  }

  lemma JobRowOk(t: Tables, r: JobRef)
    requires RowsOk(t) && r in t.jobs
    ensures JobOk(t.jobs[r]) && r.dag in t.deps && r.dag in t.dags && t.jobs[r].spec.id == r.job
  {
    hide GraphsOk, DependenciesOk;
  }

  lemma ReapedKeeps(t: Tables, now: Instant)
    requires StoreInv(t)
    ensures StoreInv(t.(jobs := Reaped(t.jobs, now)))
  {
    hide RowsOk, LogsOk, LeasesOk, SqlRetried, Calm, Quiet, JobOk;
    var t' := t.(jobs := Reaped(t.jobs, now));
    forall r | r in t.jobs
      ensures Calm(t.jobs[r], t'.jobs[r]) && Quiet(t.jobs[r], t'.jobs[r])
      ensures t'.jobs[r] == t.jobs[r] || (t'.jobs[r].lease.None? && t'.jobs[r].state != Cancelled)
      ensures Terminal(t.jobs[r]) ==> t'.jobs[r] == t.jobs[r]
    {
      JobRowOk(t, r);
      if Expired(t.jobs[r], now) {
        SqlRetriedCalm(t.jobs[r], now);
      } else {
        StandsStill(t.jobs[r]);
      }
    }
    CalmRows(t, t');
    QuietLogs(t.jobs, t'.jobs, t.events);
    LeasesFrame(t.jobs, t'.jobs, t.issued);
  }

  lemma StandsStill(job: Job)
    requires JobOk(job)
    ensures Calm(job, job) && Quiet(job, job)
  {
  }

  lemma SubmitKeeps(t: Tables, spec: DagSpec, now: Instant)
    requires StoreInv(t)
    ensures StoreInv(Submit(t, spec, now).0)
  {
    hide RowsOk, CancelledOk, LeasesOk, LogsOk, V.Validation, V.WellFormed, HasCycle, InitialJobs, NoDuplicates;
    var t' := Submit(t, spec, now).0;
    V.AcceptedIff(spec);
    if Submit(t, spec, now).1.Ok? {
      NewRows(t, spec, now, t');
      NewRowsQuiet(t, spec, now, t');
    }
  }

  lemma NewRows(t: Tables, spec: DagSpec, now: Instant, t': Tables)
    requires RowsOk(t) && spec.id !in t.dags && V.WellFormed(spec) && !HasCycle(V.EdgeSet(spec))
    requires t'.dags == t.dags[spec.id := RunningDag] && t'.jobs == t.jobs + InitialJobs(spec, now)
    requires t'.deps == t.deps[spec.id := V.EdgeSet(spec)]
    ensures RowsOk(t') && InitialJobs(spec, now).Keys !! t.jobs.Keys
  {
    hide JobsOk, GraphsOk, DependenciesOk, InitialJobs, HasCycle, V.WellFormed;
    SubmitJobs(AsSystem(t), spec, now, AsSystem(t'));
    SubmitGraphs(AsSystem(t), spec, now, AsSystem(t'));
    SubmitDependencies(AsSystem(t), spec, now, AsSystem(t'));
  }

  lemma NewRowsQuiet(t: Tables, spec: DagSpec, now: Instant, t': Tables)
    requires StoreInv(t) && spec.id !in t.dags && V.WellFormed(spec)
    requires InitialJobs(spec, now).Keys !! t.jobs.Keys
    requires t'.dags == t.dags[spec.id := RunningDag] && t'.jobs == t.jobs + InitialJobs(spec, now)
    ensures CancelledOk(t'.dags, t'.jobs) && LeasesOk(t'.jobs, t.issued) && LogsOk(t'.jobs, t.events)
  {
    hide RowsOk, InitialJobs, V.WellFormed, LeasesOk, LogsOk;
    InitialJobsOk(spec, now);
    var added := InitialJobs(spec, now);
    forall r | r in added ensures added[r].lease.None? && (added[r].state == Ready || added[r].state == Pending) {
    }
    forall r | r in t.jobs ensures r.dag in t.dags {
      JobRowOk(t, r);
    }
    AddedLeases(t.jobs, added, t.issued);
    AddedLogs(t.jobs, added, t.events);
  }

  lemma AddedLeases(jobs: Jobs, added: Jobs, issued: set<string>)
    requires LeasesOk(jobs, issued) && forall r :: r in added ==> added[r].lease.None?
    ensures LeasesOk(jobs + added, issued)
  {
    forall r, token | HasToken(jobs + added, r, token) ensures HasToken(jobs, r, token) {
    }
  }

  lemma AddedLogs(jobs: Jobs, added: Jobs, events: seq<Event>)
    requires LogsOk(jobs, events) && jobs.Keys !! added.Keys
    requires forall r :: r in added ==> added[r].attempts == 0 && (added[r].state == Ready || added[r].state == Pending)
    ensures LogsOk(jobs + added, events)
  {
    hide ReadEvent;
    forall r | r in jobs + added
      ensures LogFits((jobs + added)[r], ReadLog(LogOf(events, r), (jobs + added)[r].spec.maxAttempts))
    {
      if r in added {
        LogEmpty(events, r);
      }
    }
  }

  lemma ClaimKeeps(t: Tables, owner: string, now: Instant, leaseMs: I64, token: string)
    requires StoreInv(t) && token !in t.issued
    ensures StoreInv(Claim(t, owner, now, leaseMs, token).0)
  {
    hide StoreInv, Reaped, Queue, Grant;
    if ValidRequest(owner, leaseMs) {
      ReapedKeeps(t, now);
      var reaped := t.(jobs := Reaped(t.jobs, now));
      var queue := Queue(reaped.jobs, now);
      if queue != {} {
        var first := FirstInQueue(queue);
        QueuedRow(reaped.jobs, now, first);
        GrantKeeps(reaped, JobRef(first.dagId, first.jobId), owner, now, leaseMs, token);
      }
    }
  }

  lemma QueuedRow(jobs: Jobs, now: Instant, key: QueueKey)
    requires key in Queue(jobs, now)
    ensures var r := JobRef(key.dagId, key.jobId);
            r in jobs && Waiting(jobs[r]) && jobs[r].availableAtMs <= now && key == QueueKeyOf(r, jobs[r])
  {
  }

  lemma GrantKeeps(t: Tables, r: JobRef, owner: string, now: Instant, leaseMs: LeaseMs, token: string)
    requires StoreInv(t) && r in t.jobs && Waiting(t.jobs[r]) && token !in t.issued
    ensures StoreInv(Grant(t, r, owner, now, leaseMs, token).0)
  {
    hide RowsOk, LogsOk, LeasesOk;
    var t' := Grant(t, r, owner, now, leaseMs, token).0;
    JobRowOk(t, r);
    GrantRows(t, r, t'.jobs[r], t');
    LoggedOne(t.jobs, t'.jobs, t.events, Event(r, ClaimEvent, t'.jobs[r].attempts, owner));
    GrantLeases(t.jobs, r, t'.jobs[r], t.issued, token);
  }

  lemma GrantRows(t: Tables, r: JobRef, job: Job, t': Tables)
    requires RowsOk(t) && r in t.jobs && Waiting(t.jobs[r])
    requires JobOk(job) && job.state == Leased && job.spec == t.jobs[r].spec
    requires t'.deps == t.deps && t'.dags == t.dags && t'.jobs == t.jobs[r := job]
    ensures RowsOk(t')
  {
    hide GraphsOk, DependenciesOk, JobsOk, JobOk;
    DependenciesFrame(t.deps, t.jobs, t'.jobs);
    GraphsFrame(AsSystem(t), AsSystem(t'));
    JobsFrame(AsSystem(t), AsSystem(t'), r);
  }

  lemma GrantLeases(jobs: Jobs, r: JobRef, job: Job, issued: set<string>, token: string)
    requires LeasesOk(jobs, issued) && r in jobs && token !in issued
    requires job.lease.Some? && job.lease.value.token == token
    ensures LeasesOk(jobs[r := job], issued + {token})
  {
    var jobs' := jobs[r := job];
    forall c, x | HasToken(jobs', c, x)
      ensures x in issued + {token} && (x == token <==> c == r) && (c != r ==> HasToken(jobs, c, x))
    {
      if c != r {
        assert HasToken(jobs, c, x);
      }
    }
  }

  /** A calm change of one row keeps the tables in order. */
  lemma CalmRow(t: Tables, r: JobRef, job: Job, t': Tables)
    requires StoreInv(t) && r in t.jobs && Calm(t.jobs[r], job) && t.jobs[r].state == Leased && job.state != Cancelled
    requires t'.dags == t.dags && t'.deps == t.deps && t'.jobs == t.jobs[r := job]
    ensures RowsOk(t') && CancelledOk(t'.dags, t'.jobs) && LeasesOk(t'.jobs, t.issued)
  {
    hide RowsOk, LogsOk, LeasesOk, JobOk;
    forall c | c in t.jobs ensures Calm(t.jobs[c], t'.jobs[c]) {
      JobRowOk(t, c);
      StandsStill(t.jobs[c]);
    }
    CalmRows(t, t');
    LeasesFrame(t.jobs, t'.jobs, t.issued);
    JobRowOk(t, r);
    LeasedRuns(t, r);
  }

  lemma LeasedRuns(t: Tables, r: JobRef)
    requires StoreInv(t) && r in t.jobs && t.jobs[r].state == Leased
    ensures r.dag in t.dags && t.dags[r.dag] == RunningDag
  {
    hide LogsOk, LeasesOk;
    JobRowOk(t, r);
  }

  lemma HeartbeatKeeps(t: Tables, r: JobRef, owner: string, token: string, now: Instant, leaseMs: I64)
    requires StoreInv(t)
    ensures StoreInv(Heartbeat(t, r, owner, token, now, leaseMs).0)
  {
    hide RowsOk, CancelledOk, LogsOk, LeasesOk;
    if ValidRequest(owner, leaseMs) && Presents(t.jobs, r, owner, token, now) {
      var job := t.jobs[r].(lease := Some(Lease(owner, token, now + leaseMs)));
      JobRowOk(t, r);
      CalmRow(t, r, job, t.(jobs := t.jobs[r := job]));
      QuietLogs(t.jobs, t.jobs[r := job], t.events);
    }
  }

  lemma FailKeeps(t: Tables, r: JobRef, owner: string, token: string, now: Instant)
    requires StoreInv(t)
    ensures StoreInv(Fail(t, r, owner, token, now).0)
  {
    hide RowsOk, CancelledOk, LogsOk, LeasesOk, SqlBackoff;
    if Presents(t.jobs, r, owner, token, now) {
      JobRowOk(t, r);
      var job := SqlRetried(t.jobs[r], now);
      SqlRetriedCalm(t.jobs[r], now);
      CalmRow(t, r, job, Fail(t, r, owner, token, now).0);
      LoggedOne(t.jobs, t.jobs[r := job], t.events, Event(r, OutcomeEvent(job.state), job.attempts, owner));
    }
  }

  lemma CancelKeeps(t: Tables, dag: string)
    requires StoreInv(t)
    ensures StoreInv(Cancel(t, dag).0)
  {
    hide RowsOk, LogsOk, LeasesOk, JobOk;
    if dag in t.dags {
      var t' := Cancel(t, dag).0;
      forall r | r in t.jobs ensures Calm(t.jobs[r], t'.jobs[r]) && Quiet(t.jobs[r], t'.jobs[r]) {
        JobRowOk(t, r);
        if !Terminal(t.jobs[r]) {
          CancelOne(t.jobs[r]);
        }
        StandsStill(t.jobs[r]);
      }
      CalmRows(t, t');
      QuietLogs(t.jobs, t'.jobs, t.events);
      LeasesFrame(t.jobs, t'.jobs, t.issued);
    }
  }

  lemma CancelOne(job: Job)
    requires JobOk(job) && !Terminal(job)
    ensures var job' := job.(state := Cancelled, lease := None); Calm(job, job') && Quiet(job, job')
  {
  }

  lemma CompleteKeeps(t: Tables, r: JobRef, owner: string, token: string, result: string, now: Instant)
    requires StoreInv(t)
    ensures StoreInv(Complete(t, r, owner, token, result, now).0)
  {
    hide RowsOk, CancelledOk, LogsOk, LeasesOk, WithReleased;
    if |result| <= MAX_PAYLOAD_BYTES && Presents(t.jobs, r, owner, token, now) {
      JobRowOk(t, r);
      var jobs' := WithReleased(t.deps[r.dag], WithSuccess(t.jobs, r, result), r, now);
      var t' := Complete(t, r, owner, token, result, now).0;
      FinishRows(t, r, result, now, t');
      FinishEach(t, r, result, now, jobs');
      FinishCancelled(t, r, jobs');
      LeasesFrame(t.jobs, jobs', t.issued);
      LoggedOne(t.jobs, jobs', t.events, Event(r, OutcomeEvent(Succeeded), t.jobs[r].attempts, owner));
    }
  }

  lemma FinishRows(t: Tables, r: JobRef, result: string, now: Instant, t': Tables)
    requires RowsOk(t) && r in t.jobs && r.dag in t.deps && t.jobs[r].state == Leased
    requires t'.deps == t.deps && t'.dags == t.dags
    requires t'.jobs == WithReleased(t.deps[r.dag], WithSuccess(t.jobs, r, result), r, now)
    ensures RowsOk(t')
  {
    hide GraphsOk, DependenciesOk, WithReleased, Calm, HasCycle;
    FinishSteps(AsSystem(t), r, result, now);
    ReleasedKeys(t.deps[r.dag], WithSuccess(t.jobs, r, result), r, now);
    CompleteDependencies(AsSystem(t), r, result, now);
    GraphsFrame(AsSystem(t), AsSystem(t'));
    assert JobsOk(AsSystem(t'));
  }

  lemma ReleasedKeys(edges: Edges, jobs: Jobs, r: JobRef, now: Instant)
    ensures WithReleased(edges, jobs, r, now).Keys == jobs.Keys
  {
  }

  lemma FinishEach(t: Tables, r: JobRef, result: string, now: Instant, jobs': Jobs)
    requires r in t.jobs && r.dag in t.deps && t.jobs[r].state == Leased
    requires jobs' == WithReleased(t.deps[r.dag], WithSuccess(t.jobs, r, result), r, now)
    ensures jobs'.Keys == t.jobs.Keys
    ensures jobs'[r] == WithSuccess(t.jobs, r, result)[r]
    ensures forall c :: c in t.jobs && c != r ==>
              Quiet(t.jobs[c], jobs'[c]) && (jobs'[c] == t.jobs[c] || (t.jobs[c].state == Pending && jobs'[c].state == Ready))
    ensures forall c :: c in t.jobs && jobs'[c].lease.Some? ==> jobs'[c].lease == t.jobs[c].lease
  {
    hide Done, ParentsIn;
  }

  lemma FinishCancelled(t: Tables, r: JobRef, jobs': Jobs)
    requires StoreInv(t) && r in t.jobs && jobs'.Keys == t.jobs.Keys && jobs'[r].state == Succeeded
    requires forall c :: c in t.jobs && c != r ==>
               (jobs'[c] == t.jobs[c] || (t.jobs[c].state == Pending && jobs'[c].state == Ready))
    ensures CancelledOk(t.dags, jobs')
  {
    hide RowsOk, LogsOk, LeasesOk;
  }

  /** Every transaction keeps the invariant. */
  lemma StepKeeps(t: Tables, call: StoreCall)
    requires StoreInv(t) && FreshToken(t, call)
    ensures StoreInv(Step(t, call).0)
  {
    hide StoreInv, Submit, Claim, Heartbeat, Complete, Fail, Reap, Cancel;
    match call
    case SubmitTx(spec, now) => SubmitKeeps(t, spec, now);
    case ClaimTx(owner, now, leaseMs, token) => ClaimKeeps(t, owner, now, leaseMs, token);
    case HeartbeatTx(ref, owner, token, now, leaseMs) => HeartbeatKeeps(t, ref, owner, token, now, leaseMs);
    case CompleteTx(ref, owner, token, result, now) => CompleteKeeps(t, ref, owner, token, result, now);
    case FailTx(ref, owner, token, now) => FailKeeps(t, ref, owner, token, now);
    case ReapTx(now) => ReapKeeps(t, now);
    case CancelTx(dag) => CancelKeeps(t, dag);
  }

  lemma ReapKeeps(t: Tables, now: Instant)
    requires StoreInv(t)
    ensures StoreInv(Reap(t, now).0)
  {
    hide StoreInv;
    ReapedKeeps(t, now);
  }

  lemma NoRowsOk()
    ensures StoreInv(NO_ROWS)
  {
  }

  /** Every state of every run satisfies the invariant. */
  lemma RunKeeps(states: seq<Tables>, calls: seq<StoreCall>, replies: seq<StoreReply>, i: nat)
    requires IsStoreRun(states, calls, replies) && i <= |calls|
    ensures StoreInv(states[i])
  {
    hide StoreInv, Step;
    NoRowsOk();
    for j := 0 to i
      invariant StoreInv(states[j])
    {
      StepIsKeeps(states[j], calls[j], states[j + 1], replies[j]);
    }
  }

  lemma StepIsKeeps(t: Tables, call: StoreCall, t': Tables, reply: StoreReply)
    requires StoreInv(t) && FreshToken(t, call) && StepIs(t, call, t', reply)
    ensures StoreInv(t')
  {
    hide StoreInv, Step;
    StepKeeps(t, call);
  }
}
