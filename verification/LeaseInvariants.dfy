/** What every call of the lease machine keeps, and what an error reply leaves alone. */
module LeaseInvariants {
  import opened Prelude
  import opened Collections
  import opened Domain
  import opened Graphs
  import opened Multigraphs
  import opened Backoff
  import opened LeaseMachine
  import V = Validation

  // ----- The invariant -----

  /** State, attempt count, lease and result of one job belong together. */
  ghost predicate JobOk(job: Job) {
    && ValidPolicy(job.spec)
    && (job.lease.Some? <==> job.state == Leased)
    && (job.result.Some? <==> job.state == Succeeded)
    && match job.state
       case Pending | Ready => job.attempts == 0
       case RetryWait => 1 <= job.attempts < job.spec.maxAttempts
       case Leased | Succeeded => 1 <= job.attempts <= job.spec.maxAttempts
       case DeadLettered => job.attempts == job.spec.maxAttempts
       case Cancelled => job.attempts <= job.spec.maxAttempts
  }

  ghost predicate JobsOk(s: System) {
    forall r :: r in s.jobs ==> r.dag in s.dags && s.jobs[r].spec.id == r.job && JobOk(s.jobs[r])
  }

  ghost predicate GraphOk(edges: Edges, jobs: Jobs, dag: string) {
    && !HasCycle(edges)
    && forall e :: e in edges ==> JobRef(dag, e.from) in jobs && JobRef(dag, e.to) in jobs
  }

  ghost predicate GraphsOk(s: System) {
    forall dag :: dag in s.dags ==> GraphOk(s.dags[dag], s.jobs, dag)
  }

  /** A pending job waits for a parent; a job past pending has none to wait for. */
  ghost predicate DependencyOk(edges: Edges, jobs: Jobs, r: JobRef)
    requires r in jobs
  {
    match jobs[r].state
    case Pending => !ParentsIn(edges, Done(jobs, r.dag), r.job)
    case Cancelled => true
    case _ => ParentsIn(edges, Done(jobs, r.dag), r.job)
  }

  ghost predicate DependenciesOk(dags: map<string, Edges>, jobs: Jobs) {
    forall r :: r in jobs && r.dag in dags ==> DependencyOk(dags[r.dag], jobs, r)
  }

  /** Leftover keys name cancelled jobs, with the availability those had. */
  ghost predicate StaleOk(jobs: Jobs, stale: set<ReadyKey>) {
    forall k :: k in stale ==> Leftover(jobs, k)
  }

  ghost predicate Leftover(jobs: Jobs, k: ReadyKey) {
    var r := RefOf(k);
    r in jobs && jobs[r].state == Cancelled && k == KeyOf(r, jobs[r])
  }

  ghost predicate HoldsToken(jobs: Jobs, r: JobRef, number: nat) {
    r in jobs && jobs[r].lease.Some? && TokenNumber(jobs[r].lease.value.token) == number
  }

  /** Current tokens carry numbers already issued, no two the same until the sequence is exhausted. */
  ghost predicate TokensOk(jobs: Jobs, sequence: U64) {
    && (forall r :: r in jobs && jobs[r].lease.Some? ==>
          var number := TokenNumber(jobs[r].lease.value.token);
          && 1 <= number <= sequence
          && jobs[r].lease.value.token == Token(r.dag, r.job, number))
    && (sequence < U64_MAX ==>
          forall r1, r2, n :: HoldsToken(jobs, r1, n) && HoldsToken(jobs, r2, n) ==> r1 == r2)
  }

  ghost function AttemptsOf(jobs: Jobs): map<JobRef, nat> {
    map r | r in jobs :: jobs[r].attempts as nat
  }

  /** Every claim is one attempt of one job; sizes stay within the admission limits. */
  ghost predicate CountsOk(config: SchedulerConfig, s: System) {
    && s.sequence == Min(Sum(AttemptsOf(s.jobs)), U64_MAX)
    && |s.dags| <= config.maxDags
    && |s.jobs| <= MAX_JOBS_PER_DAG * |s.dags|
  }

  ghost predicate Inv(config: SchedulerConfig, s: System) {
    && JobsOk(s)
    && GraphsOk(s)
    && DependenciesOk(s.dags, s.jobs)
    && StaleOk(s.jobs, s.stale)
    && TokensOk(s.jobs, s.sequence)
    && CountsOk(config, s)
  }

  // ----- Frames -----

  lemma SameDone(jobs: Jobs, jobs': Jobs, dag: string)
    requires forall r: JobRef :: r.dag == dag ==>
      ((r in jobs && jobs[r].state == Succeeded) <==> (r in jobs' && jobs'[r].state == Succeeded))
    ensures Done(jobs, dag) == Done(jobs', dag)
  {
    forall x | x in Done(jobs, dag) ensures x in Done(jobs', dag) {
      assert JobRef(dag, x) in jobs';
    }
    forall x | x in Done(jobs', dag) ensures x in Done(jobs, dag) {
      assert JobRef(dag, x) in jobs;
    }
  }

  /** Calls that neither finish nor release a job keep the dependency rule. */
  lemma DependenciesFrame(dags: map<string, Edges>, jobs: Jobs, jobs': Jobs)
    requires DependenciesOk(dags, jobs) && jobs'.Keys == jobs.Keys
    requires forall r :: r in jobs ==>
      && (jobs'[r].state == Succeeded <==> jobs[r].state == Succeeded)
      && (jobs'[r].state == Pending ==> jobs[r].state == Pending)
      && (jobs[r].state == Pending || jobs[r].state == Cancelled ==>
            jobs'[r].state == Pending || jobs'[r].state == Cancelled)
    ensures DependenciesOk(dags, jobs')
  {
    forall r | r in jobs' && r.dag in dags ensures DependencyOk(dags[r.dag], jobs', r) {
      SameDone(jobs, jobs', r.dag);
      assert DependencyOk(dags[r.dag], jobs, r);
    }
  }

  lemma SameAttempts(jobs: Jobs, jobs': Jobs)
    requires jobs'.Keys == jobs.Keys && forall r :: r in jobs ==> jobs'[r].attempts == jobs[r].attempts
    ensures AttemptsOf(jobs') == AttemptsOf(jobs)
    ensures |jobs'| == |jobs|
  {
    assert |jobs'| == |jobs'.Keys| && |jobs| == |jobs.Keys|;
  }

  /** Dropping leases keeps the token rule. */
  lemma TokensFrame(jobs: Jobs, jobs': Jobs, sequence: U64)
    requires TokensOk(jobs, sequence) && jobs'.Keys == jobs.Keys
    requires forall r :: r in jobs && jobs'[r].lease.Some? ==>
      jobs[r].lease.Some? && jobs'[r].lease.value.token == jobs[r].lease.value.token
    ensures TokensOk(jobs', sequence)
  {
    forall r, n | HoldsToken(jobs', r, n) ensures HoldsToken(jobs, r, n) {
    }
  }

  lemma GraphsFrame(s: System, s': System)
    requires GraphsOk(s) && s'.dags == s.dags && s.jobs.Keys <= s'.jobs.Keys
    ensures GraphsOk(s')
  {
    forall dag | dag in s'.dags ensures GraphOk(s'.dags[dag], s'.jobs, dag) {
      assert GraphOk(s.dags[dag], s.jobs, dag);
    }
  }

  lemma JobsFrame(s: System, s': System, r: JobRef)
    requires JobsOk(s) && s'.dags == s.dags && r in s.jobs && r in s'.jobs
    requires JobOk(s'.jobs[r]) && s'.jobs[r].spec == s.jobs[r].spec && s'.jobs == s.jobs[r := s'.jobs[r]]
    ensures JobsOk(s')
  {
  }

  lemma StaleFrame(jobs: Jobs, jobs': Jobs, stale: set<ReadyKey>, stale': set<ReadyKey>)
    requires StaleOk(jobs, stale) && stale' <= stale
    requires forall r :: r in jobs && jobs[r].state == Cancelled ==> r in jobs' && jobs'[r] == jobs[r]
    ensures StaleOk(jobs', stale')
  {
    forall k | k in stale' ensures Leftover(jobs', k) {
      assert Leftover(jobs, k);
    }
  }

  /** A change of one job that claims nothing, finishes nothing and releases nothing. */
  ghost predicate Calm(job: Job, job': Job) {
    && JobOk(job') && job'.spec == job.spec && job'.attempts == job.attempts
    && (job'.state == Succeeded <==> job.state == Succeeded)
    && (job'.state == Pending ==> job.state == Pending)
    && (job.state == Pending || job.state == Cancelled ==> job'.state == Pending || job'.state == Cancelled)
    && (job'.lease.Some? ==> job.lease.Some? && job'.lease.value.token == job.lease.value.token)
  }

  lemma CalmKeeps(config: SchedulerConfig, s: System, jobs': Jobs, stale': set<ReadyKey>)
    requires Inv(config, s) && jobs'.Keys == s.jobs.Keys
    requires forall r :: r in s.jobs ==> Calm(s.jobs[r], jobs'[r])
    requires StaleOk(jobs', stale')
    ensures Inv(config, s.(jobs := jobs', stale := stale'))
  {
    DependenciesFrame(s.dags, s.jobs, jobs');
    SameAttempts(s.jobs, jobs');
    TokensFrame(s.jobs, jobs', s.sequence);
    var s' := s.(jobs := jobs', stale := stale');
    GraphsFrame(s, s');
    assert JobsOk(s');
    assert CountsOk(config, s');
  }

  lemma CalmAt(config: SchedulerConfig, s: System, r: JobRef, job': Job)
    requires Inv(config, s) && r in s.jobs && Calm(s.jobs[r], job') && s.jobs[r].state != Cancelled
    ensures Inv(config, s.(jobs := s.jobs[r := job']))
  {
    var jobs' := s.jobs[r := job'];
    forall k | k in s.stale ensures Leftover(jobs', k) {
      assert Leftover(s.jobs, k);
    }
    forall c | c in s.jobs ensures Calm(s.jobs[c], jobs'[c]) {
      assert JobOk(s.jobs[c]);
    }
    CalmKeeps(config, s, jobs', s.stale);
  }

  // ----- Calls -----

  lemma EmptyOk(config: SchedulerConfig, s: System)
    requires IsEmpty(s)
    ensures Inv(config, s)
  {
    assert AttemptsOf(s.jobs) == map[];
  }

  lemma RetriedCalm(config: SchedulerConfig, jobId: string, job: Job, now: I64)
    requires JobOk(job) && job.state == Leased
    ensures Calm(job, Retried(config, jobId, job, now))
  {
  }

  lemma ReapKeeps(config: SchedulerConfig, s: System, now: I64)
    requires Inv(config, s)
    ensures Inv(config, Reap(config, s, now).0)
  {
    hide DependenciesOk, GraphsOk, TokensOk, CountsOk;
    var jobs' := ReapedJobs(config, s.jobs, now);
    forall r | r in s.jobs ensures Calm(s.jobs[r], jobs'[r]) {
      if Expired(s.jobs[r], now) {
        RetriedCalm(config, r.job, s.jobs[r], now);
      }
    }
    CalmKeeps(config, s, jobs', s.stale);
  }

  lemma FailKeeps(config: SchedulerConfig, s: System, r: JobRef, owner: string, token: string, now: I64)
    requires Inv(config, s)
    ensures Inv(config, Fail(config, s, r, owner, token, now).0)
  {
    if LeaseError(s, r, owner, token, now) == None {
      RetriedCalm(config, r.job, s.jobs[r], now);
      CalmAt(config, s, r, Retried(config, r.job, s.jobs[r], now));
    }
  }

  lemma HeartbeatKeeps(
    config: SchedulerConfig, s: System, r: JobRef, owner: string, token: string, now: I64, leaseMs: I64)
    requires Inv(config, s)
    ensures Inv(config, Heartbeat(config, s, r, owner, token, now, leaseMs).0)
  {
    if 0 < leaseMs <= config.maxLeaseMs && LeaseError(s, r, owner, token, now) == None {
      CalmAt(config, s, r, s.jobs[r].(lease := Some(Lease(owner, token, SatAdd(now, leaseMs)))));
    }
  }

  lemma CancelKeeps(config: SchedulerConfig, s: System, dag: string)
    requires Inv(config, s)
    ensures Inv(config, Cancel(s, dag).0)
  {
    hide DependenciesOk, GraphsOk, TokensOk, CountsOk, StaleOk, LiveKeys;
    if dag in s.dags {
      var s' := Cancel(s, dag).0;
      CancelLeftovers(s, dag);
      forall c | c in s.jobs ensures Calm(s.jobs[c], s'.jobs[c]) {
        assert JobOk(s.jobs[c]);
      }
      CalmKeeps(config, s, s'.jobs, s'.stale);
    }
  }

  lemma CancelLeftovers(s: System, dag: string)
    requires StaleOk(s.jobs, s.stale) && dag in s.dags
    ensures var s' := Cancel(s, dag).0; StaleOk(s'.jobs, s'.stale)
  {
    var s' := Cancel(s, dag).0;
    forall k | k in s'.stale ensures Leftover(s'.jobs, k) {
      LiveRef(s.jobs, k);
      assert k in s.stale ==> Leftover(s.jobs, k);
    }
  }

  lemma LiveRef(jobs: Jobs, key: ReadyKey)
    ensures key in LiveKeys(jobs) <==>
            RefOf(key) in jobs && Waiting(jobs[RefOf(key)]) && key == KeyOf(RefOf(key), jobs[RefOf(key)])
  {
  }

  lemma EligibleRef(jobs: Jobs, now: I64, key: ReadyKey)
    requires key in Eligible(jobs, now)
    ensures RefOf(key) in jobs && Waiting(jobs[RefOf(key)]) && key == KeyOf(RefOf(key), jobs[RefOf(key)])
    ensures key.availableAtMs <= now
  {
  }

  lemma TakeKeeps(config: SchedulerConfig, s: System, owner: string, now: I64, leaseMs: I64)
    requires Inv(config, s)
    ensures Inv(config, Take(s, owner, now, leaseMs).0)
  {
    hide Inv, Eligible, KeyLe, Token, SatAdd, TokensOk;
    TokensPart(config, s);
    if Eligible(s.jobs, now) == {} {
      PurgeKeeps(config, s, Take(s, owner, now, leaseMs).0.stale);
    } else {
      var key := LeastKey(Eligible(s.jobs, now));
      EligibleRef(s.jobs, now, key);
      var r := RefOf(key);
      JobAt(config, s, r);
      var s' := Take(s, owner, now, leaseMs).0;
      TakeTokens(s, r, owner, s'.sequence, SatAdd(now, leaseMs));
      GrantKeeps(config, s, r, s'.jobs[r], s'.stale, s'.sequence);
    }
  }

  lemma TokensPart(config: SchedulerConfig, s: System)
    requires Inv(config, s)
    ensures TokensOk(s.jobs, s.sequence)
  {
  }

  lemma JobAt(config: SchedulerConfig, s: System, r: JobRef)
    requires Inv(config, s) && r in s.jobs
    ensures JobOk(s.jobs[r]) && r.dag in s.dags && s.jobs[r].spec.id == r.job
  {
  }

  lemma PurgeKeeps(config: SchedulerConfig, s: System, stale': set<ReadyKey>)
    requires Inv(config, s) && stale' <= s.stale
    ensures Inv(config, s.(stale := stale'))
  {
    StaleFrame(s.jobs, s.jobs, s.stale, stale');
  }

  /** Leasing one waiting job under the next sequence number. */
  lemma GrantKeeps(config: SchedulerConfig, s: System, r: JobRef, job: Job, stale': set<ReadyKey>, sequence': U64)
    requires Inv(config, s) && r in s.jobs && Waiting(s.jobs[r]) && stale' <= s.stale
    requires sequence' == SaturatingSuccessor(s.sequence, U64_MAX)
    requires JobOk(job) && job.state == Leased && job.spec == s.jobs[r].spec && job.attempts == s.jobs[r].attempts + 1
    requires TokensOk(s.jobs[r := job], sequence')
    ensures Inv(config, System(s.dags, s.jobs[r := job], stale', sequence'))
  {
    hide JobsOk, GraphsOk, DependenciesOk, StaleOk, TokensOk, CountsOk;
    var s' := System(s.dags, s.jobs[r := job], stale', sequence');
    assert s'.jobs.Keys == s.jobs.Keys;
    GrantRules(config, s, r, job, s');
    GrantCounts(config, s, r, job, s');
  }

  lemma GrantRules(config: SchedulerConfig, s: System, r: JobRef, job: Job, s': System)
    requires Inv(config, s) && r in s.jobs && Waiting(s.jobs[r]) && s'.stale <= s.stale
    requires s'.dags == s.dags && s'.jobs == s.jobs[r := job]
    requires JobOk(job) && job.state == Leased && job.spec == s.jobs[r].spec
    ensures JobsOk(s') && GraphsOk(s') && DependenciesOk(s'.dags, s'.jobs) && StaleOk(s'.jobs, s'.stale)
  {
    hide GraphsOk, TokensOk, CountsOk, StaleOk, DependenciesOk, JobsOk, JobOk;
    JobAt(config, s, r);
    DependenciesFrame(s.dags, s.jobs, s'.jobs);
    GraphsFrame(s, s');
    StaleFrame(s.jobs, s'.jobs, s.stale, s'.stale);
    JobsFrame(s, s', r);
  }

  lemma GrantCounts(config: SchedulerConfig, s: System, r: JobRef, job: Job, s': System)
    requires CountsOk(config, s) && r in s.jobs && job.attempts == s.jobs[r].attempts + 1
    requires s'.dags == s.dags && s'.jobs == s.jobs[r := job]
    requires s'.sequence == SaturatingSuccessor(s.sequence, U64_MAX)
    ensures CountsOk(config, s')
  {
    assert AttemptsOf(s'.jobs) == AttemptsOf(s.jobs)[r := job.attempts];
    SumUpdate(AttemptsOf(s.jobs), r, job.attempts);
    assert s'.jobs.Keys == s.jobs.Keys;
    assert |s'.jobs| == |s'.jobs.Keys| && |s.jobs| == |s.jobs.Keys|;
  }

  lemma TakeTokens(s: System, r: JobRef, owner: string, sequence': U64, expires: I64)
    requires TokensOk(s.jobs, s.sequence) && r in s.jobs
    requires sequence' == SaturatingSuccessor(s.sequence, U64_MAX)
    ensures TokensOk(s.jobs[r := LeasedTo(s.jobs[r], owner, Token(r.dag, r.job, sequence'), expires)], sequence')
  {
    var jobs' := s.jobs[r := LeasedTo(s.jobs[r], owner, Token(r.dag, r.job, sequence'), expires)];
    TokenNumberRoundTrip(r.dag, r.job, sequence');
    if sequence' < U64_MAX {
      forall r1, n: nat | HoldsToken(jobs', r1, n)
        ensures if r1 == r then n == sequence' else HoldsToken(s.jobs, r1, n) && n <= s.sequence
      {
      }
    }
  }

  lemma CompleteKeeps(
    config: SchedulerConfig, s: System, r: JobRef, owner: string, token: string, result: string, now: I64)
    requires Inv(config, s)
    ensures Inv(config, Complete(s, r, owner, token, result, now).0)
  {
    if |result| <= MAX_PAYLOAD_BYTES && LeaseError(s, r, owner, token, now) == None {
      FinishKeeps(config, s, r, result, now);
    }
  }

  lemma FinishKeeps(config: SchedulerConfig, s: System, r: JobRef, result: string, now: I64)
    requires Inv(config, s) && r in s.jobs && r.dag in s.dags && s.jobs[r].state == Leased
    ensures Inv(config, s.(jobs := WithReleased(s.dags[r.dag], WithSuccess(s.jobs, r, result), r, now)))
  {
    var jobs' := WithReleased(s.dags[r.dag], WithSuccess(s.jobs, r, result), r, now);
    var s' := s.(jobs := jobs');
    assert jobs'.Keys == s.jobs.Keys;
    hide GraphsOk, TokensOk, CountsOk, StaleOk, DependenciesOk, Done, ParentsIn, WithReleased, FinishStep, JobsOk;
    FinishSteps(s, r, result, now);
    FinishCounts(config, s, s');
    FinishFrame(s, s');
    CompleteDependencies(s, r, result, now);
  }

  lemma FinishSteps(s: System, r: JobRef, result: string, now: I64)
    requires JobsOk(s) && r in s.jobs && r.dag in s.dags && s.jobs[r].state == Leased
    ensures var jobs' := WithReleased(s.dags[r.dag], WithSuccess(s.jobs, r, result), r, now);
            forall c :: c in s.jobs ==> FinishStep(s.jobs[c], jobs'[c])
  {
    hide Done, ParentsIn;
    forall c | c in s.jobs
      ensures FinishStep(s.jobs[c], WithReleased(s.dags[r.dag], WithSuccess(s.jobs, r, result), r, now)[c])
    {
      assert JobOk(s.jobs[c]);
    }
  }

  lemma FinishCounts(config: SchedulerConfig, s: System, s': System)
    requires CountsOk(config, s)
    requires s'.dags == s.dags && s'.sequence == s.sequence && s'.jobs.Keys == s.jobs.Keys
    requires forall c :: c in s.jobs ==> FinishStep(s.jobs[c], s'.jobs[c])
    ensures CountsOk(config, s')
  {
    SameAttempts(s.jobs, s'.jobs);
  }

  lemma FinishFrame(s: System, s': System)
    requires JobsOk(s) && GraphsOk(s) && StaleOk(s.jobs, s.stale) && TokensOk(s.jobs, s.sequence)
    requires s'.dags == s.dags && s'.stale == s.stale && s'.sequence == s.sequence && s'.jobs.Keys == s.jobs.Keys
    requires forall c :: c in s.jobs ==> FinishStep(s.jobs[c], s'.jobs[c])
    ensures JobsOk(s') && GraphsOk(s') && StaleOk(s'.jobs, s'.stale) && TokensOk(s'.jobs, s'.sequence)
  {
    TokensFrame(s.jobs, s'.jobs, s.sequence);
    GraphsFrame(s, s');
    StaleFrame(s.jobs, s'.jobs, s.stale, s.stale);
  }

  /** What a successful completion may do to one job. */
  ghost predicate FinishStep(job: Job, job': Job) {
    && JobOk(job') && job'.spec == job.spec && job'.attempts == job.attempts
    && (job.state == Cancelled ==> job' == job)
    && (job'.lease.Some? ==> job' == job)
  }

  lemma DoneAfterSuccess(jobs: Jobs, r: JobRef, result: string, dag: string)
    requires r in jobs
    ensures Done(WithSuccess(jobs, r, result), dag) == Done(jobs, dag) + if dag == r.dag then {r.job} else {}
  {
    var mid := WithSuccess(jobs, r, result);
    forall x ensures x in Done(mid, dag) <==> x in Done(jobs, dag) || (dag == r.dag && x == r.job) {
      assert x in Done(mid, dag) <==> JobRef(dag, x) in mid && mid[JobRef(dag, x)].state == Succeeded;
      assert x in Done(jobs, dag) <==> JobRef(dag, x) in jobs && jobs[JobRef(dag, x)].state == Succeeded;
    }
  }

  lemma DoneAfterRelease(edges: Edges, jobs: Jobs, parent: JobRef, now: I64, dag: string)
    ensures Done(WithReleased(edges, jobs, parent, now), dag) == Done(jobs, dag)
  {
    SameDone(jobs, WithReleased(edges, jobs, parent, now), dag);
  }

  lemma CompleteDependencies(s: System, r: JobRef, result: string, now: I64)
    requires JobsOk(s) && DependenciesOk(s.dags, s.jobs) && r in s.jobs && s.jobs[r].state == Leased
    ensures DependenciesOk(s.dags, WithReleased(s.dags[r.dag], WithSuccess(s.jobs, r, result), r, now))
  {
    var edges := s.dags[r.dag];
    var mid := WithSuccess(s.jobs, r, result);
    var jobs' := WithReleased(edges, mid, r, now);
    forall c | c in jobs' && c.dag in s.dags ensures DependencyOk(s.dags[c.dag], jobs', c) {
      DoneAfterSuccess(s.jobs, r, result, c.dag);
      DoneAfterRelease(edges, mid, r, now, c.dag);
      assert DependencyOk(s.dags[c.dag], s.jobs, c);
      if c.dag == r.dag && mid[c].state == Pending && ParentsIn(edges, Done(mid, r.dag), c.job) {
        NewlyUnblocked(edges, Done(s.jobs, r.dag), r.job, c.job);
        assert Released(edges, mid, r, c);
      }
    }
  }

  /** Only a child of the job just finished can become unblocked by it. */
  lemma NewlyUnblocked(edges: Edges, done: set<string>, node: string, child: string)
    requires !ParentsIn(edges, done, child) && ParentsIn(edges, done + {node}, child)
    ensures Dependency(node, child) in edges
  {
    var e :| e in edges && e.to == child && e.from !in done;
    assert e == Dependency(node, child);
  }

  /** A new graph joins the others. */
  ghost predicate Joined(s: System, spec: DagSpec, now: I64, s': System) {
    && V.WellFormed(spec) && !HasCycle(V.EdgeSet(spec))
    && spec.id !in s.dags
    && s'.dags == s.dags[spec.id := V.EdgeSet(spec)]
    && s'.jobs == s.jobs + InitialJobs(spec, now)
  }

  /** What an accepted submission does. */
  ghost predicate Admitted(config: SchedulerConfig, s: System, spec: DagSpec, now: I64, s': System) {
    && Joined(s, spec, now, s')
    && |s.dags| < config.maxDags
    && s'.stale == s.stale && s'.sequence == s.sequence
  }

  lemma SubmitAdmits(config: SchedulerConfig, s: System, spec: DagSpec, now: I64)
    ensures Submit(config, s, spec, now).1.Ok? ==> Admitted(config, s, spec, now, Submit(config, s, spec, now).0)
    ensures Submit(config, s, spec, now).1.Err? ==> Submit(config, s, spec, now).0 == s
  {
    hide V.Validation, V.WellFormed, HasCycle, InitialJobs, IndexSize, V.Sources;
    V.AcceptedIff(spec);
  }

  lemma SubmitKeeps(config: SchedulerConfig, s: System, spec: DagSpec, now: I64)
    requires Inv(config, s)
    ensures Inv(config, Submit(config, s, spec, now).0)
  {
    hide Submit, Inv, Admitted;
    SubmitAdmits(config, s, spec, now);
    if Submit(config, s, spec, now).1.Ok? {
      AdmittedKeeps(config, s, spec, now, Submit(config, s, spec, now).0);
    }
  }

  lemma AdmittedKeeps(config: SchedulerConfig, s: System, spec: DagSpec, now: I64, s': System)
    requires Inv(config, s) && Admitted(config, s, spec, now, s')
    ensures Inv(config, s')
  {
    hide JobsOk, GraphsOk, DependenciesOk, StaleOk, TokensOk, CountsOk, Joined;
    SubmitJobs(s, spec, now, s');
    SubmitGraphs(s, spec, now, s');
    SubmitDependencies(s, spec, now, s');
    AdmittedCounts(config, s, spec, now, s');
    AdmittedTokens(config, s, spec, now, s');
  }

  lemma AdmittedCounts(config: SchedulerConfig, s: System, spec: DagSpec, now: I64, s': System)
    requires JobsOk(s) && CountsOk(config, s) && Admitted(config, s, spec, now, s')
    ensures CountsOk(config, s')
  {
    hide JobsOk, CountsOk, InitialJobs, V.WellFormed, HasCycle;
    SubmitJobs(s, spec, now, s');
    InitialCounts(spec, now);
    SubmitCounts(config, s, spec.id, InitialJobs(spec, now), s');
  }

  lemma AdmittedTokens(config: SchedulerConfig, s: System, spec: DagSpec, now: I64, s': System)
    requires JobsOk(s) && StaleOk(s.jobs, s.stale) && TokensOk(s.jobs, s.sequence) && Admitted(config, s, spec, now, s')
    ensures StaleOk(s'.jobs, s'.stale) && TokensOk(s'.jobs, s'.sequence)
  {
    hide JobsOk, StaleOk, TokensOk, InitialJobs, V.WellFormed, HasCycle;
    InitialJobsOk(spec, now);
    SubmitJobs(s, spec, now, s');
    StaleFrame(s.jobs, s'.jobs, s.stale, s.stale);
    UnleasedTokens(s.jobs, InitialJobs(spec, now), s.sequence);
  }

  lemma InitialJobsOk(spec: DagSpec, now: I64)
    requires V.WellFormed(spec)
    ensures forall r :: r in InitialJobs(spec, now) <==> r.dag == spec.id && r.job in V.JobIds(spec)
    ensures forall r :: r in InitialJobs(spec, now) ==>
      var job := InitialJobs(spec, now)[r];
      && JobOk(job) && job.spec.id == r.job && job.spec in spec.jobs && job == InitialJob(spec, job.spec, now)
  {
    var jobs := InitialJobs(spec, now);
    forall r | r in jobs ensures JobOk(jobs[r]) && jobs[r].spec.id == r.job && jobs[r].spec in spec.jobs {
      assert JobError(jobs[r].spec) == None;
    }
  }

  lemma SubmitJobs(s: System, spec: DagSpec, now: I64, s': System)
    requires JobsOk(s) && Joined(s, spec, now, s')
    ensures JobsOk(s')
    ensures InitialJobs(spec, now).Keys !! s.jobs.Keys
  {
    InitialJobsOk(spec, now);
    JobsJoin(s, InitialJobs(spec, now), spec.id, s');
  }

  lemma JobsJoin(s: System, added: Jobs, dag: string, s': System)
    requires JobsOk(s) && dag !in s.dags && s'.dags.Keys == s.dags.Keys + {dag} && s'.jobs == s.jobs + added
    requires forall r :: r in added ==> r.dag == dag && added[r].spec.id == r.job && JobOk(added[r])
    ensures JobsOk(s') && added.Keys !! s.jobs.Keys
  {
    hide JobOk;
  }

  lemma UnleasedTokens(jobs: Jobs, added: Jobs, sequence: U64)
    requires TokensOk(jobs, sequence) && forall r :: r in added ==> added[r].lease.None?
    ensures TokensOk(jobs + added, sequence)
  {
    forall r, n: nat | HoldsToken(jobs + added, r, n) ensures HoldsToken(jobs, r, n) {
    }
  }

  lemma SubmitGraphs(s: System, spec: DagSpec, now: I64, s': System)
    requires JobsOk(s) && GraphsOk(s) && Joined(s, spec, now, s')
    ensures GraphsOk(s')
  {
    InitialJobsOk(spec, now);
    V.EndpointsOfWellFormed(spec);
    forall dag | dag in s'.dags ensures GraphOk(s'.dags[dag], s'.jobs, dag) {
      if dag != spec.id {
        assert GraphOk(s.dags[dag], s.jobs, dag);
      }
    }
  }

  lemma SubmitDependencies(s: System, spec: DagSpec, now: I64, s': System)
    requires JobsOk(s) && DependenciesOk(s.dags, s.jobs) && Joined(s, spec, now, s')
    ensures DependenciesOk(s'.dags, s'.jobs)
  {
    InitialJobsOk(spec, now);
    forall r | r in s'.jobs && r.dag in s'.dags ensures DependencyOk(s'.dags[r.dag], s'.jobs, r) {
      if r.dag == spec.id {
        assert Done(s'.jobs, spec.id) == {};
      } else {
        assert r in s.jobs;
        SameDone(s.jobs, s'.jobs, r.dag);
        assert DependencyOk(s.dags[r.dag], s.jobs, r);
      }
    }
  }

  lemma SubmitCounts(config: SchedulerConfig, s: System, dag: string, added: Jobs, s': System)
    requires CountsOk(config, s) && dag !in s.dags && |s.dags| < config.maxDags
    requires added.Keys !! s.jobs.Keys && |added.Keys| <= MAX_JOBS_PER_DAG
    requires forall r :: r in added ==> added[r].attempts == 0
    requires s'.dags.Keys == s.dags.Keys + {dag} && s'.jobs == s.jobs + added && s'.sequence == s.sequence
    ensures CountsOk(config, s')
  {
    KeyCount(s.dags, s'.dags, {dag});
    AddedCounts(s.jobs, added);
  }

  lemma InitialCounts(spec: DagSpec, now: I64)
    requires V.WellFormed(spec)
    ensures |InitialJobs(spec, now).Keys| == |spec.jobs| <= MAX_JOBS_PER_DAG
    ensures forall r :: r in InitialJobs(spec, now) ==> r.dag == spec.id && InitialJobs(spec, now)[r].attempts == 0
  {
    hide InitialJobs;
    InitialJobsOk(spec, now);
    SameSize(spec, InitialJobs(spec, now).Keys);
    V.DistinctIdCount(spec.jobs);
  }

  lemma AddedCounts(jobs: Jobs, added: Jobs)
    requires jobs.Keys !! added.Keys && forall r :: r in added ==> added[r].attempts == 0
    ensures Sum(AttemptsOf(jobs + added)) == Sum(AttemptsOf(jobs))
    ensures |jobs + added| == |jobs| + |added.Keys|
  {
    assert (jobs + added).Keys == jobs.Keys + added.Keys;
    SumWithZeros(AttemptsOf(jobs), AttemptsOf(jobs + added));
    KeyCount(jobs, jobs + added, added.Keys);
  }

  lemma KeyCount<K, T>(m: map<K, T>, m': map<K, T>, more: set<K>)
    requires m.Keys !! more && m'.Keys == m.Keys + more
    ensures |m'| == |m| + |more|
  {
    assert |m'| == |m'.Keys| && |m| == |m.Keys|;
  }

  lemma SameSize(spec: DagSpec, refs: set<JobRef>)
    requires forall r :: r in refs <==> r.dag == spec.id && r.job in V.JobIds(spec)
    ensures |refs| == |V.JobIds(spec)|
  {
    RefsOf(spec.id, V.JobIds(spec), refs);
  }

  lemma {:induction false} RefsOf(dag: string, ids: set<string>, refs: set<JobRef>)
    requires forall r :: r in refs <==> r.dag == dag && r.job in ids
    ensures |refs| == |ids|
    decreases ids
  {
    if ids == {} {
      assert refs == {};
    } else {
      var id :| id in ids;
      RefsOf(dag, ids - {id}, refs - {JobRef(dag, id)});
      assert JobRef(dag, id) in refs;
      assert |refs| == |refs - {JobRef(dag, id)}| + 1;
      assert |ids| == |ids - {id}| + 1;
    }
  }

  /** Every call keeps the invariant. */
  lemma StepKeeps(config: SchedulerConfig, s: System, call: Call)
    requires Inv(config, s)
    ensures Inv(config, Step(config, s, call).0)
  {
    match call
    case SubmitCall(spec, now) => SubmitKeeps(config, s, spec, now);
    case ClaimCall(owner, now, leaseMs) =>
      ReapKeeps(config, s, now);
      TakeKeeps(config, Reap(config, s, now).0, owner, now, leaseMs);
    case HeartbeatCall(ref, owner, token, now, leaseMs) => HeartbeatKeeps(config, s, ref, owner, token, now, leaseMs);
    case CompleteCall(ref, owner, token, result, now) => CompleteKeeps(config, s, ref, owner, token, result, now);
    case FailCall(ref, owner, token, now) => FailKeeps(config, s, ref, owner, token, now);
    case ReapCall(now) => ReapKeeps(config, s, now);
    case CancelCall(dag) => CancelKeeps(config, s, dag);
  }

  lemma StepIsKeeps(config: SchedulerConfig, s: System, call: Call, s': System, reply: Reply)
    requires Inv(config, s) && StepIs(config, s, call, s', reply)
    ensures Inv(config, s')
  {
    StepKeeps(config, s, call);
  }

  lemma RunStartKeeps(config: SchedulerConfig, states: seq<System>, calls: seq<Call>, replies: seq<Reply>)
    requires IsRun(config, states, calls, replies)
    ensures Inv(config, states[0])
  {
    EmptyOk(config, states[0]);
  }

  lemma RunStepKeeps(config: SchedulerConfig, states: seq<System>, calls: seq<Call>, replies: seq<Reply>, i: nat)
    requires IsRun(config, states, calls, replies) && i < |calls| && Inv(config, states[i])
    ensures Inv(config, states[i + 1])
  {
    StepIsKeeps(config, states[i], calls[i], states[i + 1], replies[i]);
  }

  /** Every state of every run satisfies the invariant. */
  lemma RunKeeps(config: SchedulerConfig, states: seq<System>, calls: seq<Call>, replies: seq<Reply>, i: nat)
    requires IsRun(config, states, calls, replies) && i <= |calls|
    ensures Inv(config, states[i])
  {
    RunStartKeeps(config, states, calls, replies);
    for j := 0 to i
      invariant Inv(config, states[j])
    {
      RunStepKeeps(config, states, calls, replies, j);
    }
  }

  /** A call that answers with an error has changed nothing. */
  lemma ErrorsChangeNothing(config: SchedulerConfig, s: System, call: Call)
    requires IsError(Step(config, s, call).1)
    ensures Step(config, s, call).0 == s
  {
  }
}
