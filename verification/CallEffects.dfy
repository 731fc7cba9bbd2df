/** What each call of the lease machine answers and changes, said of the jobs it finds and leaves.

    The operations of module LeaseMachine are functions; here their answers and effects are stated in terms
    of rows, deadlines and counts, so that the statements stand without the functions' bodies. */
module CallEffects {
  import opened Prelude
  import opened Domain
  import opened Graphs
  import opened Multigraphs
  import opened B = Backoff
  import opened LeaseMachine
  import opened LeaseInvariants
  import V = Validation

  // ----- Submissions -----

  ghost function WaitingRefs(jobs: Jobs): set<JobRef> {
    set r | r in jobs && (jobs[r].state == Ready || jobs[r].state == RetryWait)
  }

  /** The submitted jobs that no edge leads to. */
  ghost function Roots(spec: DagSpec): set<string> {
    set id | id in V.JobIds(spec) && forall e :: e in spec.dependencies ==> e.to != id
  }

  ghost predicate Admissible(spec: DagSpec) {
    V.WellFormed(spec) && !HasCycle(V.EdgeSet(spec))
  }

  /** Waiting jobs, leftovers of cancelled ones and the new jobs without parents fit; the largest limit is none. */
  ghost predicate ReadyFits(config: SchedulerConfig, s: System, spec: DagSpec) {
    config.maxReadyJobs == U64_MAX || |WaitingRefs(s.jobs)| + |s.stale| + |Roots(spec)| <= config.maxReadyJobs
  }

  lemma RootsAreSources(spec: DagSpec)
    ensures Roots(spec) == V.Sources(V.JobIds(spec), V.EdgeSet(spec))
  {
    forall id | id in V.JobIds(spec)
      ensures ParentsIn(V.EdgeSet(spec), {}, id) <==> forall e :: e in spec.dependencies ==> e.to != id
    {
      if ParentsIn(V.EdgeSet(spec), {}, id) {
        assert forall e :: e in spec.dependencies ==> e in V.EdgeSet(spec);
      }
    }
  }

  /** One index entry per waiting job, and the leftovers besides. */
  lemma IndexCounts(s: System)
    requires StaleOk(s.jobs, s.stale)
    ensures IndexSize(s) == |WaitingRefs(s.jobs)| + |s.stale|
  {
    hide KeyOf;
    forall k | k in s.stale ensures k !in LiveKeys(s.jobs) {
      assert Leftover(s.jobs, k);
      LiveRef(s.jobs, k);
    }
    KeysOfRefs(s.jobs, WaitingRefs(s.jobs), LiveKeys(s.jobs));
    assert |LiveKeys(s.jobs) + s.stale| == |LiveKeys(s.jobs)| + |s.stale|;
  }

  lemma {:induction false} KeysOfRefs(jobs: Jobs, refs: set<JobRef>, keys: set<ReadyKey>)
    requires refs <= jobs.Keys && keys == (set r | r in refs :: KeyOf(r, jobs[r]))
    ensures |keys| == |refs|
    decreases refs
  {
    if refs == {} {
      assert keys == {};
    } else {
      var r :| r in refs;
      var k := KeyOf(r, jobs[r]);
      forall o | o in refs && o != r ensures KeyOf(o, jobs[o]) != k {
        assert RefOf(KeyOf(o, jobs[o])) == o && RefOf(k) == r;
      }
      assert keys - {k} == (set o | o in refs - {r} :: KeyOf(o, jobs[o]));
      KeysOfRefs(jobs, refs - {r}, keys - {k});
      assert |keys| == |keys - {k}| + 1 && |refs| == |refs - {r}| + 1;
    }
  }

  /** When a submission is accepted, and what each refusal says. */
  lemma SubmitAnswers(config: SchedulerConfig, s: System, spec: DagSpec, now: I64)
    requires Inv(config, s)
    ensures var answer := Submit(config, s, spec, now).1;
            && (answer == Ok(()) <==>
                  && Admissible(spec) && spec.id !in s.dags
                  && |s.dags| < config.maxDags && ReadyFits(config, s, spec))
            && (!Admissible(spec) ==> answer.Err? && answer.error.ValidationFailed? && V.Validation(spec) == Err(answer.error.error))
            && (Admissible(spec) && spec.id in s.dags ==> answer == Err(DagAlreadyExists))
            && (Admissible(spec) && spec.id !in s.dags && !(|s.dags| < config.maxDags && ReadyFits(config, s, spec)) ==>
                  answer == Err(Overloaded))
    ensures Submit(config, s, spec, now).1.Err? ==> Submit(config, s, spec, now).0 == s
  {
    IndexCounts(s);
    RootsAreSources(spec);
    V.AcceptedIff(spec);
    hide Inv, V.WellFormed, HasCycle, V.Validation, IndexSize, Roots, WaitingRefs, V.Sources, InitialJobs;
  }

  /** What an accepted submission adds: every job once, ready exactly without an edge to it, available now. */
  lemma SubmitAdds(config: SchedulerConfig, s: System, spec: DagSpec, now: I64)
    requires Inv(config, s) && Submit(config, s, spec, now).1.Ok?
    ensures var s' := Submit(config, s, spec, now).0;
            && (forall job :: job in spec.jobs ==>
                  var r := JobRef(spec.id, job.id);
                  && r in s'.jobs
                  && s'.jobs[r] == Job(job, if job.id in Roots(spec) then Ready else Pending, 0, now, None, None))
            && (forall r :: r in s'.jobs <==> r in s.jobs || (r.dag == spec.id && exists job :: job in spec.jobs && job.id == r.job))
            && (forall r :: r in s.jobs ==> s'.jobs[r] == s.jobs[r])
            && s'.dags == s.dags[spec.id := set e | e in spec.dependencies]
            && s'.stale == s.stale && s'.sequence == s.sequence
  {
    hide V.Validation, IndexSize, V.Sources, HasCycle, GraphsOk, DependenciesOk, StaleOk, TokensOk, CountsOk;
    V.AcceptedIff(spec);
    InitialJobsOk(spec, now);
    RootsAreSources(spec);
    var s' := Submit(config, s, spec, now).0;
    var added := InitialJobs(spec, now);
    hide InitialJobs, JobOk;
    forall job | job in spec.jobs
      ensures var r := JobRef(spec.id, job.id);
              r in added && added[r] == Job(job, if job.id in Roots(spec) then Ready else Pending, 0, now, None, None)
    {
      SameSpec(spec, job, added[JobRef(spec.id, job.id)].spec);
      RootState(spec, job, now);
    }
  }

  lemma SameSpec(spec: DagSpec, a: JobSpec, b: JobSpec)
    requires V.WellFormed(spec) && a in spec.jobs && b in spec.jobs && a.id == b.id
    ensures a == b
  {
  }

  lemma RootState(spec: DagSpec, job: JobSpec, now: I64)
    requires job in spec.jobs
    ensures InitialJob(spec, job, now) == Job(job, if job.id in Roots(spec) then Ready else Pending, 0, now, None, None)
  {
    RootsAreSources(spec);
  }

  /** After an accepted submission the index is within its limit. */
  lemma SubmitStaysWithin(config: SchedulerConfig, s: System, spec: DagSpec, now: I64)
    requires Inv(config, s) && Submit(config, s, spec, now).1.Ok? && config.maxReadyJobs < U64_MAX
    ensures IndexSize(Submit(config, s, spec, now).0) <= config.maxReadyJobs
  {
    hide Submit, IndexSize, Roots, WaitingRefs;
    SubmitKeeps(config, s, spec, now);
    SubmitAnswers(config, s, spec, now);
    var s' := Submit(config, s, spec, now).0;
    SubmitAdds(config, s, spec, now);
    IndexCounts(s');
    NewlyWaiting(config, s, spec, now);
  }

  lemma NewlyWaiting(config: SchedulerConfig, s: System, spec: DagSpec, now: I64)
    requires Inv(config, s) && Submit(config, s, spec, now).1.Ok?
    ensures |WaitingRefs(Submit(config, s, spec, now).0.jobs)| == |WaitingRefs(s.jobs)| + |Roots(spec)|
  {
    hide Inv, Submit, WaitingRefs;
    SubmitAnswers(config, s, spec, now);
    SubmitAdds(config, s, spec, now);
    NoneThere(config, s, spec.id);
    hide ReadyFits, Admissible;
    var jobs' := Submit(config, s, spec, now).0.jobs;
    forall r | r in jobs' && r.dag == spec.id
      ensures jobs'[r].state == (if r.job in Roots(spec) then Ready else Pending)
    {
      var job :| job in spec.jobs && job.id == r.job;
      assert r == JobRef(spec.id, job.id);
    }
    forall id | id in Roots(spec) ensures JobRef(spec.id, id) in jobs' {
      var job :| job in spec.jobs && job.id == id;
    }
    hide Roots;
    AddedWaiters(s.jobs, jobs', spec.id, Roots(spec));
  }

  lemma AddedWaiters(jobs: Jobs, jobs': Jobs, dag: string, roots: set<string>)
    requires forall r :: r in jobs ==> r.dag != dag && r in jobs' && jobs'[r] == jobs[r]
    requires forall r :: r in jobs' && r.dag != dag ==> r in jobs
    requires forall r :: r in jobs' && r.dag == dag ==> jobs'[r].state == if r.job in roots then Ready else Pending
    requires forall id :: id in roots ==> JobRef(dag, id) in jobs'
    ensures |WaitingRefs(jobs')| == |WaitingRefs(jobs)| + |roots|
  {
    var added := set r | r in jobs' && r.dag == dag && r.job in roots;
    forall r ensures r in added <==> r.dag == dag && r.job in roots {
      if r.dag == dag && r.job in roots {
        assert r == JobRef(dag, r.job);
      }
    }
    RefsOf(dag, roots, added);
    assert WaitingRefs(jobs') == WaitingRefs(jobs) + added;
    assert WaitingRefs(jobs) !! added;
  }

  lemma NoneThere(config: SchedulerConfig, s: System, dag: string)
    requires Inv(config, s) && dag !in s.dags
    ensures forall r :: r in s.jobs ==> r.dag != dag
  {
    forall r | r in s.jobs ensures r.dag != dag {
      JobAt(config, s, r);
    }
  }

  // ----- Reaping -----

  /** A lease whose deadline has come. */
  predicate Overdue(job: Job, now: I64) {
    job.state == Leased && job.lease.Some? && job.lease.value.expiresAtMs <= now
  }

  /** One attempt has failed: the lease is gone, and the job is dead exactly when its budget was spent. */
  ghost predicate SentBack(config: SchedulerConfig, jobId: string, job: Job, job': Job, now: I64) {
    && job'.spec == job.spec && job'.attempts == job.attempts && job'.result == job.result && job'.lease == None
    && (job.attempts >= job.spec.maxAttempts ==> job'.state == DeadLettered && job'.availableAtMs == job.availableAtMs)
    && (job.attempts < job.spec.maxAttempts ==>
          && job'.state == RetryWait
          && (PositiveConfig(config) ==> job'.availableAtMs == Min(I64_MAX, now + B.Delay(config, jobId, job.attempts))))
  }

  lemma RetriedIsSentBack(config: SchedulerConfig, jobId: string, job: Job, now: I64)
    requires job.attempts >= 1
    ensures SentBack(config, jobId, job, Retried(config, jobId, job, now), now)
  {
    hide B.Delay, RetryAt;
    if PositiveConfig(config) {
      RetryAtExact(config, jobId, job.attempts, now);
    }
  }

  ghost function Changed(jobs: Jobs, jobs': Jobs): set<JobRef> {
    set r | r in jobs && r in jobs' && jobs'[r] != jobs[r]
  }

  /** A reap sends back exactly the overdue jobs and answers how many rows it changed. */
  lemma ReapAnswers(config: SchedulerConfig, s: System, now: I64)
    requires Inv(config, s)
    ensures var (s', n) := Reap(config, s, now);
            && s'.jobs.Keys == s.jobs.Keys && s'.dags == s.dags && s'.stale == s.stale && s'.sequence == s.sequence
            && (forall r :: r in s.jobs && !Overdue(s.jobs[r], now) ==> s'.jobs[r] == s.jobs[r])
            && (forall r :: r in s.jobs && Overdue(s.jobs[r], now) ==> SentBack(config, r.job, s.jobs[r], s'.jobs[r], now))
            && n == |Changed(s.jobs, s'.jobs)|
  {
    hide GraphsOk, DependenciesOk, StaleOk, TokensOk, CountsOk;
    var s' := Reap(config, s, now).0;
    forall r | r in s.jobs && Overdue(s.jobs[r], now)
      ensures SentBack(config, r.job, s.jobs[r], s'.jobs[r], now) && s'.jobs[r] != s.jobs[r]
    {
      assert JobOk(s.jobs[r]);
      RetriedIsSentBack(config, r.job, s.jobs[r], now);
    }
    hide SentBack, Retried, JobOk;
    assert Changed(s.jobs, s'.jobs) == ExpiredRefs(s.jobs, now);
  }

  // ----- Claims -----

  predicate IsDue(jobs: Jobs, r: JobRef, now: I64) {
    r in jobs && (jobs[r].state == Ready || jobs[r].state == RetryWait) && jobs[r].availableAtMs <= now
  }

  /** Earlier availability first, then higher priority, then the graph's and the job's name in byte order. */
  ghost predicate GoesBefore(jobs: Jobs, r: JobRef, o: JobRef)
    requires r in jobs && o in jobs
  {
    var a, b := jobs[r], jobs[o];
    if a.availableAtMs != b.availableAtMs then a.availableAtMs < b.availableAtMs
    else if a.spec.priority != b.spec.priority then a.spec.priority > b.spec.priority
    else if r.dag != o.dag then LexLe(r.dag, o.dag)
    else LexLe(r.job, o.job)
  }

  lemma KeyOrderIs(jobs: Jobs, r: JobRef, o: JobRef)
    requires r in jobs && o in jobs && ValidPolicy(jobs[r].spec) && ValidPolicy(jobs[o].spec)
    ensures KeyLe(KeyOf(r, jobs[r]), KeyOf(o, jobs[o])) <==> GoesBefore(jobs, r, o)
  {
    hide StrLe, LexLe;
    StrLeIsLex(r.dag, o.dag);
    StrLeIsLex(r.job, o.job);
  }

  /** The due jobs of a system and its eligible keys. */
  lemma DueKeys(jobs: Jobs, now: I64)
    ensures Eligible(jobs, now) == {} <==> forall r :: !IsDue(jobs, r, now)
    ensures forall r :: IsDue(jobs, r, now) ==> KeyOf(r, jobs[r]) in Eligible(jobs, now)
  {
    hide KeyOf;
    forall r | IsDue(jobs, r, now) ensures KeyOf(r, jobs[r]) in Eligible(jobs, now) {
    }
    if k :| k in Eligible(jobs, now) {
      var r :| r in jobs && Waiting(jobs[r]) && jobs[r].availableAtMs <= now && k == KeyOf(r, jobs[r]);
      assert IsDue(jobs, r, now);
    }
  }

  /** What is written about a granted claim, in the row and in the reply. */
  ghost predicate Granted(job: Job, job': Job, c: ClaimedJob, owner: string, now: I64, leaseMs: I64) {
    && job' == job.(state := Leased, attempts := job'.attempts, lease := job'.lease)
    && job'.attempts == job.attempts + 1
    && job'.lease == Some(Lease(owner, c.leaseToken, c.leaseExpiresAtMs))
    && c.leaseExpiresAtMs == Min(I64_MAX, now + leaseMs)
    && c.kind == job.spec.kind && c.payload == job.spec.payload && c.attempt == job'.attempts
  }

  /** Claiming after the reap: nothing exactly when nothing is due, otherwise the due job that goes before all
      others, with everything else left alone but the leftovers in front of it. */
  lemma TakeAnswers(config: SchedulerConfig, s: System, owner: string, now: I64, leaseMs: I64)
    requires Inv(config, s) && leaseMs > 0
    ensures var (s', claimed) := Take(s, owner, now, leaseMs);
            && (claimed == None <==> forall r :: !IsDue(s.jobs, r, now))
            && (claimed == None ==> s'.jobs == s.jobs && s'.sequence == s.sequence
                                    && s'.stale == set k | k in s.stale && k.availableAtMs > now)
            && s'.dags == s.dags
    ensures var (s', claimed) := Take(s, owner, now, leaseMs);
            claimed.Some? ==>
              var c := claimed.value;
              var r := JobRef(c.dagId, c.jobId);
              && IsDue(s.jobs, r, now)
              && (forall o :: IsDue(s.jobs, o, now) ==> GoesBefore(s.jobs, r, o))
              && s'.jobs.Keys == s.jobs.Keys
              && (forall o :: o in s.jobs && o != r ==> s'.jobs[o] == s.jobs[o])
              && Granted(s.jobs[r], s'.jobs[r], c, owner, now, leaseMs)
              && s'.sequence == Min(s.sequence + 1, U64_MAX)
              && c.leaseToken == "lease-" + r.dag + "-" + r.job + "-" + Decimal(s'.sequence)
  {
    DueKeys(s.jobs, now);
    if Eligible(s.jobs, now) != {} {
      PickGoesFirst(config, s, now);
      PickIsGranted(config, s, owner, now, leaseMs);
    }
    hide Inv, KeyLe, Eligible, GoesBefore, Granted, Token;
  }

  lemma PickGoesFirst(config: SchedulerConfig, s: System, now: I64)
    requires Inv(config, s) && Eligible(s.jobs, now) != {}
    ensures var r := RefOf(LeastKey(Eligible(s.jobs, now)));
            IsDue(s.jobs, r, now) && forall o :: IsDue(s.jobs, o, now) ==> GoesBefore(s.jobs, r, o)
  {
    hide Inv, KeyLe, GoesBefore, Eligible;
    var key := LeastKey(Eligible(s.jobs, now));
    EligibleRef(s.jobs, now, key);
    var r := RefOf(key);
    DueKeys(s.jobs, now);
    JobAt(config, s, r);
    forall o | IsDue(s.jobs, o, now) ensures GoesBefore(s.jobs, r, o) {
      JobAt(config, s, o);
      KeyOrderIs(s.jobs, r, o);
    }
  }

  lemma PickIsGranted(config: SchedulerConfig, s: System, owner: string, now: I64, leaseMs: I64)
    requires Inv(config, s) && leaseMs > 0 && Eligible(s.jobs, now) != {}
    ensures var (s', claimed) := Take(s, owner, now, leaseMs);
            && claimed.Some?
            && var c := claimed.value;
               var r := JobRef(c.dagId, c.jobId);
               && r == RefOf(LeastKey(Eligible(s.jobs, now)))
               && r in s.jobs && s'.jobs.Keys == s.jobs.Keys
               && (forall o :: o in s.jobs && o != r ==> s'.jobs[o] == s.jobs[o])
               && Granted(s.jobs[r], s'.jobs[r], c, owner, now, leaseMs)
               && s'.sequence == Min(s.sequence + 1, U64_MAX)
               && c.leaseToken == "lease-" + r.dag + "-" + r.job + "-" + Decimal(s'.sequence)
  {
    hide Inv, KeyLe, Eligible, Decimal;
    var key := LeastKey(Eligible(s.jobs, now));
    EligibleRef(s.jobs, now, key);
    JobAt(config, s, RefOf(key));
  }

  /** A claim is refused exactly for a bad owner or lease, and otherwise reaps before it takes. */
  lemma ClaimAnswers(config: SchedulerConfig, s: System, owner: string, now: I64, leaseMs: I64)
    ensures var (s', answer) := Claim(config, s, owner, now, leaseMs);
            var refused := |owner| == 0 || |owner| > 64 || leaseMs <= 0 || leaseMs > config.maxLeaseMs;
            && (refused ==> answer == Err(InvalidLease) && s' == s)
            && (!refused ==>
                  var (taken, claimed) := Take(Reap(config, s, now).0, owner, now, leaseMs);
                  s' == taken && answer == Ok(claimed))
  {
    hide Take, Reap;
  }

  // ----- Calls that present a lease -----

  /** The caller holds the lease, and its deadline is still ahead. */
  predicate Entitled(s: System, r: JobRef, owner: string, token: string, now: I64) {
    && r in s.jobs && s.jobs[r].state == Leased && s.jobs[r].lease.Some?
    && s.jobs[r].lease.value.owner == owner && s.jobs[r].lease.value.token == token
    && now < s.jobs[r].lease.value.expiresAtMs
  }

  /** Who is turned away, and why. */
  lemma TurnedAway(config: SchedulerConfig, s: System, r: JobRef, owner: string, token: string, now: I64)
    requires Inv(config, s)
    ensures var verdict := LeaseError(s, r, owner, token, now);
            && (verdict == None <==> Entitled(s, r, owner, token, now))
            && (r.dag !in s.dags ==> verdict == Some(DagNotFound))
            && (r.dag in s.dags && r !in s.jobs ==> verdict == Some(JobNotFound))
            && (r in s.jobs && !Entitled(s, r, owner, token, now) ==> verdict == Some(LeaseConflict))
  {
    if r in s.jobs {
      JobAt(config, s, r);
    }
    hide Inv;
  }

  /** An accepted heartbeat sets the deadline to `now` plus the new duration, answers it, and changes nothing else. */
  lemma HeartbeatAnswers(
    config: SchedulerConfig, s: System, r: JobRef, owner: string, token: string, now: I64, leaseMs: I64)
    requires Inv(config, s)
    ensures var (s', answer) := Heartbeat(config, s, r, owner, token, now, leaseMs);
            var deadline := Min(I64_MAX, now + leaseMs);
            && (leaseMs <= 0 || leaseMs > config.maxLeaseMs ==> answer == Err(InvalidLease))
            && (0 < leaseMs <= config.maxLeaseMs && !Entitled(s, r, owner, token, now) ==>
                  answer.Err? && Some(answer.error) == LeaseError(s, r, owner, token, now))
            && (0 < leaseMs <= config.maxLeaseMs && Entitled(s, r, owner, token, now) ==>
                  && answer == Ok(deadline)
                  && s' == s.(jobs := s.jobs[r := s.jobs[r].(lease := Some(Lease(owner, token, deadline)))]))
            && (answer.Err? ==> s' == s)
  {
    TurnedAway(config, s, r, owner, token, now);
    hide Inv, LeaseError;
  }

  /** The pending children of `r` that its success leaves without an unfinished parent. */
  ghost predicate SetFree(s: System, r: JobRef, c: JobRef) {
    && c in s.jobs && c.dag == r.dag && c != r && s.jobs[c].state == Pending
    && r.dag in s.dags && Dependency(r.job, c.job) in s.dags[r.dag]
    && forall p :: Dependency(p, c.job) in s.dags[r.dag] ==>
         p == r.job || (JobRef(r.dag, p) in s.jobs && s.jobs[JobRef(r.dag, p)].state == Succeeded)
  }

  /** An accepted completion keeps the result, makes exactly the freed children ready from now on, and changes
      nothing else. */
  lemma CompleteAnswers(
    config: SchedulerConfig, s: System, r: JobRef, owner: string, token: string, result: string, now: I64)
    requires Inv(config, s)
    ensures var (s', answer) := Complete(s, r, owner, token, result, now);
            && (|result| > 4096 ==> answer == Err(ResultTooLarge))
            && (|result| <= 4096 && !Entitled(s, r, owner, token, now) ==>
                  answer.Err? && Some(answer.error) == LeaseError(s, r, owner, token, now))
            && (|result| <= 4096 && Entitled(s, r, owner, token, now) ==> answer == Ok(()))
            && (answer.Err? ==> s' == s)
            && (answer.Ok? ==>
                  && s'.jobs.Keys == s.jobs.Keys && s'.dags == s.dags && s'.stale == s.stale && s'.sequence == s.sequence
                  && s'.jobs[r] == s.jobs[r].(state := Succeeded, lease := None, result := Some(result))
                  && forall c :: c in s.jobs && c != r ==>
                       s'.jobs[c] == if SetFree(s, r, c) then s.jobs[c].(state := Ready, availableAtMs := now) else s.jobs[c])
  {
    TurnedAway(config, s, r, owner, token, now);
    if |result| <= MAX_PAYLOAD_BYTES && Entitled(s, r, owner, token, now) {
      JobAt(config, s, r);
      forall c | c in s.jobs && c != r
        ensures SetFree(s, r, c) <==> Released(s.dags[r.dag], WithSuccess(s.jobs, r, result), r, c)
      {
        FreedIsReleased(s, r, result, c);
      }
    }
    hide Inv, LeaseError, Released, SetFree;
  }

  lemma FreedIsReleased(s: System, r: JobRef, result: string, c: JobRef)
    requires r in s.jobs && r.dag in s.dags && c in s.jobs && c != r
    ensures SetFree(s, r, c) <==> Released(s.dags[r.dag], WithSuccess(s.jobs, r, result), r, c)
  {
    var edges := s.dags[r.dag];
    DoneAfterSuccess(s.jobs, r, result, r.dag);
    forall p ensures p in Done(s.jobs, r.dag) <==> JobRef(r.dag, p) in s.jobs && s.jobs[JobRef(r.dag, p)].state == Succeeded {
      assert JobRef(r.dag, p).job == p;
    }
    hide Done;
    var done := Done(WithSuccess(s.jobs, r, result), r.dag);
    assert ParentsIn(edges, done, c.job) <==> forall p :: Dependency(p, c.job) in edges ==> p in done by {
      forall e | e in edges && e.to == c.job ensures e == Dependency(e.from, c.job) {
      }
    }
  }

  /** An accepted failure answers the state its job's record has afterwards: dead-lettered exactly when the
      attempt budget was spent. */
  lemma FailAnswers(config: SchedulerConfig, s: System, r: JobRef, owner: string, token: string, now: I64)
    requires Inv(config, s)
    ensures var (s', answer) := Fail(config, s, r, owner, token, now);
            && (!Entitled(s, r, owner, token, now) ==>
                  answer.Err? && Some(answer.error) == LeaseError(s, r, owner, token, now) && s' == s)
            && (Entitled(s, r, owner, token, now) ==>
                  && answer.Ok?
                  && s' == s.(jobs := s.jobs[r := s'.jobs[r]])
                  && r in s'.jobs && SentBack(config, r.job, s.jobs[r], s'.jobs[r], now)
                  && answer == Ok(s'.jobs[r].state)
                  && answer == Ok(if s.jobs[r].attempts == s.jobs[r].spec.maxAttempts then DeadLettered else RetryWait))
  {
    TurnedAway(config, s, r, owner, token, now);
    if Entitled(s, r, owner, token, now) {
      JobAt(config, s, r);
      RetriedIsSentBack(config, r.job, s.jobs[r], now);
    }
    hide Inv, LeaseError, Retried;
  }

  // ----- Cancelling -----

  predicate Finished(job: Job) {
    job.state == Succeeded || job.state == DeadLettered || job.state == Cancelled
  }

  /** A cancellation cancels exactly the unfinished jobs of the graph, answers how many rows it changed, and
      leaves the index entries of those that waited behind. */
  lemma CancelAnswers(config: SchedulerConfig, s: System, dag: string)
    requires Inv(config, s)
    ensures var (s', answer) := Cancel(s, dag);
            && (dag !in s.dags ==> answer == Err(DagNotFound) && s' == s)
            && (dag in s.dags ==>
                  && s'.jobs.Keys == s.jobs.Keys && s'.dags == s.dags && s'.sequence == s.sequence
                  && (forall r :: r in s.jobs ==>
                        s'.jobs[r] == if r.dag == dag && !Finished(s.jobs[r])
                                      then s.jobs[r].(state := Cancelled, lease := None) else s.jobs[r])
                  && answer == Ok(|Changed(s.jobs, s'.jobs)|)
                  && forall k :: k in s'.stale <==>
                       k in s.stale || (RefOf(k) in WaitingRefs(s.jobs) && k.dagId == dag && k == KeyOf(RefOf(k), s.jobs[RefOf(k)])))
  {
    hide Inv;
    if dag in s.dags {
      var s' := Cancel(s, dag).0;
      assert Changed(s.jobs, s'.jobs) == Unfinished(s.jobs, dag);
      forall k ensures k in LiveKeys(s.jobs) <==> RefOf(k) in WaitingRefs(s.jobs) && k == KeyOf(RefOf(k), s.jobs[RefOf(k)]) {
        LiveRef(s.jobs, k);
      }
    }
    hide LiveKeys, KeyOf, Changed, Unfinished;
  }
}
