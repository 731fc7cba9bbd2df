/** What each transaction of the store answers, changes and logs, said of the rows it finds and leaves; and how
    long a lease lasts in a run of the store. */
module StoreEffects {
  import opened Prelude
  import opened Collections
  import opened Domain
  import opened Graphs
  import opened EventLog
  import opened Sql
  import opened StoreModel
  import opened CallEffects
  import B = Backoff
  import L = LeaseMachine
  import LI = LeaseInvariants
  import SR = StoreRuns
  import V = Validation

  // ----- Submissions -----

  /** The store refuses what validation refuses, an existing graph and a repeated edge, and nothing else. */
  lemma SubmitAnswers(t: Tables, spec: DagSpec, now: Instant)
    ensures var answer := Submit(t, spec, now).1;
            var distinct := forall i, j :: 0 <= i < j < |spec.dependencies| ==> spec.dependencies[i] != spec.dependencies[j];
            && (answer == Ok(()) <==> Admissible(spec) && spec.id !in t.dags && distinct)
            && (!Admissible(spec) ==> answer.Err? && answer.error.Rejected? && V.Validation(spec) == Err(answer.error.error))
            && (Admissible(spec) && !(spec.id !in t.dags && distinct) ==> answer == Err(Database))
            && (answer.Err? ==> Submit(t, spec, now).0 == t)
  {
    V.AcceptedIff(spec);
    hide V.WellFormed, HasCycle, V.Validation, L.InitialJobs;
  }

  lemma SubmitAdds(t: Tables, spec: DagSpec, now: Instant)
    requires StoreInv(t) && Submit(t, spec, now).1.Ok?
    ensures var t' := Submit(t, spec, now).0;
            && (forall job :: job in spec.jobs ==>
                  var r := L.JobRef(spec.id, job.id);
                  && r in t'.jobs
                  && t'.jobs[r] == L.Job(job, if job.id in Roots(spec) then Ready else Pending, 0, now, None, None))
            && (forall r :: r in t'.jobs <==>
                  r in t.jobs || (r.dag == spec.id && exists job :: job in spec.jobs && job.id == r.job))
            && (forall r :: r in t.jobs ==> t'.jobs[r] == t.jobs[r])
            && t'.dags == t.dags[spec.id := RunningDag] && t'.deps == t.deps[spec.id := set e | e in spec.dependencies]
            && t'.events == t.events && t'.issued == t.issued
  {
    hide V.Validation, HasCycle, LogsOk, LeasesOk, CancelledOk, RowsOk, NoDuplicates;
    V.AcceptedIff(spec);
    LI.InitialJobsOk(spec, now);
    var added := L.InitialJobs(spec, now);
    hide L.InitialJobs, LI.JobOk;
    forall r | r in t.jobs ensures r.dag in t.dags {
      JobRowOk(t, r);
    }
    forall job | job in spec.jobs
      ensures var r := L.JobRef(spec.id, job.id);
              r in added && added[r] == L.Job(job, if job.id in Roots(spec) then Ready else Pending, 0, now, None, None)
    {
      SameSpec(spec, job, added[L.JobRef(spec.id, job.id)].spec);
      RootState(spec, job, now);
    }
  }

  // ----- Reaping -----

  /** One attempt has failed: dead exactly when the budget was spent, otherwise back after the capped doubling. */
  ghost predicate SentBackSql(job: L.Job, job': L.Job, now: Instant) {
    && job'.spec == job.spec && job'.attempts == job.attempts && job'.result == job.result && job'.lease == None
    && (job.attempts >= job.spec.maxAttempts ==> job'.state == DeadLettered && job'.availableAtMs == job.availableAtMs)
    && (job.attempts < job.spec.maxAttempts ==>
          && job'.state == RetryWait
          && job'.availableAtMs == now + Min(60_000, 1_000 * B.Pow2(Min(16, Max(0, job.attempts - 1))))
          && job'.availableAtMs > now)
  }

  lemma SqlRetriedIsSentBack(job: L.Job, now: Instant)
    requires job.attempts >= 1
    ensures SentBackSql(job, SqlRetried(job, now), now)
  {
    hide B.Pow2;
  }

  ghost predicate ReapedRows(jobs: L.Jobs, jobs': L.Jobs, now: Instant) {
    && jobs'.Keys == jobs.Keys
    && (forall r :: r in jobs && !Overdue(jobs[r], now) ==> jobs'[r] == jobs[r])
    && forall r :: r in jobs && Overdue(jobs[r], now) ==> SentBackSql(jobs[r], jobs'[r], now)
  }

  lemma ReapsOverdue(t: Tables, now: Instant)
    requires StoreInv(t)
    ensures ReapedRows(t.jobs, Reaped(t.jobs, now), now)
    ensures |L.ExpiredRefs(t.jobs, now)| == |Changed(t.jobs, Reaped(t.jobs, now))|
  {
    hide StoreInv, SqlRetried;
    forall r | r in t.jobs && Overdue(t.jobs[r], now)
      ensures SentBackSql(t.jobs[r], SqlRetried(t.jobs[r], now), now) && SqlRetried(t.jobs[r], now) != t.jobs[r]
    {
      LeasedAttempts(t, r);
      SqlRetriedIsSentBack(t.jobs[r], now);
    }
    hide SentBackSql;
    assert Changed(t.jobs, Reaped(t.jobs, now)) == L.ExpiredRefs(t.jobs, now);
  }

  lemma LeasedAttempts(t: Tables, r: L.JobRef)
    requires StoreInv(t) && r in t.jobs && t.jobs[r].state == Leased
    ensures 1 <= t.jobs[r].attempts <= t.jobs[r].spec.maxAttempts <= 20 && t.jobs[r].lease.Some?
  {
    hide LogsOk, LeasesOk, CancelledOk, RowsOk;
    JobRowOk(t, r);
  }

  /** A reap sends back exactly the overdue rows, answers how many it changed, and logs nothing. */
  lemma ReapAnswers(t: Tables, now: Instant)
    requires StoreInv(t)
    ensures var (t', n) := Reap(t, now);
            ReapedRows(t.jobs, t'.jobs, now) && n == |Changed(t.jobs, t'.jobs)| && t' == t.(jobs := t'.jobs)
  {
    ReapsOverdue(t, now);
    hide StoreInv, Reaped, ReapedRows, L.ExpiredRefs, Changed;
  }

  // ----- Claims -----

  /** Higher priority first, then earlier availability, then the names in byte order. */
  ghost predicate QueuesBefore(jobs: L.Jobs, r: L.JobRef, o: L.JobRef)
    requires r in jobs && o in jobs
  {
    var a, b := jobs[r], jobs[o];
    if a.spec.priority != b.spec.priority then a.spec.priority > b.spec.priority
    else if a.availableAtMs != b.availableAtMs then a.availableAtMs < b.availableAtMs
    else if r.dag != o.dag then LexLe(r.dag, o.dag)
    else LexLe(r.job, o.job)
  }

  lemma QueueOrderIs(jobs: L.Jobs, r: L.JobRef, o: L.JobRef)
    requires r in jobs && o in jobs
    ensures QueueLe(QueueKeyOf(r, jobs[r]), QueueKeyOf(o, jobs[o])) <==> QueuesBefore(jobs, r, o)
  {
    hide StrLe, LexLe;
    StrLeIsLex(r.dag, o.dag);
    StrLeIsLex(r.job, o.job);
  }

  lemma DueQueue(jobs: L.Jobs, now: Instant)
    ensures Queue(jobs, now) == {} <==> forall r :: !IsDue(jobs, r, now)
    ensures forall r :: IsDue(jobs, r, now) ==> QueueKeyOf(r, jobs[r]) in Queue(jobs, now)
  {
    hide QueueKeyOf;
    forall r | IsDue(jobs, r, now) ensures QueueKeyOf(r, jobs[r]) in Queue(jobs, now) {
    }
    if k :| k in Queue(jobs, now) {
      var r :| r in jobs && L.Waiting(jobs[r]) && jobs[r].availableAtMs <= now && k == QueueKeyOf(r, jobs[r]);
      assert IsDue(jobs, r, now);
    }
  }

  lemma FirstGoesFirst(jobs: L.Jobs, now: Instant)
    requires Queue(jobs, now) != {}
    ensures var first := FirstInQueue(Queue(jobs, now));
            var r := L.JobRef(first.dagId, first.jobId);
            IsDue(jobs, r, now) && forall o :: IsDue(jobs, o, now) ==> QueuesBefore(jobs, r, o)
  {
    var first := FirstInQueue(Queue(jobs, now));
    QueuedRow(jobs, now, first);
    DueQueue(jobs, now);
    hide Queue, QueueLe, QueuesBefore;
    var r := L.JobRef(first.dagId, first.jobId);
    forall o | IsDue(jobs, o, now) ensures QueuesBefore(jobs, r, o) {
      QueueOrderIs(jobs, r, o);
    }
  }

  ghost predicate RefusedRequest(owner: string, leaseMs: I64) {
    |owner| == 0 || |owner| > 64 || leaseMs < 1 || leaseMs > 60_000
  }

  /** A claim reaps; then nothing is due, or it leases the due row that goes before all others, describes it in
      its answer, logs it, and changes nothing else. */
  lemma ClaimAnswers(t: Tables, owner: string, now: Instant, leaseMs: I64, token: string)
    requires StoreInv(t)
    ensures var (t', answer) := Claim(t, owner, now, leaseMs, token);
            RefusedRequest(owner, leaseMs) ==> answer == Err(InvalidConfiguration) && t' == t
    ensures var (t', answer) := Claim(t, owner, now, leaseMs, token);
            var reaped := Reaped(t.jobs, now);
            !RefusedRequest(owner, leaseMs) ==>
              && answer.Ok?
              && t'.dags == t.dags && t'.deps == t.deps
              && (answer.value == None <==> forall r :: !IsDue(reaped, r, now))
              && (answer.value == None ==> t' == t.(jobs := reaped))
              && (answer.value.Some? ==> Leases(reaped, t, t', answer.value.value, owner, now, leaseMs, token))
  {
    hide StoreInv, Reaped, Queue, QueuesBefore, SentBackSql;
    var reaped := Reaped(t.jobs, now);
    DueQueue(reaped, now);
    if Queue(reaped, now) != {} && !RefusedRequest(owner, leaseMs) {
      FirstGoesFirst(reaped, now);
      var first := FirstInQueue(Queue(reaped, now));
      var r := L.JobRef(first.dagId, first.jobId);
      ReapedKeeps(t, now);
      WaitingAttempts(t.(jobs := reaped), r);
      GrantLeasesRow(t, reaped, r, owner, now, leaseMs, token);
    }
    hide Grant, Leases, IsDue;
  }

  ghost predicate Leases(
    reaped: L.Jobs, t: Tables, t': Tables, c: L.ClaimedJob, owner: string, now: Instant, leaseMs: I64, token: string)
  {
    var r := L.JobRef(c.dagId, c.jobId);
    && IsDue(reaped, r, now)
    && (forall o :: IsDue(reaped, o, now) ==> QueuesBefore(reaped, r, o))
    && t'.jobs.Keys == reaped.Keys
    && (forall o :: o in reaped && o != r ==> t'.jobs[o] == reaped[o])
    && Granted(reaped[r], t'.jobs[r], c, owner, now, leaseMs)
    && c.leaseToken == token && c.leaseExpiresAtMs == now + leaseMs
    && t'.events == t.events + [Event(r, ClaimEvent, c.attempt, owner)]
    && t'.issued == t.issued + {token}
  }

  lemma WaitingAttempts(t: Tables, r: L.JobRef)
    requires StoreInv(t) && r in t.jobs && L.Waiting(t.jobs[r])
    ensures t.jobs[r].attempts < 20
  {
    hide LogsOk, LeasesOk, CancelledOk, RowsOk;
    JobRowOk(t, r);
  }

  lemma GrantLeasesRow(
    t: Tables, reaped: L.Jobs, r: L.JobRef, owner: string, now: Instant, leaseMs: LeaseMs, token: string)
    requires IsDue(reaped, r, now) && reaped[r].attempts < 20
    requires forall o :: IsDue(reaped, o, now) ==> QueuesBefore(reaped, r, o)
    ensures var (t', c) := Grant(t.(jobs := reaped), r, owner, now, leaseMs, token);
            Leases(reaped, t, t', c, owner, now, leaseMs, token)
  {
    hide QueuesBefore;
  }

  // ----- Calls that present a lease -----

  /** An accepted heartbeat sets the deadline to `now` plus the new duration and changes nothing else. */
  lemma HeartbeatAnswers(t: Tables, r: L.JobRef, owner: string, token: string, now: Instant, leaseMs: I64)
    ensures var (t', answer) := Heartbeat(t, r, owner, token, now, leaseMs);
            && (RefusedRequest(owner, leaseMs) ==> answer == Err(InvalidConfiguration))
            && (!RefusedRequest(owner, leaseMs) && !Entitled(AsSystem(t), r, owner, token, now) ==> answer == Err(Conflict))
            && (!RefusedRequest(owner, leaseMs) && Entitled(AsSystem(t), r, owner, token, now) ==>
                  && answer == Ok(())
                  && t' == t.(jobs := t.jobs[r := t.jobs[r].(lease := Some(L.Lease(owner, token, now + leaseMs)))]))
            && (answer.Err? ==> t' == t)
  {
  }

  /** An accepted completion keeps the result, makes exactly the freed children ready from now on, logs the
      success, and changes nothing else. */
  lemma CompleteAnswers(t: Tables, r: L.JobRef, owner: string, token: string, result: string, now: Instant)
    requires StoreInv(t)
    ensures var (t', answer) := Complete(t, r, owner, token, result, now);
            && (|result| > 4096 ==> answer == Err(InvalidConfiguration))
            && (|result| <= 4096 && !Entitled(AsSystem(t), r, owner, token, now) ==> answer == Err(Conflict))
            && (|result| <= 4096 && Entitled(AsSystem(t), r, owner, token, now) ==> answer == Ok(()))
            && (answer.Err? ==> t' == t)
            && (answer.Ok? ==>
                  && t'.jobs.Keys == t.jobs.Keys && t'.dags == t.dags && t'.deps == t.deps && t'.issued == t.issued
                  && t'.events == t.events + [Event(r, OutcomeEvent(Succeeded), t.jobs[r].attempts, owner)]
                  && t'.jobs[r] == t.jobs[r].(state := Succeeded, lease := None, result := Some(result))
                  && forall c :: c in t.jobs && c != r ==>
                       t'.jobs[c] ==
                       if SetFree(AsSystem(t), r, c) then t.jobs[c].(state := Ready, availableAtMs := now) else t.jobs[c])
  {
    hide LogsOk, LeasesOk, CancelledOk, RowsOk;
    if |result| <= MAX_PAYLOAD_BYTES && Entitled(AsSystem(t), r, owner, token, now) {
      JobRowOk(t, r);
      forall c | c in t.jobs && c != r
        ensures SetFree(AsSystem(t), r, c) <==> L.Released(t.deps[r.dag], L.WithSuccess(t.jobs, r, result), r, c)
      {
        FreedIsReleased(AsSystem(t), r, result, c);
      }
    }
    hide L.Released, SetFree;
  }

  /** An accepted failure answers the state its row has afterwards, dead-lettered exactly when the attempt
      budget was spent, and logs that state. */
  lemma FailAnswers(t: Tables, r: L.JobRef, owner: string, token: string, now: Instant)
    requires StoreInv(t)
    ensures var (t', answer) := Fail(t, r, owner, token, now);
            && (!Entitled(AsSystem(t), r, owner, token, now) ==> answer == Err(Conflict) && t' == t)
            && (Entitled(AsSystem(t), r, owner, token, now) ==>
                  && answer.Ok?
                  && r in t'.jobs && SentBackSql(t.jobs[r], t'.jobs[r], now)
                  && answer == Ok(t'.jobs[r].state)
                  && answer == Ok(if t.jobs[r].attempts == t.jobs[r].spec.maxAttempts then DeadLettered else RetryWait)
                  && t' == t.(jobs := t.jobs[r := t'.jobs[r]],
                              events := t.events + [Event(r, OutcomeEvent(answer.value), t.jobs[r].attempts, owner)]))
  {
    hide StoreInv;
    if Entitled(AsSystem(t), r, owner, token, now) {
      LeasedAttempts(t, r);
      SqlRetriedIsSentBack(t.jobs[r], now);
    }
    hide SqlRetried, B.Pow2;
  }

  /** A cancellation marks the graph, cancels exactly its unfinished rows, answers how many, and logs nothing. */
  lemma CancelAnswers(t: Tables, dag: string)
    ensures var (t', answer) := Cancel(t, dag);
            && (dag !in t.dags ==> answer == Err(NotFound) && t' == t)
            && (dag in t.dags ==>
                  && t' == t.(dags := t.dags[dag := CancelledDag], jobs := t'.jobs) && t'.jobs.Keys == t.jobs.Keys
                  && (forall r :: r in t.jobs ==>
                        t'.jobs[r] == if r.dag == dag && !Finished(t.jobs[r])
                                      then t.jobs[r].(state := Cancelled, lease := None) else t.jobs[r])
                  && answer == Ok(|Changed(t.jobs, t'.jobs)|))
  {
    if dag in t.dags {
      assert Changed(t.jobs, Cancel(t, dag).0.jobs) == L.Unfinished(t.jobs, dag);
    }
  }

  // ----- How long a lease lasts -----

  predicate SetsLease(call: StoreCall, reply: StoreReply, r: L.JobRef) {
    match (call, reply)
    case (ClaimTx(_, _, _, _), Claimed(Ok(Some(c)))) => L.JobRef(c.dagId, c.jobId) == r
    case (HeartbeatTx(ref, _, _, _, _), Extended(Ok(_))) => ref == r
    case _ => false
  }

  /** The row carries the lease that such a call leaves: its owner and token, until its time plus its duration. */
  ghost predicate HoldsFrom(jobs: L.Jobs, r: L.JobRef, call: StoreCall)
    requires call.ClaimTx? || call.HeartbeatTx?
  {
    && r in jobs && jobs[r].state == Leased && jobs[r].lease.Some?
    && jobs[r].lease.value.owner == call.owner && jobs[r].lease.value.token == call.token
    && jobs[r].lease.value.expiresAtMs == call.now + call.leaseMs
  }

  lemma LeaseIsSet(t: Tables, call: StoreCall, r: L.JobRef)
    requires StoreInv(t) && SetsLease(call, Step(t, call).1, r)
    ensures HoldsFrom(Step(t, call).0.jobs, r, call)
  {
    hide StoreInv, Claim, Heartbeat, Reaped, QueuesBefore;
    match call
    case ClaimTx(owner, now, leaseMs, token) => ClaimAnswers(t, owner, now, leaseMs, token);
    case HeartbeatTx(ref, owner, token, now, leaseMs) => HeartbeatAnswers(t, ref, owner, token, now, leaseMs);
    case _ =>
  }

  /** A row leased after a transaction that did not set its lease is the row it was before. */
  lemma LeaseIsKept(t: Tables, call: StoreCall, r: L.JobRef)
    requires StoreInv(t) && !SetsLease(call, Step(t, call).1, r)
    requires var jobs' := Step(t, call).0.jobs; r in jobs' && jobs'[r].state == Leased
    ensures r in t.jobs && t.jobs[r] == Step(t, call).0.jobs[r]
  {
    hide StoreInv, Submit, Claim, Heartbeat, Complete, Fail, Reap, Cancel, Entitled, SetFree, Changed, B.Pow2;
    match call
    case SubmitTx(spec, now) => SubmitLeasesNothing(t, spec, now, r);
    case ClaimTx(owner, now, leaseMs, token) => ClaimKeepsOthers(t, owner, now, leaseMs, token, r);
    case HeartbeatTx(ref, owner, token, now, leaseMs) => HeartbeatAnswers(t, ref, owner, token, now, leaseMs);
    case CompleteTx(ref, owner, token, result, now) => CompleteAnswers(t, ref, owner, token, result, now);
    case FailTx(ref, owner, token, now) => FailAnswers(t, ref, owner, token, now);
    case ReapTx(now) => ReapAnswers(t, now);
    case CancelTx(dag) => CancelAnswers(t, dag);
  }

  lemma SubmitLeasesNothing(t: Tables, spec: DagSpec, now: Instant, r: L.JobRef)
    requires StoreInv(t)
    requires var jobs' := Submit(t, spec, now).0.jobs; r in jobs' && jobs'[r].state == Leased
    ensures r in t.jobs && t.jobs[r] == Submit(t, spec, now).0.jobs[r]
  {
    hide StoreInv, Submit, Admissible, Roots;
    SubmitAnswers(t, spec, now);
    if Submit(t, spec, now).1.Ok? {
      SubmitAdds(t, spec, now);
    }
  }

  lemma ClaimKeepsOthers(t: Tables, owner: string, now: Instant, leaseMs: I64, token: string, r: L.JobRef)
    requires StoreInv(t)
    requires !SetsLease(ClaimTx(owner, now, leaseMs, token), Claimed(Claim(t, owner, now, leaseMs, token).1), r)
    requires var jobs' := Claim(t, owner, now, leaseMs, token).0.jobs; r in jobs' && jobs'[r].state == Leased
    ensures r in t.jobs && t.jobs[r] == Claim(t, owner, now, leaseMs, token).0.jobs[r]
  {
    hide StoreInv, Claim, Reaped, QueuesBefore, Granted, B.Pow2, Changed, L.ExpiredRefs;
    ClaimAnswers(t, owner, now, leaseMs, token);
    ReapsOverdue(t, now);
  }

  lemma LeaseStands(
    states: seq<Tables>, calls: seq<StoreCall>, replies: seq<StoreReply>, i: nat, j: nat, r: L.JobRef)
    requires IsStoreRun(states, calls, replies) && i < j <= |calls| && SetsLease(calls[i], replies[i], r)
    requires forall k :: i < k < j ==> !SetsLease(calls[k], replies[k], r)
    requires r in states[j].jobs && states[j].jobs[r].state == Leased
    ensures HoldsFrom(states[j].jobs, r, calls[i])
  {
    hide StoreInv, Step, FreshToken, StepIs;
    RunKeeps(states, calls, replies, i);
    SR.RunStep(states, calls, replies, i);
    LeaseIsSet(states[i], calls[i], r);
    var k := j;
    while k > i + 1
      invariant i < k <= j
      invariant r in states[k].jobs && states[k].jobs[r] == states[j].jobs[r]
      decreases k
    {
      k := k - 1;
      RunKeeps(states, calls, replies, k);
      SR.RunStep(states, calls, replies, k);
      LeaseIsKept(states[k], calls[k], r);
    }
  }

  predicate Reaps(call: StoreCall, reply: StoreReply) {
    call.ReapTx? || (call.ClaimTx? && reply.Claimed? && reply.claimed.Ok?)
  }

  /** A reap, also one inside a claim, leaves a row whose lease has time left alone and ends a lease without. */
  lemma ReapsByDeadline(t: Tables, call: StoreCall, r: L.JobRef)
    requires StoreInv(t) && Reaps(call, Step(t, call).1) && r in t.jobs && t.jobs[r].state == Leased
    ensures t.jobs[r].lease.Some?
    ensures var jobs' := Step(t, call).0.jobs;
            && r in jobs'
            && (call.now < t.jobs[r].lease.value.expiresAtMs ==> jobs'[r] == t.jobs[r])
            && (call.now >= t.jobs[r].lease.value.expiresAtMs ==> jobs'[r].state == RetryWait || jobs'[r].state == DeadLettered)
  {
    hide StoreInv, Claim, Reap, Reaped, QueuesBefore, B.Pow2, Changed, L.ExpiredRefs;
    LeasedAttempts(t, r);
    match call
    case ReapTx(now) => ReapAnswers(t, now);
    case ClaimTx(owner, now, leaseMs, token) =>
      ReapsOverdue(t, now);
      ClaimAnswers(t, owner, now, leaseMs, token);
    case _ =>
  }

  /** A lease last set at `t` for `d` is left alone by every reap before `t + d` and ended by the first one from
      then on, also when the reap is part of a claim. */
  lemma LeaseLastsItsTime(
    states: seq<Tables>, calls: seq<StoreCall>, replies: seq<StoreReply>, i: nat, j: nat, r: L.JobRef)
    requires IsStoreRun(states, calls, replies) && i < j < |calls| && SetsLease(calls[i], replies[i], r)
    requires forall k :: i < k < j ==> !SetsLease(calls[k], replies[k], r)
    requires r in states[j].jobs && states[j].jobs[r].state == Leased && Reaps(calls[j], replies[j])
    ensures r in states[j + 1].jobs
    ensures calls[j].now < calls[i].now + calls[i].leaseMs ==> states[j + 1].jobs[r] == states[j].jobs[r]
    ensures calls[j].now >= calls[i].now + calls[i].leaseMs ==>
              states[j + 1].jobs[r].state == RetryWait || states[j + 1].jobs[r].state == DeadLettered
  {
    hide StoreInv, Step, FreshToken, StepIs;
    LeaseStands(states, calls, replies, i, j, r);
    RunKeeps(states, calls, replies, j);
    SR.RunStep(states, calls, replies, j);
    ReapsByDeadline(states[j], calls[j], r);
  }

  predicate Refused(reply: StoreReply) {
    match reply
    case Extended(a) => a.Err?
    case Completed(a) => a.Err?
    case Failed(a) => a.Err?
    case _ => false
  }

  /** Within that time its holder, and nobody else, is heard. */
  lemma HolderIsHeard(
    states: seq<Tables>, calls: seq<StoreCall>, replies: seq<StoreReply>, i: nat, j: nat, r: L.JobRef)
    requires IsStoreRun(states, calls, replies) && i < j < |calls| && SetsLease(calls[i], replies[i], r)
    requires forall k :: i < k < j ==> !SetsLease(calls[k], replies[k], r)
    requires r in states[j].jobs && states[j].jobs[r].state == Leased
    requires (calls[j].FailTx? || calls[j].CompleteTx? || calls[j].HeartbeatTx?) && calls[j].ref == r
    requires calls[j].CompleteTx? ==> |calls[j].result| <= 4096
    requires calls[j].HeartbeatTx? ==> !RefusedRequest(calls[j].owner, calls[j].leaseMs)
    ensures !Refused(replies[j]) <==>
            calls[j].owner == calls[i].owner && calls[j].token == calls[i].token && calls[j].now < calls[i].now + calls[i].leaseMs
  {
    hide StoreInv, Step, FreshToken, StepIs;
    LeaseStands(states, calls, replies, i, j, r);
    RunKeeps(states, calls, replies, j);
    SR.RunStep(states, calls, replies, j);
    Heard(states[j], calls[j]);
  }

  lemma Heard(t: Tables, call: StoreCall)
    requires StoreInv(t) && (call.FailTx? || call.CompleteTx? || call.HeartbeatTx?)
    requires call.CompleteTx? ==> |call.result| <= 4096
    requires call.HeartbeatTx? ==> !RefusedRequest(call.owner, call.leaseMs)
    ensures !Refused(Step(t, call).1) <==> Entitled(AsSystem(t), call.ref, call.owner, call.token, call.now)
  {
    hide StoreInv, Heartbeat, Complete, Fail, Entitled, SetFree, SentBackSql;
    match call
    case HeartbeatTx(ref, owner, token, now, leaseMs) => HeartbeatAnswers(t, ref, owner, token, now, leaseMs);
    case CompleteTx(ref, owner, token, result, now) => CompleteAnswers(t, ref, owner, token, result, now);
    case FailTx(ref, owner, token, now) => FailAnswers(t, ref, owner, token, now);
    case _ =>
  }
}
