/** What holds over whole runs of the store when its transactions are atomic. */
module StoreRuns {
  import opened Prelude
  import opened Domain
  import L = LeaseMachine
  import LI = LeaseInvariants
  import opened EventLog
  import opened Sql
  import opened StoreModel
  import Backoff
  import Multigraphs
  import Liveness
  import V = Validation

  // ----- The event log -----

  /** What the state of a row says about the end of its log. */
  ghost predicate LogEndFits(job: L.Job, log: seq<Event>) {
    var last := if log == [] then None else Some(log[|log| - 1].kind);
    match job.state
    case Pending | Ready => log == []
    case RetryWait => last == Some(ClaimEvent) || last == Some(OutcomeEvent(RetryWait))
    case Leased => last == Some(ClaimEvent)
    case Succeeded => last == Some(OutcomeEvent(Succeeded))
    case DeadLettered =>
      && (last == Some(ClaimEvent) || last == Some(OutcomeEvent(DeadLettered)))
      && log[|log| - 1].attempt == job.spec.maxAttempts
    case Cancelled => last != Some(OutcomeEvent(Succeeded)) && last != Some(OutcomeEvent(DeadLettered))
  }

  /** In every state of every run the log of each job has the shape, counts its attempts, and ends as its
      state demands. */
  lemma EventGrammar(states: seq<Tables>, calls: seq<StoreCall>, replies: seq<StoreReply>, i: nat, r: L.JobRef)
    requires IsStoreRun(states, calls, replies) && i <= |calls| && r in states[i].jobs
    ensures var job := states[i].jobs[r];
            var log := LogOf(states[i].events, r);
            && WellShaped(log, job.spec.maxAttempts)
            && ClaimsIn(log) == job.attempts
            && LogEndFits(job, log)
            && (job.state == Succeeded <==> log != [] && log[|log| - 1].kind == OutcomeEvent(Succeeded))
            && (log != [] && log[|log| - 1].kind == OutcomeEvent(DeadLettered) ==> job.state == DeadLettered)
  {
    RunKeeps(states, calls, replies, i);
    hide IsStoreRun, RowsOk, CancelledOk, LeasesOk, LogOf, ReadLog, ClaimsIn, WellShaped, LogFits, LogEndFits;
    var job := states[i].jobs[r];
    var log := LogOf(states[i].events, r);
    assert LogFits(job, ReadLog(log, job.spec.maxAttempts));
    JobRowOk(states[i], r);
    LogSays(job, log);
  }

  /** What a fitting log says of its job. */
  lemma LogSays(job: L.Job, log: seq<Event>)
    requires LI.JobOk(job) && LogFits(job, ReadLog(log, job.spec.maxAttempts))
    ensures WellShaped(log, job.spec.maxAttempts) && ClaimsIn(log) == job.attempts && LogEndFits(job, log)
    ensures job.state == Succeeded <==> log != [] && log[|log| - 1].kind == OutcomeEvent(Succeeded)
    ensures log != [] && log[|log| - 1].kind == OutcomeEvent(DeadLettered) ==> job.state == DeadLettered
  {
    hide ReadLog, ClaimsIn, WellShaped;
    ReadableIsWellShaped(log, job.spec.maxAttempts);
    ReadingCounts(log, job.spec.maxAttempts);
    PhaseIs(log, job.spec.maxAttempts);
    if log == [] {
      EmptyReads(job.spec.maxAttempts);
    } else {
      NonEmptyCounts(log, job.spec.maxAttempts);
    }
  }

  lemma EmptyReads(maxAttempts: nat)
    ensures ReadLog([], maxAttempts) == Some(Reading(0, Idle))
  {
  }

  /** The log only grows, by at most one event per transaction. */
  lemma AppendOnly(t: Tables, call: StoreCall)
    ensures var t' := Step(t, call).0; t.events <= t'.events && |t'.events| <= |t.events| + 1
  {
    hide Reaped, L.InitialJobs, V.Validation, L.WithReleased, L.CancelledJobs, SqlRetried;
  }

  // ----- Dead letters -----

  /** A row that becomes dead-lettered was leased. A failure logs it; a reap, also one inside a claim, leaves
      the log of the row alone. */
  lemma DeadLetteredBy(t: Tables, call: StoreCall, r: L.JobRef)
    requires StoreInv(t) && r in t.jobs && t.jobs[r].state != DeadLettered
    requires r in Step(t, call).0.jobs && Step(t, call).0.jobs[r].state == DeadLettered
    ensures t.jobs[r].state == Leased
    ensures LogOf(Step(t, call).0.events, r) == LogOf(t.events, r) +
            if call.FailTx? then [Event(r, OutcomeEvent(DeadLettered), t.jobs[r].attempts, call.owner)] else []
  {
    hide StoreInv, LogOf, Submit, Claim, Complete, Queue, Backoff.SqlBackoff;
    assert LogOf(t.events, r) + [] == LogOf(t.events, r);
    match call
    case SubmitTx(spec, now) => SubmitFrame(t, spec, now, r);
    case ClaimTx(owner, now, leaseMs, token) => ClaimDead(t, owner, now, leaseMs, token, r);
    case CompleteTx(ref, owner, token, result, now) => CompleteFrame(t, ref, owner, token, result, now, r);
    case FailTx(ref, owner, token, now) =>
      if Presents(t.jobs, ref, owner, token, now) {
        LogAppend(t.events, Event(ref, OutcomeEvent(SqlRetried(t.jobs[ref], now).state), t.jobs[ref].attempts, owner), r);
      }
    case _ =>
  }

  lemma SubmitFrame(t: Tables, spec: DagSpec, now: Instant, r: L.JobRef)
    requires StoreInv(t) && r in t.jobs
    ensures var t' := Submit(t, spec, now).0; r in t'.jobs && t'.jobs[r] == t.jobs[r] && t'.events == t.events
  {
    hide LogsOk, LeasesOk, CancelledOk, RowsOk, V.Validation, L.InitialJobs, V.EdgeSet;
    V.AcceptedIff(spec);
    JobRowOk(t, r);
    if Submit(t, spec, now).1.Ok? {
      LI.InitialJobsOk(spec, now);
    }
  }

  lemma CompleteFrame(t: Tables, ref: L.JobRef, owner: string, x: string, result: string, now: Instant, r: L.JobRef)
    requires StoreInv(t) && r in t.jobs
    ensures var t' := Complete(t, ref, owner, x, result, now).0;
            r in t'.jobs && (L.Terminal(t.jobs[r]) ==> t'.jobs[r] == t.jobs[r] && LogOf(t'.events, r) == LogOf(t.events, r))
            && (t'.jobs[r].state == DeadLettered ==> t.jobs[r].state == DeadLettered)
  {
    hide RowsOk, CancelledOk, LogsOk, LeasesOk, L.WithReleased, LogOf;
    if |result| <= MAX_PAYLOAD_BYTES && Presents(t.jobs, ref, owner, x, now) {
      JobRowOk(t, ref);
      FinishEach(t, ref, result, now, Complete(t, ref, owner, x, result, now).0.jobs);
      LogAppend(t.events, Event(ref, OutcomeEvent(Succeeded), t.jobs[ref].attempts, owner), r);
      assert LogOf(t.events, r) + [] == LogOf(t.events, r);
    }
  }

  lemma ClaimFrame(t: Tables, owner: string, now: Instant, leaseMs: I64, token: string, r: L.JobRef)
    requires r in t.jobs
    ensures var t' := Claim(t, owner, now, leaseMs, token).0;
            r in t'.jobs &&
            (!L.Waiting(Reaped(t.jobs, now)[r]) && ValidRequest(owner, leaseMs) ==>
               t'.jobs[r] == Reaped(t.jobs, now)[r] && LogOf(t'.events, r) == LogOf(t.events, r)) &&
            (!ValidRequest(owner, leaseMs) ==> t' == t)
  {
    hide LogOf, SqlRetried, Queue;
    var queue := Queue(Reaped(t.jobs, now), now);
    if ValidRequest(owner, leaseMs) && queue != {} {
      var first := FirstInQueue(queue);
      QueuedRow(Reaped(t.jobs, now), now, first);
      var ref := L.JobRef(first.dagId, first.jobId);
      LogAppend(t.events, Event(ref, ClaimEvent, L.LeasedTo(Reaped(t.jobs, now)[ref], owner, token, now + leaseMs).attempts, owner), r);
      assert LogOf(t.events, r) + [] == LogOf(t.events, r);
    }
  }

  lemma ClaimDead(t: Tables, owner: string, now: Instant, leaseMs: I64, token: string, r: L.JobRef)
    requires StoreInv(t) && r in t.jobs && t.jobs[r].state != DeadLettered
    requires var t' := Claim(t, owner, now, leaseMs, token).0; r in t'.jobs && t'.jobs[r].state == DeadLettered
    ensures t.jobs[r].state == Leased && LogOf(Claim(t, owner, now, leaseMs, token).0.events, r) == LogOf(t.events, r)
  {
    hide StoreInv, LogOf, Backoff.SqlBackoff, Queue;
    ClaimFrame(t, owner, now, leaseMs, token, r);
    if ValidRequest(owner, leaseMs) && L.Waiting(Reaped(t.jobs, now)[r]) {
      ClaimedIsLeased(t, owner, now, leaseMs, token, r);
    }
  }

  lemma ClaimedIsLeased(t: Tables, owner: string, now: Instant, leaseMs: I64, token: string, r: L.JobRef)
    requires r in t.jobs && L.Waiting(Reaped(t.jobs, now)[r]) && ValidRequest(owner, leaseMs)
    ensures var t' := Claim(t, owner, now, leaseMs, token).0;
            r in t'.jobs && (L.Waiting(t'.jobs[r]) || t'.jobs[r].state == Leased)
  {
    hide SqlRetried, Queue;
    var queue := Queue(Reaped(t.jobs, now), now);
    if queue != {} {
      QueuedRow(Reaped(t.jobs, now), now, FirstInQueue(queue));
    }
  }

  /** A terminal row and its log never change again. */
  lemma TerminalStays(t: Tables, call: StoreCall, r: L.JobRef)
    requires StoreInv(t) && r in t.jobs && L.Terminal(t.jobs[r])
    ensures var t' := Step(t, call).0;
            r in t'.jobs && t'.jobs[r] == t.jobs[r] && LogOf(t'.events, r) == LogOf(t.events, r)
  {
    hide StoreInv, LogOf, Submit, Claim, Complete, Queue, SqlRetried, L.Terminal;
    assert LogOf(t.events, r) + [] == LogOf(t.events, r);
    NotLeased(t.jobs[r]);
    match call
    case SubmitTx(spec, now) => SubmitFrame(t, spec, now, r);
    case ClaimTx(owner, now, leaseMs, token) => ClaimFrame(t, owner, now, leaseMs, token, r);
    case CompleteTx(ref, owner, token, result, now) => CompleteFrame(t, ref, owner, token, result, now, r);
    case FailTx(ref, owner, token, now) =>
      if Presents(t.jobs, ref, owner, token, now) {
        LogAppend(t.events, Event(ref, OutcomeEvent(SqlRetried(t.jobs[ref], now).state), SqlRetried(t.jobs[ref], now).attempts, owner), r);
      }
    case _ =>
  }

  lemma NotLeased(job: L.Job)
    requires L.Terminal(job)
    ensures job.state != Leased && !L.Waiting(job)
  {
  }

  /** The log of a dead-lettered job ends with a dead letter for ever after a failure made it so, and with the
      last claim for ever after a reap did. */
  lemma DeadLetterLogged(
    states: seq<Tables>, calls: seq<StoreCall>, replies: seq<StoreReply>, r: L.JobRef, i: nat, j: nat)
    requires IsStoreRun(states, calls, replies) && i < j <= |calls|
    requires r in states[i].jobs && states[i].jobs[r].state != DeadLettered
    requires r in states[i + 1].jobs && states[i + 1].jobs[r].state == DeadLettered
    ensures r in states[j].jobs && states[j].jobs[r].state == DeadLettered
    ensures var log := LogOf(states[j].events, r);
            && log != []
            && log[|log| - 1].kind == if calls[i].FailTx? then OutcomeEvent(DeadLettered) else ClaimEvent
  {
    hide Step, StoreInv, LogOf, FreshToken, StepIs;
    RunKeeps(states, calls, replies, i);
    RunStep(states, calls, replies, i);
    DeadLetteredBy(states[i], calls[i], r);
    EventGrammar(states, calls, replies, i, r);
    for k := i + 1 to j
      invariant r in states[k].jobs && states[k].jobs[r] == states[i + 1].jobs[r]
      invariant LogOf(states[k].events, r) == LogOf(states[i + 1].events, r)
    {
      RunKeeps(states, calls, replies, k);
      RunStep(states, calls, replies, k);
      TerminalStays(states[k], calls[k], r);
    }
  }

  // ----- Progress -----

  /** In every state of every run each pending job has an ancestor that is ready, waiting for a retry, leased
      or dead-lettered: a pending job's graph is never a cancelled one. */
  lemma StoreNeverStalls(
    states: seq<Tables>, calls: seq<StoreCall>, replies: seq<StoreReply>, i: nat, r: L.JobRef)
    requires IsStoreRun(states, calls, replies) && i <= |calls|
    requires r in states[i].jobs && states[i].jobs[r].state == Pending
    ensures r.dag in states[i].deps
    ensures exists a :: Liveness.ActiveAncestor(states[i].deps[r.dag], states[i].jobs, r, a)
  {
    RunKeeps(states, calls, replies, i);
    var t := states[i];
    hide IsStoreRun, LeasesOk, LogsOk, Liveness.ActiveAncestor;
    JobRowOk(t, r);
    RunningUncancelled(t, r);
    GraphOfRow(t, r.dag);
    Liveness.WaitingEnds(t.deps[r.dag], t.jobs, r);
  }

  lemma RunningUncancelled(t: Tables, r: L.JobRef)
    requires CancelledOk(t.dags, t.jobs) && r in t.jobs && r.dag in t.dags && !L.Terminal(t.jobs[r])
    ensures Liveness.NoneCancelled(t.jobs, r.dag)
  {
  }

  lemma GraphOfRow(t: Tables, dag: string)
    requires RowsOk(t) && dag in t.deps
    ensures Liveness.GraphWaits(t.deps[dag], t.jobs, dag)
  {
    hide LI.JobsOk, LI.GraphOk, LI.DependencyOk;
  }

  // ----- Fencing -----

  /** A token once issued that no row carries any more. */
  ghost predicate Retired(t: Tables, token: string) {
    token in t.issued && forall r :: !HasToken(t.jobs, r, token)
  }

  predicate Accepts(call: StoreCall, reply: StoreReply, token: string) {
    match reply
    case Extended(result) => call.HeartbeatTx? && call.token == token && result.Ok?
    case Completed(result) => call.CompleteTx? && call.token == token && result.Ok?
    case Failed(result) => call.FailTx? && call.token == token && result.Ok?
    case _ => false
  }

  predicate Commits(call: StoreCall, reply: StoreReply, token: string) {
    Accepts(call, reply, token) && !call.HeartbeatTx?
  }

  /** A row carries a token after a transaction only if it did before or has just been claimed with it. */
  lemma TokensAfter(t: Tables, call: StoreCall, r: L.JobRef, token: string)
    requires StoreInv(t) && HasToken(Step(t, call).0.jobs, r, token)
    ensures HasToken(t.jobs, r, token) || (call.ClaimTx? && call.token == token)
  {
    hide StoreInv, Submit, Claim, Heartbeat, Complete, Fail, Cancel, Reaped;
    match call
    case SubmitTx(spec, now) => SubmitTokens(t, spec, now, r, token);
    case ClaimTx(owner, now, leaseMs, claimed) => ClaimTokens(t, owner, now, leaseMs, claimed, r, token);
    case HeartbeatTx(ref, owner, x, now, leaseMs) =>
      assert HasToken(t.jobs, r, token) by { HeartbeatTokens(t, ref, owner, x, now, leaseMs, r, token); }
    case CompleteTx(ref, owner, x, result, now) => CompleteTokens(t, ref, owner, x, result, now, r, token);
    case FailTx(ref, owner, x, now) => FailTokens(t, ref, owner, x, now, r, token);
    case ReapTx(now) => ReapTokens(t, now, r, token);
    case CancelTx(dag) => CancelTokens(t, dag, r, token);
  }

  lemma SubmitTokens(t: Tables, spec: DagSpec, now: Instant, r: L.JobRef, token: string)
    requires HasToken(Submit(t, spec, now).0.jobs, r, token)
    ensures HasToken(t.jobs, r, token)
  {
    hide V.Validation, V.WellFormed, L.InitialJobs;
    V.AcceptedIff(spec);
    if Submit(t, spec, now).1.Ok? {
      LI.InitialJobsOk(spec, now);
    }
  }

  lemma ReapTokens(t: Tables, now: Instant, r: L.JobRef, token: string)
    requires HasToken(Reaped(t.jobs, now), r, token)
    ensures HasToken(t.jobs, r, token)
  {
  }

  lemma ClaimTokens(
    t: Tables, owner: string, now: Instant, leaseMs: I64, claimed: string, r: L.JobRef, token: string)
    requires HasToken(Claim(t, owner, now, leaseMs, claimed).0.jobs, r, token)
    ensures HasToken(t.jobs, r, token) || token == claimed
  {
    hide Reaped, Queue;
    if HasToken(Reaped(t.jobs, now), r, token) {
      ReapTokens(t, now, r, token);
    }
  }

  lemma HeartbeatTokens(
    t: Tables, ref: L.JobRef, owner: string, x: string, now: Instant, leaseMs: I64, r: L.JobRef, token: string)
    requires HasToken(Heartbeat(t, ref, owner, x, now, leaseMs).0.jobs, r, token)
    ensures HasToken(t.jobs, r, token)
  {
  }

  lemma CompleteTokens(
    t: Tables, ref: L.JobRef, owner: string, x: string, result: string, now: Instant, r: L.JobRef, token: string)
    requires StoreInv(t) && HasToken(Complete(t, ref, owner, x, result, now).0.jobs, r, token)
    ensures HasToken(t.jobs, r, token)
  {
    hide RowsOk, CancelledOk, LogsOk, LeasesOk, L.WithReleased;
    if |result| <= MAX_PAYLOAD_BYTES && Presents(t.jobs, ref, owner, x, now) {
      JobRowOk(t, ref);
      FinishEach(t, ref, result, now, Complete(t, ref, owner, x, result, now).0.jobs);
    }
  }

  lemma FailTokens(t: Tables, ref: L.JobRef, owner: string, x: string, now: Instant, r: L.JobRef, token: string)
    requires HasToken(Fail(t, ref, owner, x, now).0.jobs, r, token)
    ensures HasToken(t.jobs, r, token)
  {
  }

  lemma CancelTokens(t: Tables, dag: string, r: L.JobRef, token: string)
    requires HasToken(Cancel(t, dag).0.jobs, r, token)
    ensures HasToken(t.jobs, r, token)
  {
  }

  lemma IssuedGrows(t: Tables, call: StoreCall)
    ensures t.issued <= Step(t, call).0.issued
  {
    hide Reaped, L.InitialJobs, V.Validation, L.WithReleased, L.CancelledJobs, SqlRetried;
  }

  lemma RetiredStays(t: Tables, call: StoreCall, token: string)
    requires StoreInv(t) && FreshToken(t, call) && Retired(t, token)
    ensures Retired(Step(t, call).0, token)
  {
    hide StoreInv, Step, HasToken;
    IssuedGrows(t, call);
    var t' := Step(t, call).0;
    forall r ensures !HasToken(t'.jobs, r, token) {
      if HasToken(t'.jobs, r, token) {
        TokensAfter(t, call, r, token);
      }
    }
  }

  /** A lease that ends retires its token, however it ends. */
  lemma EndRetires(t: Tables, call: StoreCall, r: L.JobRef, token: string)
    requires StoreInv(t) && FreshToken(t, call)
    requires HasToken(t.jobs, r, token) && !HasToken(Step(t, call).0.jobs, r, token)
    ensures Retired(Step(t, call).0, token)
  {
    hide RowsOk, CancelledOk, LogsOk, Step, HasToken;
    IssuedGrows(t, call);
    var t' := Step(t, call).0;
    forall c ensures !HasToken(t'.jobs, c, token) {
      if HasToken(t'.jobs, c, token) {
        TokensAfter(t, call, c, token);
      }
    }
  }

  lemma AcceptedIsHeld(t: Tables, call: StoreCall, token: string)
    requires Accepts(call, Step(t, call).1, token)
    ensures HasToken(t.jobs, call.ref, token)
  {
    hide L.WithReleased, Reaped, L.InitialJobs, V.Validation, L.CancelledJobs, SqlRetried;
  }

  /** A committed outcome takes the lease off the row. */
  lemma CommitEnds(t: Tables, call: StoreCall, token: string)
    requires Commits(call, Step(t, call).1, token)
    ensures !HasToken(Step(t, call).0.jobs, call.ref, token)
  {
    hide Queue, L.InitialJobs, V.Validation, L.CancelledJobs, Backoff.SqlBackoff, L.Done, Multigraphs.ParentsIn;
  }

  lemma RetiredRejects(t: Tables, call: StoreCall, token: string)
    requires Retired(t, token)
    ensures !Accepts(call, Step(t, call).1, token)
  {
    hide Step, HasToken;
    if Accepts(call, Step(t, call).1, token) {
      AcceptedIsHeld(t, call, token);
    }
  }

  /** Once a lease has ended, by completion, failure, reaping or cancellation, its token is never accepted again. */
  lemma StoreFencing(
    states: seq<Tables>, calls: seq<StoreCall>, replies: seq<StoreReply>, r: L.JobRef, token: string, i: nat, j: nat)
    requires IsStoreRun(states, calls, replies) && i < j < |calls|
    requires HasToken(states[i].jobs, r, token) && !HasToken(states[i + 1].jobs, r, token)
    ensures !Accepts(calls[j], replies[j], token)
  {
    hide StoreInv, HasToken, Step, Accepts;
    RunKeeps(states, calls, replies, i);
    RunStep(states, calls, replies, i);
    EndRetires(states[i], calls[i], r, token);
    for k := i + 1 to j
      invariant Retired(states[k], token)
    {
      RunKeeps(states, calls, replies, k);
      RunStep(states, calls, replies, k);
      RetiredStays(states[k], calls[k], token);
    }
    RunStep(states, calls, replies, j);
    RetiredRejects(states[j], calls[j], token);
  }

  lemma RunStep(states: seq<Tables>, calls: seq<StoreCall>, replies: seq<StoreReply>, i: nat)
    requires IsStoreRun(states, calls, replies) && i < |calls|
    ensures FreshToken(states[i], calls[i])
    ensures states[i + 1] == Step(states[i], calls[i]).0
    ensures replies[i] == Step(states[i], calls[i]).1
  {
    hide Step, FreshToken;
    assert StepIs(states[i], calls[i], states[i + 1], replies[i]);
  }

  /** No token ever commits two outcomes. */
  lemma OneOutcomePerToken(
    states: seq<Tables>, calls: seq<StoreCall>, replies: seq<StoreReply>, token: string, i: nat, j: nat)
    requires IsStoreRun(states, calls, replies) && i < |calls| && j < |calls|
    requires Commits(calls[i], replies[i], token) && Commits(calls[j], replies[j], token)
    ensures i == j
  {
    hide Step, HasToken, FreshToken, StepIs;
    if i != j {
      var first, second := if i < j then i else j, if i < j then j else i;
      RunStep(states, calls, replies, first);
      AcceptedIsHeld(states[first], calls[first], token);
      CommitEnds(states[first], calls[first], token);
      StoreFencing(states, calls, replies, calls[first].ref, token, first, second);
    }
  }
}
