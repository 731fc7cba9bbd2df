/** Properties of whole runs of the lease machine: tokens, fencing, frozen outcomes, bounded work. */
module Runs {
  import opened Prelude
  import opened Collections
  import opened Domain
  import opened Graphs
  import opened Multigraphs
  import opened Backoff
  import opened LeaseMachine
  import opened LeaseInvariants
  import V = Validation

  // ----- The sequence -----

  /** A configuration whose token sequence cannot run out. */
  predicate SequenceFits(config: SchedulerConfig) {
    config.maxDags <= U64_MAX / 20_000
  }

  /** Conservation of claims: the sequence is the number of attempts ever started, bounded by the limits. */
  lemma SequenceCountsClaims(config: SchedulerConfig, s: System)
    requires Inv(config, s)
    ensures s.sequence == Min(Sum(AttemptsOf(s.jobs)), U64_MAX)
    ensures Sum(AttemptsOf(s.jobs)) <= 20_000 * config.maxDags
    ensures SequenceFits(config) ==> s.sequence == Sum(AttemptsOf(s.jobs)) < U64_MAX
  {
    forall r | r in s.jobs ensures s.jobs[r].attempts <= 20 {
      JobAt(config, s, r);
    }
    hide JobsOk, GraphsOk, DependenciesOk, StaleOk, TokensOk, Sum;
    SumBounded(AttemptsOf(s.jobs), 20);
    assert AttemptsOf(s.jobs).Keys == s.jobs.Keys;
    assert |AttemptsOf(s.jobs)| == |AttemptsOf(s.jobs).Keys| && |s.jobs| == |s.jobs.Keys|;
  }

  /** A claim hands out a token nobody has seen before exactly while the sequence is not exhausted. */
  lemma FreshTokenIff(s: System, owner: string, now: I64, leaseMs: I64)
    requires Take(s, owner, now, leaseMs).1.Some?
    ensures var token := Take(s, owner, now, leaseMs).1.value.leaseToken;
            && TokenNumber(token) == Take(s, owner, now, leaseMs).0.sequence
            && (TokenNumber(token) > s.sequence <==> s.sequence < U64_MAX)
  {
    hide Eligible, Token, KeyLe;
    var claimed := Take(s, owner, now, leaseMs).1.value;
    TokenNumberRoundTrip(claimed.dagId, claimed.jobId, Take(s, owner, now, leaseMs).0.sequence);
  }

  /** Once it is exhausted, every further claim of a job brings that job's last token again. */
  lemma ExhaustedTokensRepeat(s: System, owner: string, now: I64, leaseMs: I64)
    requires s.sequence == U64_MAX && Take(s, owner, now, leaseMs).1.Some?
    ensures var claimed := Take(s, owner, now, leaseMs).1.value;
            && claimed.leaseToken == Token(claimed.dagId, claimed.jobId, U64_MAX)
            && Take(s, owner, now, leaseMs).0.sequence == U64_MAX
  {
    hide Eligible, KeyLe, Token;
    assert Take(s, owner, now, leaseMs).0.sequence == U64_MAX;
  }

  // ----- Who holds which token after a call -----

  /** After a call a token number is held either as before, or by the job just claimed under the next number. */
  lemma HoldersAfter(config: SchedulerConfig, s: System, call: Call, r: JobRef, n: nat)
    requires Inv(config, s)
    ensures var s' := Step(config, s, call).0;
            && (HoldsToken(s'.jobs, r, n) ==>
                  HoldsToken(s.jobs, r, n) || (n == s'.sequence && s'.sequence == SaturatingSuccessor(s.sequence, U64_MAX)))
            && s.sequence <= s'.sequence
  {
    hide JobsOk, GraphsOk, DependenciesOk, StaleOk, TokensOk, CountsOk;
    match call
    case SubmitCall(spec, now) =>
      hide Admitted;
      SubmitAdmits(config, s, spec, now);
      if Submit(config, s, spec, now).1.Ok? {
        AdmittedHolders(config, s, spec, now, Submit(config, s, spec, now).0, r, n);
      }
    case ClaimCall(owner, now, leaseMs) =>
      TakeHolders(Reap(config, s, now).0, owner, now, leaseMs, r, n);
    case HeartbeatCall(ref, owner, token, now, leaseMs) =>
    case CompleteCall(ref, owner, token, result, now) =>
    case FailCall(ref, owner, token, now) =>
    case ReapCall(now) =>
    case CancelCall(dag) =>
  }

  lemma AdmittedHolders(config: SchedulerConfig, s: System, spec: DagSpec, now: I64, s': System, r: JobRef, n: nat)
    requires Admitted(config, s, spec, now, s')
    ensures HoldsToken(s'.jobs, r, n) ==> HoldsToken(s.jobs, r, n)
    ensures s.sequence == s'.sequence
  {
    hide InitialJobs, V.WellFormed, HasCycle;
    InitialJobsOk(spec, now);
  }

  lemma TakeHolders(s: System, owner: string, now: I64, leaseMs: I64, r: JobRef, n: nat)
    ensures var s' := Take(s, owner, now, leaseMs).0;
            && (HoldsToken(s'.jobs, r, n) ==>
                  HoldsToken(s.jobs, r, n) || (n == s'.sequence && s'.sequence == SaturatingSuccessor(s.sequence, U64_MAX)))
            && s.sequence <= s'.sequence
  {
    hide Token, KeyLe, Eligible;
    if Eligible(s.jobs, now) != {} {
      var key := LeastKey(Eligible(s.jobs, now));
      TokenNumberRoundTrip(key.dagId, key.jobId, SaturatingSuccessor(s.sequence, U64_MAX));
    }
  }

  // ----- Fencing -----

  /** The number was issued and nobody holds it any more. */
  ghost predicate Retired(s: System, n: nat) {
    n <= s.sequence && forall r :: !HoldsToken(s.jobs, r, n)
  }

  /** A call that presents `token` and is accepted. */
  predicate Accepts(call: Call, reply: Reply, token: string) {
    match (call, reply)
    case (HeartbeatCall(_, _, t, _, _), HeartbeatReply(Ok(_))) => t == token
    case (CompleteCall(_, _, t, _, _), CompleteReply(Ok(_))) => t == token
    case (FailCall(_, _, t, _), FailReply(Ok(_))) => t == token
    case _ => false
  }

  /** A call that presents `token` and ends its lease with an outcome. */
  predicate Commits(call: Call, reply: Reply, token: string) {
    Accepts(call, reply, token) && !call.HeartbeatCall?
  }

  lemma RetiredStays(config: SchedulerConfig, s: System, call: Call, n: nat)
    requires Inv(config, s) && s.sequence < U64_MAX && Retired(s, n)
    ensures Retired(Step(config, s, call).0, n)
  {
    hide Inv, Step;
    forall r ensures !HoldsToken(Step(config, s, call).0.jobs, r, n) {
      HoldersAfter(config, s, call, r, n);
    }
    HoldersAfter(config, s, call, JobRef("", ""), n);
  }

  lemma AcceptedIsHeld(config: SchedulerConfig, s: System, call: Call, token: string)
    requires Accepts(call, Step(config, s, call).1, token)
    ensures exists r :: r in s.jobs && s.jobs[r].lease.Some? && s.jobs[r].lease.value.token == token
                        && HoldsToken(s.jobs, r, TokenNumber(token))
  {
    var ref := match call
      case HeartbeatCall(r, _, _, _, _) => r
      case CompleteCall(r, _, _, _, _) => r
      case FailCall(r, _, _, _) => r
      case _ => JobRef("", "");
    assert HoldsToken(s.jobs, ref, TokenNumber(token));
  }

  /** When a lease ends, its number is retired at once. */
  lemma EndRetires(config: SchedulerConfig, s: System, call: Call, r: JobRef, token: string)
    requires Inv(config, s) && s.sequence < U64_MAX
    requires r in s.jobs && s.jobs[r].lease.Some? && s.jobs[r].lease.value.token == token
    requires var s' := Step(config, s, call).0;
             Inv(config, s') && (r in s'.jobs && s'.jobs[r].lease.Some? ==> s'.jobs[r].lease.value.token != token)
    ensures Retired(Step(config, s, call).0, TokenNumber(token))
  {
    hide Step, JobsOk, GraphsOk, DependenciesOk, StaleOk, CountsOk;
    var n := TokenNumber(token);
    var s' := Step(config, s, call).0;
    assert HoldsToken(s.jobs, r, n);
    HoldersAfter(config, s, call, r, n);
    forall other ensures !HoldsToken(s'.jobs, other, n) {
      HoldersAfter(config, s, call, other, n);
      assert HoldsToken(s.jobs, other, n) ==> other == r;
      assert !HoldsToken(s'.jobs, r, n);
    }
  }

  ghost predicate HoldsLease(s: System, r: JobRef, token: string) {
    r in s.jobs && s.jobs[r].lease.Some? && s.jobs[r].lease.value.token == token
  }

  lemma SequenceGrows(
    config: SchedulerConfig, states: seq<System>, calls: seq<Call>, replies: seq<Reply>, i: nat, j: nat)
    requires IsRun(config, states, calls, replies) && i <= j <= |calls|
    ensures states[i].sequence <= states[j].sequence
  {
    hide Inv, Step, HoldsToken, StepIs;
    for k := i to j
      invariant states[i].sequence <= states[k].sequence
    {
      RunFacts(config, states, calls, replies, k);
      HoldersAfter(config, states[k], calls[k], JobRef("", ""), 0);
    }
  }

  /** The sequence has not run out by step `j`; under `SequenceFits` it never does. */
  predicate TokensLast(config: SchedulerConfig, s: System) {
    SequenceFits(config) || s.sequence < U64_MAX
  }

  /** Fencing: once the lease of a token has ended, by whatever call, no later call presenting the token
      is ever accepted, at any times and in any order. */
  lemma Fencing(
    config: SchedulerConfig, states: seq<System>, calls: seq<Call>, replies: seq<Reply>, r: JobRef, token: string, i: nat,
    j: nat)
    requires IsRun(config, states, calls, replies) && i < j < |calls| && TokensLast(config, states[j])
    requires HoldsLease(states[i], r, token) && !HoldsLease(states[i + 1], r, token)
    ensures !Accepts(calls[j], replies[j], token)
  {
    hide Inv, Step, Retired, Accepts, HoldsToken;
    var n := TokenNumber(token);
    RunFacts(config, states, calls, replies, i);
    RunFacts(config, states, calls, replies, i + 1);
    SequenceGrows(config, states, calls, replies, i, j);
    EndRetires(config, states[i], calls[i], r, token);
    for k := i + 1 to j
      invariant Retired(states[k], n)
    {
      RunFacts(config, states, calls, replies, k);
      SequenceGrows(config, states, calls, replies, k, j);
      RetiredStays(config, states[k], calls[k], n);
    }
    RunFacts(config, states, calls, replies, j);
    RetiredRejects(config, states[j], calls[j], token);
  }

  lemma RetiredRejects(config: SchedulerConfig, s: System, call: Call, token: string)
    requires Retired(s, TokenNumber(token))
    ensures !Accepts(call, Step(config, s, call).1, token)
  {
    hide Step;
    if Accepts(call, Step(config, s, call).1, token) {
      AcceptedIsHeld(config, s, call, token);
      assert false;
    }
  }

  /** What a run offers at each index. */
  lemma RunFacts(config: SchedulerConfig, states: seq<System>, calls: seq<Call>, replies: seq<Reply>, i: nat)
    requires IsRun(config, states, calls, replies) && i <= |calls|
    ensures Inv(config, states[i])
    ensures SequenceFits(config) ==> states[i].sequence < U64_MAX
    ensures i < |calls| ==> states[i + 1] == Step(config, states[i], calls[i]).0 && replies[i] == Step(config, states[i], calls[i]).1
  {
    hide Step, Inv;
    RunKeeps(config, states, calls, replies, i);
    SequenceCountsClaims(config, states[i]);
    if i < |calls| {
      assert StepIs(config, states[i], calls[i], states[i + 1], replies[i]);
    }
  }

  /** A committed outcome ends the lease it was committed under. */
  lemma CommitEnds(config: SchedulerConfig, s: System, call: Call, token: string) returns (r: JobRef)
    requires Commits(call, Step(config, s, call).1, token)
    ensures HoldsLease(s, r, token) && !HoldsLease(Step(config, s, call).0, r, token)
  {
    r := match call
      case CompleteCall(ref, _, _, _, _) => ref
      case FailCall(ref, _, _, _) => ref
      case _ => JobRef("", "");
  }

  /** Each issued token commits at most one outcome. */
  lemma OneOutcomePerToken(
    config: SchedulerConfig, states: seq<System>, calls: seq<Call>, replies: seq<Reply>, token: string, i: nat, j: nat)
    requires IsRun(config, states, calls, replies) && i < j < |calls| && TokensLast(config, states[j])
    requires Commits(calls[i], replies[i], token)
    ensures !Accepts(calls[j], replies[j], token)
  {
    hide Step, Inv, Accepts;
    RunFacts(config, states, calls, replies, i);
    var r := CommitEnds(config, states[i], calls[i], token);
    Fencing(config, states, calls, replies, r, token, i, j);
  }

  /** While the sequence lasts, no two claims of a run hand out the same token. */
  lemma ClaimTokensDistinct(
    config: SchedulerConfig, states: seq<System>, calls: seq<Call>, replies: seq<Reply>, i: nat, j: nat)
    requires IsRun(config, states, calls, replies) && i < j < |calls| && TokensLast(config, states[j])
    requires replies[i].ClaimReply? && replies[i].claimed.Ok? && replies[i].claimed.value.Some?
    requires replies[j].ClaimReply? && replies[j].claimed.Ok? && replies[j].claimed.value.Some?
    ensures replies[i].claimed.value.value.leaseToken != replies[j].claimed.value.value.leaseToken
  {
    hide Step, Inv;
    RunFacts(config, states, calls, replies, i);
    RunFacts(config, states, calls, replies, j);
    SequenceGrows(config, states, calls, replies, i + 1, j);
    ClaimNumber(config, states[i], calls[i]);
    ClaimNumber(config, states[j], calls[j]);
  }

  lemma ClaimNumber(config: SchedulerConfig, s: System, call: Call)
    requires var reply := Step(config, s, call).1; reply.ClaimReply? && reply.claimed.Ok? && reply.claimed.value.Some?
    ensures var number := TokenNumber(Step(config, s, call).1.claimed.value.value.leaseToken);
            && number == Step(config, s, call).0.sequence
            && (number > s.sequence <==> s.sequence < U64_MAX)
  {
    hide Take, TokenNumber;
    match call
    case ClaimCall(owner, now, leaseMs) => FreshTokenIff(Reap(config, s, now).0, owner, now, leaseMs);
    case _ =>
  }

  // ----- Frozen outcomes -----

  /** The whole record of a terminal job survives any call. */
  lemma TerminalFrozen(config: SchedulerConfig, s: System, call: Call, r: JobRef)
    requires Inv(config, s) && r in s.jobs && Terminal(s.jobs[r])
    ensures var s' := Step(config, s, call).0; r in s'.jobs && s'.jobs[r] == s.jobs[r]
  {
    JobAt(config, s, r);
    hide Inv, JobOk, Submit, Take, Heartbeat, Complete, Fail, Cancel, Reap, Terminal, ValidClaim;
    match call
    case SubmitCall(spec, now) => SubmitFrozen(config, s, spec, now, r);
    case ClaimCall(owner, now, leaseMs) =>
      ReapFrozen(config, s, now, r);
      TakeFrozen(Reap(config, s, now).0, owner, now, leaseMs, r);
    case HeartbeatCall(ref, owner, token, now, leaseMs) => HeartbeatFrozen(config, s, ref, owner, token, now, leaseMs, r);
    case CompleteCall(ref, owner, token, result, now) => CompleteFrozen(s, ref, owner, token, result, now, r);
    case FailCall(ref, owner, token, now) => FailFrozen(config, s, ref, owner, token, now, r);
    case ReapCall(now) => ReapFrozen(config, s, now, r);
    case CancelCall(dag) => CancelFrozen(s, dag, r);
  }

  lemma SubmitFrozen(config: SchedulerConfig, s: System, spec: DagSpec, now: I64, r: JobRef)
    requires r in s.jobs && r.dag in s.dags
    ensures var s' := Submit(config, s, spec, now).0; r in s'.jobs && s'.jobs[r] == s.jobs[r]
  {
    hide Submit, Admitted;
    SubmitAdmits(config, s, spec, now);
    if Submit(config, s, spec, now).1.Ok? {
      AdmittedFrozen(config, s, spec, now, Submit(config, s, spec, now).0, r);
    }
  }

  lemma ReapFrozen(config: SchedulerConfig, s: System, now: I64, r: JobRef)
    requires r in s.jobs && Terminal(s.jobs[r])
    ensures r in Reap(config, s, now).0.jobs && Reap(config, s, now).0.jobs[r] == s.jobs[r]
  {
    hide Retried, ExpiredRefs;
  }

  lemma AdmittedFrozen(config: SchedulerConfig, s: System, spec: DagSpec, now: I64, s': System, r: JobRef)
    requires Admitted(config, s, spec, now, s') && r in s.jobs && r.dag in s.dags
    ensures r in s'.jobs && s'.jobs[r] == s.jobs[r]
  {
    hide InitialJobs, V.WellFormed, HasCycle;
    InitialJobsOk(spec, now);
  }

  lemma HeartbeatFrozen(
    config: SchedulerConfig, s: System, ref: JobRef, owner: string, token: string, now: I64, leaseMs: I64, r: JobRef)
    requires r in s.jobs && Terminal(s.jobs[r])
    ensures var s' := Heartbeat(config, s, ref, owner, token, now, leaseMs).0; r in s'.jobs && s'.jobs[r] == s.jobs[r]
  {
  }

  lemma FailFrozen(
    config: SchedulerConfig, s: System, ref: JobRef, owner: string, token: string, now: I64, r: JobRef)
    requires r in s.jobs && Terminal(s.jobs[r])
    ensures var s' := Fail(config, s, ref, owner, token, now).0; r in s'.jobs && s'.jobs[r] == s.jobs[r]
  {
    hide Retried;
  }

  lemma CancelFrozen(s: System, dag: string, r: JobRef)
    requires r in s.jobs && Terminal(s.jobs[r])
    ensures var s' := Cancel(s, dag).0; r in s'.jobs && s'.jobs[r] == s.jobs[r]
  {
    hide LiveKeys, Unfinished;
  }

  lemma CompleteFrozen(s: System, ref: JobRef, owner: string, token: string, result: string, now: I64, r: JobRef)
    requires r in s.jobs && Terminal(s.jobs[r])
    ensures var s' := Complete(s, ref, owner, token, result, now).0; r in s'.jobs && s'.jobs[r] == s.jobs[r]
  {
    hide ParentsIn, Done;
  }

  lemma TakeFrozen(s: System, owner: string, now: I64, leaseMs: I64, r: JobRef)
    requires r in s.jobs && Terminal(s.jobs[r])
    ensures var s' := Take(s, owner, now, leaseMs).0; r in s'.jobs && s'.jobs[r] == s.jobs[r]
  {
    hide KeyLe, Token;
  }

  /** A terminal record never changes again in a run. */
  lemma TerminalForever(
    config: SchedulerConfig, states: seq<System>, calls: seq<Call>, replies: seq<Reply>, r: JobRef, i: nat, j: nat)
    requires IsRun(config, states, calls, replies) && i <= j <= |calls|
    requires r in states[i].jobs && Terminal(states[i].jobs[r])
    ensures r in states[j].jobs && states[j].jobs[r] == states[i].jobs[r]
  {
    hide Step, Inv;
    for k := i to j
      invariant r in states[k].jobs && states[k].jobs[r] == states[i].jobs[r]
    {
      RunFacts(config, states, calls, replies, k);
      TerminalFrozen(config, states[k], calls[k], r);
    }
  }

  /** Each job accepts at most one result. */
  lemma OneResultPerJob(
    config: SchedulerConfig, states: seq<System>, calls: seq<Call>, replies: seq<Reply>, i: nat, j: nat)
    requires IsRun(config, states, calls, replies) && i < j < |calls|
    requires calls[i].CompleteCall? && replies[i].CompleteReply? && replies[i].completed.Ok?
    requires calls[j].CompleteCall? && replies[j].CompleteReply? && replies[j].completed.Ok?
    ensures calls[i].ref != calls[j].ref
  {
    hide Inv;
    RunFacts(config, states, calls, replies, i);
    RunFacts(config, states, calls, replies, j);
    CompletedSucceeds(config, states[i], calls[i]);
    CompletedWasLeased(config, states[j], calls[j]);
    if calls[i].ref == calls[j].ref {
      TerminalForever(config, states, calls, replies, calls[i].ref, i + 1, j);
      assert false;
    }
  }

  lemma CompletedSucceeds(config: SchedulerConfig, s: System, call: Call)
    requires call.CompleteCall? && Step(config, s, call).1 == CompleteReply(Ok(()))
    ensures var s' := Step(config, s, call).0;
            call.ref in s'.jobs && s'.jobs[call.ref].state == Succeeded && s'.jobs[call.ref].result == Some(call.result)
  {
  }

  lemma CompletedWasLeased(config: SchedulerConfig, s: System, call: Call)
    requires call.CompleteCall? && Step(config, s, call).1 == CompleteReply(Ok(()))
    ensures call.ref in s.jobs && s.jobs[call.ref].state == Leased
  {
  }

  // ----- Bounded work -----

  /** How many effective steps a job can still take part in. */
  ghost function Potential(job: Job): nat {
    var left := Max(job.spec.maxAttempts - job.attempts, 0);
    match job.state
    case Pending => 2 * job.spec.maxAttempts + 1
    case Ready => 2 * left
    case RetryWait => 2 * left
    case Leased => 2 * left + 1
    case _ => 0
  }

  ghost function Potentials(jobs: Jobs): map<JobRef, nat> {
    map r | r in jobs :: Potential(jobs[r])
  }

  ghost function Measure(s: System): nat {
    Sum(Potentials(s.jobs))
  }

  /** The effective steps of a call on `s` that answers `reply`: leases reaped, also by a claim before it
      takes one, leases taken and ended, jobs cancelled. */
  ghost function Effect(s: System, call: Call, reply: Reply): nat {
    match (call, reply)
    case (ClaimCall(_, now, _), ClaimReply(Ok(claimed))) =>
      |ExpiredRefs(s.jobs, now)| + if claimed.Some? then 1 else 0
    case (_, CompleteReply(Ok(_))) => 1
    case (_, FailReply(Ok(_))) => 1
    case (_, ReapReply(n)) => n
    case (_, CancelReply(Ok(n))) => n
    case _ => 0
  }

  lemma Drops(jobs: Jobs, jobs': Jobs, drop: set<JobRef>)
    requires jobs'.Keys == jobs.Keys && drop <= jobs.Keys
    requires forall r :: r in jobs ==> Potential(jobs'[r]) <= Potential(jobs[r])
    requires forall r :: r in drop ==> Potential(jobs'[r]) < Potential(jobs[r])
    ensures Sum(Potentials(jobs')) + |drop| <= Sum(Potentials(jobs))
  {
    hide Potential;
    SumDrop(Potentials(jobs'), Potentials(jobs), drop);
  }

  lemma RetryDrops(config: SchedulerConfig, jobId: string, job: Job, now: I64)
    requires JobOk(job) && job.state == Leased
    ensures Potential(Retried(config, jobId, job, now)) < Potential(job)
  {
    hide RetryAt;
  }

  lemma ReapDrops(config: SchedulerConfig, s: System, now: I64)
    requires Inv(config, s)
    ensures Measure(Reap(config, s, now).0) + Reap(config, s, now).1 <= Measure(s)
  {
    hide Inv, Potential, Retried;
    forall r | r in s.jobs && Expired(s.jobs[r], now)
      ensures Potential(Retried(config, r.job, s.jobs[r], now)) < Potential(s.jobs[r])
    {
      JobAt(config, s, r);
      RetryDrops(config, r.job, s.jobs[r], now);
    }
    Drops(s.jobs, ReapedJobs(config, s.jobs, now), ExpiredRefs(s.jobs, now));
  }

  lemma TakeDrops(config: SchedulerConfig, s: System, owner: string, now: I64, leaseMs: I64)
    requires Inv(config, s)
    ensures Measure(Take(s, owner, now, leaseMs).0) + (if Take(s, owner, now, leaseMs).1.Some? then 1 else 0) <= Measure(s)
  {
    hide Inv, Eligible, KeyLe, Token;
    if Eligible(s.jobs, now) != {} {
      var key := LeastKey(Eligible(s.jobs, now));
      EligibleRef(s.jobs, now, key);
      JobAt(config, s, RefOf(key));
      var jobs' := Take(s, owner, now, leaseMs).0.jobs;
      assert Potential(jobs'[RefOf(key)]) < Potential(s.jobs[RefOf(key)]);
      Drops(s.jobs, jobs', {RefOf(key)});
    }
  }

  lemma CompleteDrops(config: SchedulerConfig, s: System, r: JobRef, result: string, now: I64)
    requires Inv(config, s) && r in s.jobs && r.dag in s.dags && s.jobs[r].state == Leased
    ensures var jobs' := WithReleased(s.dags[r.dag], WithSuccess(s.jobs, r, result), r, now);
            Sum(Potentials(jobs')) + 1 <= Sum(Potentials(s.jobs))
  {
    hide Inv, Done, ParentsIn;
    var jobs' := WithReleased(s.dags[r.dag], WithSuccess(s.jobs, r, result), r, now);
    forall c | c in s.jobs ensures Potential(jobs'[c]) <= Potential(s.jobs[c]) {
      JobAt(config, s, c);
    }
    Drops(s.jobs, jobs', {r});
  }

  lemma FailDrops(config: SchedulerConfig, s: System, r: JobRef, now: I64)
    requires Inv(config, s) && r in s.jobs && s.jobs[r].state == Leased
    ensures Sum(Potentials(s.jobs[r := Retried(config, r.job, s.jobs[r], now)])) + 1 <= Sum(Potentials(s.jobs))
  {
    hide Inv;
    JobAt(config, s, r);
    Drops(s.jobs, s.jobs[r := Retried(config, r.job, s.jobs[r], now)], {r});
  }

  lemma CancelDrops(config: SchedulerConfig, s: System, dag: string)
    requires Inv(config, s)
    ensures Sum(Potentials(CancelledJobs(s.jobs, dag))) + |Unfinished(s.jobs, dag)| <= Sum(Potentials(s.jobs))
  {
    hide Inv;
    forall r | r in s.jobs && !Terminal(s.jobs[r]) ensures Potential(s.jobs[r]) > 0 {
      JobAt(config, s, r);
    }
    Drops(s.jobs, CancelledJobs(s.jobs, dag), Unfinished(s.jobs, dag));
  }

  lemma HeartbeatDrops(s: System, r: JobRef, lease: Lease)
    requires r in s.jobs
    ensures Sum(Potentials(s.jobs[r := s.jobs[r].(lease := Some(lease))])) == Sum(Potentials(s.jobs))
  {
    assert Potentials(s.jobs[r := s.jobs[r].(lease := Some(lease))]) == Potentials(s.jobs);
  }

  /** Every call but a submission lowers the measure by at least the effective steps it performed. */
  lemma StepLowersMeasure(config: SchedulerConfig, s: System, call: Call)
    requires Inv(config, s) && !call.SubmitCall?
    ensures Measure(Step(config, s, call).0) + Effect(s, call, Step(config, s, call).1) <= Measure(s)
  {
    hide Inv, Potentials, Sum, ExpiredRefs;
    match call
    case ClaimCall(owner, now, leaseMs) =>
      hide Take;
      if ValidClaim(config, owner, leaseMs) {
        ReapKeeps(config, s, now);
        ReapDrops(config, s, now);
        TakeDrops(config, Reap(config, s, now).0, owner, now, leaseMs);
      }
    case HeartbeatCall(ref, owner, token, now, leaseMs) =>
      if 0 < leaseMs <= config.maxLeaseMs && LeaseError(s, ref, owner, token, now) == None {
        HeartbeatDrops(s, ref, Lease(owner, token, SatAdd(now, leaseMs)));
      }
    case CompleteCall(ref, owner, token, result, now) =>
      if LeaseError(s, ref, owner, token, now) == None {
        CompleteDrops(config, s, ref, result, now);
      }
    case FailCall(ref, owner, token, now) =>
      if LeaseError(s, ref, owner, token, now) == None {
        FailDrops(config, s, ref, now);
      }
    case ReapCall(now) => ReapDrops(config, s, now);
    case CancelCall(dag) => CancelDrops(config, s, dag);
  }

  /** The effective steps of the calls from `i` up to `j`. */
  ghost function Effects(states: seq<System>, calls: seq<Call>, replies: seq<Reply>, i: nat, j: nat): nat
    requires i <= j <= |calls| == |replies| && |calls| <= |states|
    decreases j
  {
    if i == j then 0
    else Effects(states, calls, replies, i, j - 1) + Effect(states[j - 1], calls[j - 1], replies[j - 1])
  }

  /** A fixed set of graphs admits only boundedly many effective steps, however long the run goes on. */
  lemma BoundedWork(
    config: SchedulerConfig, states: seq<System>, calls: seq<Call>, replies: seq<Reply>, i: nat, j: nat)
    requires IsRun(config, states, calls, replies) && i <= j <= |calls|
    requires forall k :: i <= k < j ==> !calls[k].SubmitCall?
    ensures Effects(states, calls, replies, i, j) + Measure(states[j]) <= Measure(states[i])
    ensures Measure(states[i]) <= 41 * |states[i].jobs|
  {
    hide Step, Inv, Measure, Effect;
    for k := i to j
      invariant Effects(states, calls, replies, i, k) + Measure(states[k]) <= Measure(states[i])
    {
      RunFacts(config, states, calls, replies, k);
      StepLowersMeasure(config, states[k], calls[k]);
    }
    RunFacts(config, states, calls, replies, i);
    MeasureBound(config, states[i]);
  }

  lemma MeasureBound(config: SchedulerConfig, s: System)
    requires Inv(config, s)
    ensures Measure(s) <= 41 * |s.jobs|
  {
    hide Inv, Sum;
    forall r | r in s.jobs ensures Potential(s.jobs[r]) <= 41 {
      JobAt(config, s, r);
    }
    SumBounded(Potentials(s.jobs), 41);
    assert Potentials(s.jobs).Keys == s.jobs.Keys;
    assert |Potentials(s.jobs)| == |Potentials(s.jobs).Keys| && |s.jobs| == |s.jobs.Keys|;
  }

  // ----- Reaping -----

  /** After a reap no lease is overdue, and a second reap at the same time finds nothing and changes nothing. */
  lemma ReapIdempotent(config: SchedulerConfig, s: System, now: I64)
    requires Inv(config, s)
    ensures var s' := Reap(config, s, now).0;
            && ExpiredRefs(s'.jobs, now) == {}
            && Reap(config, s', now) == (s', 0)
  {
    hide Inv;
    var s' := Reap(config, s, now).0;
    assert ExpiredRefs(s'.jobs, now) == {};
    assert ReapedJobs(config, s'.jobs, now) == s'.jobs;
  }
}
