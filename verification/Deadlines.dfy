/** How long a lease lasts in a run of the lease machine: from the claim or heartbeat that last set it, for as
    long as that asked, unless its job is completed, failed or cancelled before. */
module Deadlines {
  import opened Prelude
  import opened Domain
  import opened B = Backoff
  import opened LeaseMachine
  import opened LeaseInvariants
  import opened CallEffects
  import Runs
  import V = Validation

  /** The call gave `r` a lease or a new deadline. */
  predicate SetsLease(call: Call, reply: Reply, r: JobRef) {
    match (call, reply)
    case (ClaimCall(_, _, _), ClaimReply(Ok(Some(c)))) => JobRef(c.dagId, c.jobId) == r
    case (HeartbeatCall(ref, _, _, _, _), HeartbeatReply(Ok(_))) => ref == r
    case _ => false
  }

  /** The lease such a call leaves: its owner, its token, and its time plus its duration. */
  function LeaseOf(call: Call, reply: Reply): Lease
    requires exists r :: SetsLease(call, reply, r)
  {
    Lease(
      call.owner,
      if call.ClaimCall? then reply.claimed.value.value.leaseToken else call.token,
      Min(I64_MAX, Max(I64_MIN, call.now + call.leaseMs)))
  }

  ghost predicate HoldsExactly(jobs: Jobs, r: JobRef, lease: Lease) {
    r in jobs && jobs[r].state == Leased && jobs[r].lease == Some(lease)
  }

  lemma LeaseIsSet(config: SchedulerConfig, s: System, call: Call, r: JobRef)
    requires Inv(config, s) && SetsLease(call, Step(config, s, call).1, r)
    ensures HoldsExactly(Step(config, s, call).0.jobs, r, LeaseOf(call, Step(config, s, call).1))
  {
    hide Inv, Claim, Heartbeat;
    match call
    case ClaimCall(owner, now, leaseMs) => ClaimSets(config, s, owner, now, leaseMs, r);
    case HeartbeatCall(ref, owner, token, now, leaseMs) =>
      HeartbeatAnswers(config, s, ref, owner, token, now, leaseMs);
      hide LeaseError;
    case _ =>
  }

  lemma ClaimSets(config: SchedulerConfig, s: System, owner: string, now: I64, leaseMs: I64, r: JobRef)
    requires Inv(config, s)
    requires SetsLease(ClaimCall(owner, now, leaseMs), ClaimReply(Claim(config, s, owner, now, leaseMs).1), r)
    ensures var (s', answer) := Claim(config, s, owner, now, leaseMs);
            leaseMs > 0 && answer.Ok? && answer.value.Some?
            && HoldsExactly(s'.jobs, r, Lease(owner, answer.value.value.leaseToken, Min(I64_MAX, now + leaseMs)))
  {
    hide Inv, Claim, Take, Reap, HoldsExactly;
    ClaimAnswers(config, s, owner, now, leaseMs);
    if Claim(config, s, owner, now, leaseMs).1.Ok? {
      ReapKeeps(config, s, now);
      TakeSets(config, Reap(config, s, now).0, owner, now, leaseMs);
    }
  }

  lemma TakeSets(config: SchedulerConfig, s: System, owner: string, now: I64, leaseMs: I64)
    requires Inv(config, s) && leaseMs > 0
    ensures var (s', claimed) := Take(s, owner, now, leaseMs);
            claimed.Some? ==>
              HoldsExactly(
                s'.jobs, JobRef(claimed.value.dagId, claimed.value.jobId),
                Lease(owner, claimed.value.leaseToken, Min(I64_MAX, now + leaseMs)))
  {
    hide Inv, Take, GoesBefore, Decimal;
    TakeAnswers(config, s, owner, now, leaseMs);
  }

  /** A job leased after a call that did not set its lease was leased before, and its record is the same. */
  lemma LeaseIsKept(config: SchedulerConfig, s: System, call: Call, r: JobRef)
    requires Inv(config, s) && !SetsLease(call, Step(config, s, call).1, r)
    requires var jobs' := Step(config, s, call).0.jobs; r in jobs' && jobs'[r].state == Leased
    ensures r in s.jobs && s.jobs[r] == Step(config, s, call).0.jobs[r]
  {
    hide Inv, Submit, Claim, Heartbeat, Complete, Fail, Reap, Cancel, Entitled, SetFree, Admissible, Changed;
    match call
    case SubmitCall(spec, now) => SubmitLeasesNothing(config, s, spec, now, r);
    case ClaimCall(owner, now, leaseMs) => ClaimKeepsOthers(config, s, owner, now, leaseMs, r);
    case HeartbeatCall(ref, owner, token, now, leaseMs) =>
      HeartbeatAnswers(config, s, ref, owner, token, now, leaseMs);
      hide LeaseError;
    case CompleteCall(ref, owner, token, result, now) =>
      CompleteAnswers(config, s, ref, owner, token, result, now);
      hide LeaseError;
    case FailCall(ref, owner, token, now) =>
      FailAnswers(config, s, ref, owner, token, now);
      hide LeaseError, B.Delay;
    case ReapCall(now) =>
      ReapAnswers(config, s, now);
      hide B.Delay;
    case CancelCall(dag) => CancelAnswers(config, s, dag);
  }

  lemma SubmitLeasesNothing(config: SchedulerConfig, s: System, spec: DagSpec, now: I64, r: JobRef)
    requires Inv(config, s)
    requires var jobs' := Submit(config, s, spec, now).0.jobs; r in jobs' && jobs'[r].state == Leased
    ensures r in s.jobs && s.jobs[r] == Submit(config, s, spec, now).0.jobs[r]
  {
    hide Inv, Submit, Admissible, ReadyFits, Roots;
    SubmitAnswers(config, s, spec, now);
    if Submit(config, s, spec, now).1.Ok? {
      SubmitAdds(config, s, spec, now);
    }
  }

  lemma ClaimKeepsOthers(
    config: SchedulerConfig, s: System, owner: string, now: I64, leaseMs: I64, r: JobRef)
    requires Inv(config, s)
    requires !SetsLease(ClaimCall(owner, now, leaseMs), ClaimReply(Claim(config, s, owner, now, leaseMs).1), r)
    requires var jobs' := Claim(config, s, owner, now, leaseMs).0.jobs; r in jobs' && jobs'[r].state == Leased
    ensures r in s.jobs && s.jobs[r] == Claim(config, s, owner, now, leaseMs).0.jobs[r]
  {
    hide Inv, Claim, Take, Reap, IsDue, GoesBefore, Granted, Changed, B.Delay;
    ClaimAnswers(config, s, owner, now, leaseMs);
    if Claim(config, s, owner, now, leaseMs).1.Ok? {
      ReapAnswers(config, s, now);
      ReapKeeps(config, s, now);
      TakeAnswers(config, Reap(config, s, now).0, owner, now, leaseMs);
    }
  }

  /** The lease stands as it was last set for as long as its job is leased. */
  lemma LeaseStands(
    config: SchedulerConfig, states: seq<System>, calls: seq<Call>, replies: seq<Reply>, i: nat, j: nat, r: JobRef)
    requires IsRun(config, states, calls, replies) && i < j <= |calls| && SetsLease(calls[i], replies[i], r)
    requires forall k :: i < k < j ==> !SetsLease(calls[k], replies[k], r)
    requires r in states[j].jobs && states[j].jobs[r].state == Leased
    ensures HoldsExactly(states[j].jobs, r, LeaseOf(calls[i], replies[i]))
  {
    hide Inv, Step, SetsLease, LeaseOf;
    Runs.RunFacts(config, states, calls, replies, i);
    LeaseIsSet(config, states[i], calls[i], r);
    var k := j;
    while k > i + 1
      invariant i < k <= j
      invariant r in states[k].jobs && states[k].jobs[r] == states[j].jobs[r]
      decreases k
    {
      k := k - 1;
      Runs.RunFacts(config, states, calls, replies, k);
      LeaseIsKept(config, states[k], calls[k], r);
    }
  }

  /** A reap, or the reap inside a claim. */
  predicate Reaps(call: Call, reply: Reply) {
    call.ReapCall? || (call.ClaimCall? && reply.ClaimReply? && reply.claimed.Ok?)
  }

  /** Such a call leaves a lease with time left alone and ends one without. */
  lemma ReapsByDeadline(config: SchedulerConfig, s: System, call: Call, r: JobRef, lease: Lease)
    requires Inv(config, s) && Reaps(call, Step(config, s, call).1) && HoldsExactly(s.jobs, r, lease)
    ensures var jobs' := Step(config, s, call).0.jobs;
            && r in jobs'
            && (call.now < lease.expiresAtMs ==> jobs'[r] == s.jobs[r])
            && (call.now >= lease.expiresAtMs ==> jobs'[r].state != Leased || jobs'[r].attempts > s.jobs[r].attempts)
  {
    hide Inv, Claim, Reap;
    match call
    case ReapCall(now) => ReapByDeadline(config, s, now, r, lease);
    case ClaimCall(owner, now, leaseMs) => ClaimByDeadline(config, s, owner, now, leaseMs, r, lease);
    case _ =>
  }

  lemma ReapByDeadline(config: SchedulerConfig, s: System, now: I64, r: JobRef, lease: Lease)
    requires Inv(config, s) && HoldsExactly(s.jobs, r, lease)
    ensures var jobs' := Reap(config, s, now).0.jobs;
            && r in jobs'
            && (now < lease.expiresAtMs ==> jobs'[r] == s.jobs[r])
            && (now >= lease.expiresAtMs ==> jobs'[r].state != Leased && jobs'[r].attempts == s.jobs[r].attempts)
  {
    hide Inv, Reap, Changed, B.Delay;
    ReapAnswers(config, s, now);
  }

  lemma ClaimByDeadline(
    config: SchedulerConfig, s: System, owner: string, now: I64, leaseMs: I64, r: JobRef, lease: Lease)
    requires Inv(config, s) && HoldsExactly(s.jobs, r, lease) && Claim(config, s, owner, now, leaseMs).1.Ok?
    ensures var jobs' := Claim(config, s, owner, now, leaseMs).0.jobs;
            && r in jobs'
            && (now < lease.expiresAtMs ==> jobs'[r] == s.jobs[r])
            && (now >= lease.expiresAtMs ==> jobs'[r].state != Leased || jobs'[r].attempts > s.jobs[r].attempts)
  {
    hide Inv, Claim, Take, Reap, GoesBefore;
    ReapByDeadline(config, s, now, r, lease);
    ReapKeeps(config, s, now);
    ClaimAnswers(config, s, owner, now, leaseMs);
    TakeAnswers(config, Reap(config, s, now).0, owner, now, leaseMs);
  }

  /** A lease set at `t` for `d` is left alone by every reap before `t + d` and ended by the first one from
      then on, also when the reap is part of a claim. */
  lemma LeaseLastsItsTime(
    config: SchedulerConfig, states: seq<System>, calls: seq<Call>, replies: seq<Reply>, i: nat, j: nat, r: JobRef)
    requires IsRun(config, states, calls, replies) && i < j < |calls| && SetsLease(calls[i], replies[i], r)
    requires forall k :: i < k < j ==> !SetsLease(calls[k], replies[k], r)
    requires r in states[j].jobs && states[j].jobs[r].state == Leased && Reaps(calls[j], replies[j])
    ensures var until := Min(I64_MAX, calls[i].now + calls[i].leaseMs);
            && r in states[j + 1].jobs
            && (calls[j].now < until ==> states[j + 1].jobs[r] == states[j].jobs[r])
            && (calls[j].now >= until ==>
                  states[j + 1].jobs[r].state != Leased || states[j + 1].jobs[r].attempts > states[j].jobs[r].attempts)
  {
    hide Inv, Step, HoldsExactly;
    LeaseStands(config, states, calls, replies, i, j, r);
    Runs.RunFacts(config, states, calls, replies, i);
    Runs.RunFacts(config, states, calls, replies, j);
    PositiveDuration(config, states[i], calls[i], r);
    ReapsByDeadline(config, states[j], calls[j], r, LeaseOf(calls[i], replies[i]));
  }

  lemma PositiveDuration(config: SchedulerConfig, s: System, call: Call, r: JobRef)
    requires SetsLease(call, Step(config, s, call).1, r)
    ensures call.leaseMs > 0
  {
    hide Take, Reap, LeaseError;
  }

  /** Within that time its holder, and nobody else, is heard. */
  lemma HolderIsHeard(
    config: SchedulerConfig, states: seq<System>, calls: seq<Call>, replies: seq<Reply>, i: nat, j: nat, r: JobRef)
    requires IsRun(config, states, calls, replies) && i < j < |calls| && SetsLease(calls[i], replies[i], r)
    requires forall k :: i < k < j ==> !SetsLease(calls[k], replies[k], r)
    requires r in states[j].jobs && states[j].jobs[r].state == Leased
    requires (calls[j].FailCall? || calls[j].CompleteCall? || calls[j].HeartbeatCall?) && calls[j].ref == r
    requires calls[j].CompleteCall? ==> |calls[j].result| <= 4096
    requires calls[j].HeartbeatCall? ==> 0 < calls[j].leaseMs <= config.maxLeaseMs
    ensures !IsError(replies[j]) <==>
            && calls[j].owner == LeaseOf(calls[i], replies[i]).owner
            && calls[j].token == LeaseOf(calls[i], replies[i]).token
            && calls[j].now < Min(I64_MAX, calls[i].now + calls[i].leaseMs)
  {
    hide Inv, Step;
    LeaseStands(config, states, calls, replies, i, j, r);
    Runs.RunFacts(config, states, calls, replies, i);
    Runs.RunFacts(config, states, calls, replies, j);
    PositiveDuration(config, states[i], calls[i], r);
    Heard(config, states[j], calls[j], LeaseOf(calls[i], replies[i]));
  }

  lemma Heard(config: SchedulerConfig, s: System, call: Call, lease: Lease)
    requires Inv(config, s) && (call.FailCall? || call.CompleteCall? || call.HeartbeatCall?)
    requires HoldsExactly(s.jobs, call.ref, lease)
    requires call.CompleteCall? ==> |call.result| <= 4096
    requires call.HeartbeatCall? ==> 0 < call.leaseMs <= config.maxLeaseMs
    ensures !IsError(Step(config, s, call).1) <==>
            call.owner == lease.owner && call.token == lease.token && call.now < lease.expiresAtMs
  {
    hide Inv, Heartbeat, Complete, Fail, LeaseError, SetFree, SentBack;
    match call
    case HeartbeatCall(ref, owner, token, now, leaseMs) =>
      HeartbeatAnswers(config, s, ref, owner, token, now, leaseMs);
    case CompleteCall(ref, owner, token, result, now) => CompleteAnswers(config, s, ref, owner, token, result, now);
    case FailCall(ref, owner, token, now) => FailAnswers(config, s, ref, owner, token, now);
    case _ =>
  }
}
