/** Progress of the lease machine: an unfinished graph is never stuck, and claim-complete rounds drain it
    in topological order. Both rest on the acyclicity that validation establishes. */
module Liveness {
  import opened Prelude
  import opened Collections
  import opened Domain
  import opened Graphs
  import opened Multigraphs
  import opened Backoff
  import opened LeaseMachine
  import opened LeaseInvariants
  import opened Runs
  import V = Validation

  // ----- No stall -----

  /** Somebody can still act on this job, or an operator has to. */
  predicate Active(job: Job) {
    job.state == Ready || job.state == RetryWait || job.state == Leased || job.state == DeadLettered
  }

  ghost predicate NoneCancelled(jobs: Jobs, dag: string) {
    forall r :: r in jobs && r.dag == dag ==> jobs[r].state != Cancelled
  }

  ghost predicate ActiveAncestor(edges: Edges, jobs: Jobs, r: JobRef, a: string) {
    JobRef(r.dag, a) in jobs && Active(jobs[JobRef(r.dag, a)]) && Reaches(edges, a, r.job)
  }

  /** One graph: its edges join its jobs without a cycle, and pending jobs wait for a parent. */
  ghost predicate GraphWaits(edges: Edges, jobs: Jobs, dag: string) {
    GraphOk(edges, jobs, dag) && forall c :: c in jobs && c.dag == dag ==> DependencyOk(edges, jobs, c)
  }

  ghost function Blocked(edges: Edges, jobs: Jobs, r: JobRef): set<string> {
    set c | c in jobs && c.dag == r.dag && jobs[c].state == Pending && Reaches(edges, c.job, r.job) :: c.job
  }

  /** If nobody acts above `r`, every blocked job above it waits for another blocked one: a cycle. */
  lemma WaitingEnds(edges: Edges, jobs: Jobs, r: JobRef)
    requires GraphWaits(edges, jobs, r.dag) && NoneCancelled(jobs, r.dag) && r in jobs && jobs[r].state == Pending
    ensures exists a :: ActiveAncestor(edges, jobs, r, a)
  {
    var blocked := Blocked(edges, jobs, r);
    ReachesSelf(edges, r.job);
    assert r.job in blocked;
    hide Reaches, DependencyOk, NoneCancelled;
    if forall a :: !ActiveAncestor(edges, jobs, r, a) {
      forall x | x in blocked ensures HasPredecessorIn(edges, blocked, x) {
        BlockedParent(edges, jobs, r, x);
      }
      ClosedSetHasCycle(edges, blocked);
      assert false;
    }
  }

  lemma BlockedParent(edges: Edges, jobs: Jobs, r: JobRef, x: string)
    requires GraphWaits(edges, jobs, r.dag) && NoneCancelled(jobs, r.dag) && x in Blocked(edges, jobs, r)
    requires forall a :: !ActiveAncestor(edges, jobs, r, a)
    ensures HasPredecessorIn(edges, Blocked(edges, jobs, r), x)
  {
    hide HasCycle, Reaches;
    assert DependencyOk(edges, jobs, JobRef(r.dag, x));
    var e :| e in edges && e.to == x && e.from !in Done(jobs, r.dag);
    var p := JobRef(r.dag, e.from);
    assert p in jobs && jobs[p].state != Succeeded;
    assert e == Dependency(e.from, x);
    ReachesBackwards(edges, e.from, x, r.job);
    assert !ActiveAncestor(edges, jobs, r, e.from);
    assert p.job in Blocked(edges, jobs, r);
  }

  /** Every pending job of an uncancelled graph has an ancestor that is ready, waiting, leased or dead. */
  lemma NoStall(config: SchedulerConfig, s: System, r: JobRef)
    requires Inv(config, s) && r in s.jobs && s.jobs[r].state == Pending && NoneCancelled(s.jobs, r.dag)
    ensures r.dag in s.dags && exists a :: ActiveAncestor(s.dags[r.dag], s.jobs, r, a)
  {
    hide JobOk, GraphOk, DependencyOk, StaleOk, TokensOk, CountsOk, NoneCancelled, ActiveAncestor;
    WaitingEnds(s.dags[r.dag], s.jobs, r);
  }

  /** Without dead letters, an unfinished uncancelled graph has a job that is ready, waiting or leased. */
  lemma UnfinishedIsActive(config: SchedulerConfig, s: System, r: JobRef)
    requires Inv(config, s) && r in s.jobs && !Terminal(s.jobs[r]) && NoneCancelled(s.jobs, r.dag)
    requires forall c :: c in s.jobs && c.dag == r.dag ==> s.jobs[c].state != DeadLettered
    ensures exists c :: c in s.jobs && c.dag == r.dag && (Waiting(s.jobs[c]) || s.jobs[c].state == Leased)
  {
    hide Inv, Reaches;
    if s.jobs[r].state == Pending {
      NoStall(config, s, r);
      var a :| ActiveAncestor(s.dags[r.dag], s.jobs, r, a);
      assert JobRef(r.dag, a) in s.jobs;
    }
  }

  /** Only a cancellation of its graph cancels a job. */
  lemma StepCancelsOnly(config: SchedulerConfig, s: System, call: Call, dag: string)
    requires Inv(config, s) && NoneCancelled(s.jobs, dag) && call != CancelCall(dag)
    ensures NoneCancelled(Step(config, s, call).0.jobs, dag)
  {
    hide Inv, Admitted, Submit;
    match call
    case SubmitCall(spec, now) =>
      SubmitAdmits(config, s, spec, now);
      if Submit(config, s, spec, now).1.Ok? {
        AdmittedCancelsNothing(config, s, spec, now, Submit(config, s, spec, now).0, dag);
      }
    case ClaimCall(owner, now, leaseMs) => ClaimCancelsNothing(config, s, owner, now, leaseMs, dag);
    case HeartbeatCall(ref, owner, token, now, leaseMs) =>
    case CompleteCall(ref, owner, token, result, now) => CompleteCancelsNothing(s, ref, owner, token, result, now, dag);
    case FailCall(ref, owner, token, now) =>
    case ReapCall(now) =>
    case CancelCall(other) =>
  }

  lemma AdmittedCancelsNothing(
    config: SchedulerConfig, s: System, spec: DagSpec, now: I64, s': System, dag: string)
    requires Admitted(config, s, spec, now, s') && NoneCancelled(s.jobs, dag)
    ensures NoneCancelled(s'.jobs, dag)
  {
    hide InitialJobs, V.WellFormed, HasCycle;
    InitialJobsOk(spec, now);
  }

  lemma ClaimCancelsNothing(config: SchedulerConfig, s: System, owner: string, now: I64, leaseMs: I64, dag: string)
    requires NoneCancelled(s.jobs, dag)
    ensures NoneCancelled(Claim(config, s, owner, now, leaseMs).0.jobs, dag)
  {
    hide KeyLe, Token, Eligible;
    assert NoneCancelled(Reap(config, s, now).0.jobs, dag);
  }

  lemma CompleteCancelsNothing(
    s: System, ref: JobRef, owner: string, token: string, result: string, now: I64, dag: string)
    requires NoneCancelled(s.jobs, dag)
    ensures NoneCancelled(Complete(s, ref, owner, token, result, now).0.jobs, dag)
  {
    hide Done, ParentsIn;
  }

  /** No stall over whole runs: as long as nobody cancels the graph, each of its pending jobs has an active
      ancestor in every state. */
  lemma RunNeverStalls(
    config: SchedulerConfig, states: seq<System>, calls: seq<Call>, replies: seq<Reply>, i: nat, r: JobRef)
    requires IsRun(config, states, calls, replies) && i <= |calls|
    requires forall k :: 0 <= k < i ==> calls[k] != CancelCall(r.dag)
    requires r in states[i].jobs && states[i].jobs[r].state == Pending
    ensures r.dag in states[i].dags && exists a :: ActiveAncestor(states[i].dags[r.dag], states[i].jobs, r, a)
  {
    hide Step, Inv;
    for k := 0 to i
      invariant NoneCancelled(states[k].jobs, r.dag)
    {
      RunFacts(config, states, calls, replies, k);
      StepCancelsOnly(config, states[k], calls[k], r.dag);
    }
    RunFacts(config, states, calls, replies, i);
    NoStall(config, states[i], r);
  }

  // ----- Drain -----

  /** One claim followed by the completion of what was claimed. */
  datatype Round = Round(owner: string, claimAt: I64, leaseMs: I64, result: string, completeAt: I64)

  /** Rounds that respect the limits, in nondecreasing time, completing before the deadline. */
  ghost predicate RoundOk(config: SchedulerConfig, round: Round, start: I64) {
    && ValidClaim(config, round.owner, round.leaseMs)
    && |round.result| <= MAX_PAYLOAD_BYTES
    && start <= round.claimAt <= round.completeAt < I64_MAX
    && round.completeAt < round.claimAt + round.leaseMs
  }

  ghost predicate RoundsOk(config: SchedulerConfig, rounds: seq<Round>, start: I64) {
    forall i :: 0 <= i < |rounds| ==> RoundOk(config, rounds[i], StartOf(rounds, start, i))
  }

  /** The earliest time of the round at `i`. */
  function StartOf(rounds: seq<Round>, start: I64, i: nat): I64
    requires i <= |rounds|
  {
    if i == 0 then start else rounds[i - 1].completeAt
  }

  /** Claims, and if something was claimed completes it with the token just received. */
  ghost function PlayRound(config: SchedulerConfig, s: System, round: Round): (System, Option<JobRef>) {
    var (s1, claimed) := Claim(config, s, round.owner, round.claimAt, round.leaseMs);
    if claimed.Ok? && claimed.value.Some? then
      var r := JobRef(claimed.value.value.dagId, claimed.value.value.jobId);
      (Complete(s1, r, round.owner, claimed.value.value.leaseToken, round.result, round.completeAt).0, Some(r))
    else (s1, None)
  }

  /** All rounds in turn, with the ids claimed. */
  ghost function Play(config: SchedulerConfig, s: System, rounds: seq<Round>): (System, seq<string>) {
    if rounds == [] then (s, [])
    else
      var (s1, ids) := Play(config, s, rounds[..|rounds| - 1]);
      var (s2, claimed) := PlayRound(config, s1, rounds[|rounds| - 1]);
      (s2, ids + if claimed.Some? then [claimed.value.job] else [])
  }

  /** The state between rounds: `order` has been completed, in an order that respects the edges. */
  ghost predicate Draining(s: System, dag: string, edges: Edges, order: seq<string>, now: I64) {
    && s.dags.Keys == {dag} && s.dags[dag] == edges
    && (forall r :: r in s.jobs ==>
          && r.dag == dag
          && (s.jobs[r].state == Pending || s.jobs[r].state == Ready || s.jobs[r].state == Succeeded)
          && (s.jobs[r].state == Ready ==> s.jobs[r].availableAtMs <= now))
    && NoDuplicates(order) && Elements(order) == Done(s.jobs, dag)
    && forall k :: 0 <= k < |order| ==> ParentsIn(edges, Elements(order[..k]), order[k])
  }

  /** With work left, a round claims a job all of whose parents are done, and completes it. */
  lemma RoundDrains(
    config: SchedulerConfig, s: System, dag: string, edges: Edges, order: seq<string>, now: I64, round: Round)
    requires Inv(config, s) && Draining(s, dag, edges, order, now) && RoundOk(config, round, now)
    requires |order| < |s.jobs|
    ensures var (s', claimed) := PlayRound(config, s, round);
            && claimed.Some? && claimed.value.dag == dag
            && Inv(config, s') && s'.jobs.Keys == s.jobs.Keys
            && Draining(s', dag, edges, order + [claimed.value.job], round.completeAt)
  {
    hide Inv, Draining;
    NothingLeased(config, s, dag, edges, order, now, round.claimAt);
    SomethingReady(config, s, dag, edges, order, now, round.claimAt);
    TakesReady(config, s, dag, edges, order, now, round);
    var (s1, claimed) := Take(s, round.owner, round.claimAt, round.leaseMs);
    var r := JobRef(claimed.value.dagId, claimed.value.jobId);
    TakeKeeps(config, s, round.owner, round.claimAt, round.leaseMs);
    CompleteKeeps(config, s1, r, round.owner, claimed.value.leaseToken, round.result, round.completeAt);
    CompletesTaken(config, s, dag, edges, order, now, round, r, s1, claimed.value.leaseToken);
  }

  lemma NothingLeased(
    config: SchedulerConfig, s: System, dag: string, edges: Edges, order: seq<string>, now: I64, at: I64)
    requires Draining(s, dag, edges, order, now)
    ensures Reap(config, s, at).0 == s
  {
    assert ReapedJobs(config, s.jobs, at) == s.jobs;
  }

  lemma SomethingReady(
    config: SchedulerConfig, s: System, dag: string, edges: Edges, order: seq<string>, now: I64, at: I64)
    requires Inv(config, s) && Draining(s, dag, edges, order, now) && now <= at
    requires |order| < |s.jobs|
    ensures Eligible(s.jobs, at) != {}
  {
    hide Inv, Reaches;
    var c := NotAllDone(s, dag, edges, order, now);
    var ready := c;
    if s.jobs[c].state == Pending {
      NoStall(config, s, c);
      var a :| ActiveAncestor(s.dags[c.dag], s.jobs, c, a);
      ready := JobRef(c.dag, a);
    }
    assert KeyOf(ready, s.jobs[ready]) in Eligible(s.jobs, at);
  }

  lemma NotAllDone(s: System, dag: string, edges: Edges, order: seq<string>, now: I64) returns (c: JobRef)
    requires Draining(s, dag, edges, order, now) && |order| < |s.jobs|
    ensures c in s.jobs && s.jobs[c].state != Succeeded
  {
    LengthOfDistinct(order);
    assert |s.jobs| == |s.jobs.Keys|;
    if forall r :: r in s.jobs ==> s.jobs[r].state == Succeeded {
      RefsOf(dag, Elements(order), s.jobs.Keys);
      assert false;
    }
    c :| c in s.jobs && s.jobs[c].state != Succeeded;
  }

  /** What the claim of a round takes. */
  lemma TakesReady(
    config: SchedulerConfig, s: System, dag: string, edges: Edges, order: seq<string>, now: I64, round: Round)
    requires Inv(config, s) && Draining(s, dag, edges, order, now) && RoundOk(config, round, now)
    requires Eligible(s.jobs, round.claimAt) != {}
    ensures var (s1, claimed) := Take(s, round.owner, round.claimAt, round.leaseMs);
            && claimed.Some?
            && var r := JobRef(claimed.value.dagId, claimed.value.jobId);
               && r in s.jobs && r.dag == dag && s.jobs[r].state == Ready && ParentsIn(edges, Done(s.jobs, dag), r.job)
               && s1.dags == s.dags
               && s1.jobs == s.jobs[r := LeasedTo(s.jobs[r], round.owner, claimed.value.leaseToken,
                                                   SatAdd(round.claimAt, round.leaseMs))]
  {
    hide JobsOk, GraphsOk, StaleOk, TokensOk, CountsOk, Eligible, KeyLe, Token, ParentsIn, Done;
    var key := LeastKey(Eligible(s.jobs, round.claimAt));
    EligibleRef(s.jobs, round.claimAt, key);
    assert DependencyOk(edges, s.jobs, RefOf(key));
  }

  lemma CompletesTaken(
    config: SchedulerConfig, s: System, dag: string, edges: Edges, order: seq<string>, now: I64, round: Round, r: JobRef,
    s1: System, token: string)
    requires Draining(s, dag, edges, order, now) && RoundOk(config, round, now)
    requires r in s.jobs && s.jobs[r].state == Ready && ParentsIn(edges, Done(s.jobs, dag), r.job)
    requires s1.dags == s.dags
    requires s1.jobs == s.jobs[r := LeasedTo(s.jobs[r], round.owner, token, SatAdd(round.claimAt, round.leaseMs))]
    ensures var s' := Complete(s1, r, round.owner, token, round.result, round.completeAt).0;
            s'.jobs.Keys == s.jobs.Keys && Draining(s', dag, edges, order + [r.job], round.completeAt)
  {
    hide ParentsIn, NoDuplicates, Elements, Done;
    assert LeaseError(s1, r, round.owner, token, round.completeAt) == None;
    var mid := WithSuccess(s1.jobs, r, round.result);
    var s' := Complete(s1, r, round.owner, token, round.result, round.completeAt).0;
    assert s'.jobs == WithReleased(edges, mid, r, round.completeAt);
    DoneAfterLease(s.jobs, r, s1.jobs[r], dag);
    DoneAfterSuccess(s1.jobs, r, round.result, dag);
    DoneAfterRelease(edges, mid, r, round.completeAt, dag);
    OrderGrows(s.jobs, edges, order, r);
  }

  lemma DoneAfterLease(jobs: Jobs, r: JobRef, job: Job, dag: string)
    requires r in jobs && jobs[r].state != Succeeded && job.state != Succeeded
    ensures Done(jobs[r := job], dag) == Done(jobs, dag)
  {
    SameDone(jobs, jobs[r := job], dag);
  }

  lemma OrderGrows(jobs: Jobs, edges: Edges, order: seq<string>, r: JobRef)
    requires r in jobs && jobs[r].state != Succeeded
    requires NoDuplicates(order) && Elements(order) == Done(jobs, r.dag) && ParentsIn(edges, Done(jobs, r.dag), r.job)
    requires forall k :: 0 <= k < |order| ==> ParentsIn(edges, Elements(order[..k]), order[k])
    ensures NoDuplicates(order + [r.job]) && Elements(order + [r.job]) == Done(jobs, r.dag) + {r.job}
    ensures forall k :: 0 <= k < |order| + 1 ==>
      ParentsIn(edges, Elements((order + [r.job])[..k]), (order + [r.job])[k])
  {
    hide ParentsIn;
    var order' := order + [r.job];
    assert r.job !in Elements(order);
    forall k | 0 <= k < |order| + 1 ensures ParentsIn(edges, Elements(order'[..k]), order'[k]) {
      if k < |order| {
        assert order'[..k] == order[..k];
      } else {
        assert order'[..k] == order;
      }
    }
  }

  /** The state after an accepted submission into an empty system. */
  lemma SubmitStartsDraining(config: SchedulerConfig, s: System, spec: DagSpec, now: I64)
    requires IsEmpty(s) && Submit(config, s, spec, now).1.Ok?
    ensures var s' := Submit(config, s, spec, now).0;
            && Inv(config, s')
            && Draining(s', spec.id, V.EdgeSet(spec), [], now)
            && (forall r :: r in s'.jobs <==> r.dag == spec.id && r.job in V.JobIds(spec))
            && |s'.jobs| == |spec.jobs|
  {
    hide Inv, Submit;
    EmptyOk(config, s);
    SubmitKeeps(config, s, spec, now);
    SubmitAdmits(config, s, spec, now);
    AdmittedDrains(config, s, spec, now, Submit(config, s, spec, now).0);
  }

  lemma AdmittedDrains(config: SchedulerConfig, s: System, spec: DagSpec, now: I64, s': System)
    requires IsEmpty(s) && Admitted(config, s, spec, now, s')
    ensures Draining(s', spec.id, V.EdgeSet(spec), [], now)
    ensures forall r :: r in s'.jobs <==> r.dag == spec.id && r.job in V.JobIds(spec)
    ensures |s'.jobs| == |spec.jobs|
  {
    hide InitialJobs, V.WellFormed, HasCycle, JobOk, V.JobIds, V.EdgeSet, Draining, ParentsIn;
    InitialJobsOk(spec, now);
    InitialCounts(spec, now);
    assert s'.jobs == InitialJobs(spec, now);
    assert |s'.jobs| == |s'.jobs.Keys|;
    NothingDone(s', spec.id, V.EdgeSet(spec), now);
  }

  lemma NothingDone(s: System, dag: string, edges: Edges, now: I64)
    requires s.dags.Keys == {dag} && s.dags[dag] == edges
    requires forall r :: r in s.jobs ==> r.dag == dag
    requires forall r :: r in s.jobs ==> s.jobs[r].state == Pending || s.jobs[r].state == Ready
    requires forall r :: r in s.jobs ==> s.jobs[r].availableAtMs <= now
    ensures Draining(s, dag, edges, [], now)
  {
    assert Done(s.jobs, dag) == {};
  }

  /** Drain: a graph accepted by an empty scheduler is worked off by exactly one round per job, whatever the
      owners, durations, results and nondecreasing times; the claims come in a topological order of its
      edges, and afterwards every job has succeeded and nothing is left to claim. */
  lemma Drain(config: SchedulerConfig, s: System, spec: DagSpec, now: I64, rounds: seq<Round>, last: Round)
    requires IsEmpty(s) && Submit(config, s, spec, now).1.Ok?
    requires RoundsOk(config, rounds + [last], now) && |rounds| == |spec.jobs|
    ensures var (s', order) := Play(config, Submit(config, s, spec, now).0, rounds);
            && IsTopologicalOrder(V.JobIds(spec), V.EdgeSet(spec), order)
            && (forall r :: r in s'.jobs <==> r.dag == spec.id && r.job in V.JobIds(spec))
            && (forall r :: r in s'.jobs ==> s'.jobs[r].state == Succeeded)
            && PlayRound(config, s', last).1 == None
  {
    hide Submit, Inv, Draining, PlayRound, RoundOk, IsTopologicalOrder, V.JobIds, V.EdgeSet;
    var s0 := Submit(config, s, spec, now).0;
    var edges := V.EdgeSet(spec);
    var all := rounds + [last];
    SubmitStartsDraining(config, s, spec, now);
    assert rounds[..0] == [];
    for k := 0 to |rounds|
      invariant PlayedTo(config, s0, spec.id, edges, rounds, k, now)
    {
      assert all[k] == rounds[k] && StartOf(all, now, k) == StartOf(rounds, now, k);
      assert RoundOk(config, all[k], StartOf(all, now, k));
      PlayNext(config, s0, spec.id, edges, rounds, k, now);
    }
    assert rounds[..|rounds|] == rounds;
    assert all[|rounds|] == last && StartOf(all, now, |rounds|) == StartOf(rounds, now, |rounds|);
    assert RoundOk(config, all[|rounds|], StartOf(all, now, |rounds|));
    AcceptedIsWellFormed(config, s, spec, now);
    var (s', order) := Play(config, s0, rounds);
    DrainedCompletely(config, s', spec, order, StartOf(rounds, now, |rounds|), last);
  }

  lemma AcceptedIsWellFormed(config: SchedulerConfig, s: System, spec: DagSpec, now: I64)
    requires Submit(config, s, spec, now).1.Ok?
    ensures V.WellFormed(spec)
  {
    V.AcceptedIff(spec);
  }

  /** After `k` rounds `k` jobs are done. */
  ghost predicate PlayedTo(
    config: SchedulerConfig, s0: System, dag: string, edges: Edges, rounds: seq<Round>, k: nat, now: I64)
    requires k <= |rounds|
  {
    var (s, ids) := Play(config, s0, rounds[..k]);
    |ids| == k && Inv(config, s) && s.jobs.Keys == s0.jobs.Keys && Draining(s, dag, edges, ids, StartOf(rounds, now, k))
  }

  lemma PlayNext(
    config: SchedulerConfig, s0: System, dag: string, edges: Edges, rounds: seq<Round>, k: nat, now: I64)
    requires k < |rounds| <= |s0.jobs| && PlayedTo(config, s0, dag, edges, rounds, k, now)
    requires RoundOk(config, rounds[k], StartOf(rounds, now, k))
    ensures PlayedTo(config, s0, dag, edges, rounds, k + 1, now)
  {
    hide Inv, Draining, PlayRound, RoundOk;
    var (s, ids) := Play(config, s0, rounds[..k]);
    assert rounds[..k + 1][..k] == rounds[..k] && rounds[..k + 1][k] == rounds[k];
    assert |s.jobs| == |s0.jobs| by { assert |s.jobs| == |s.jobs.Keys| && |s0.jobs| == |s0.jobs.Keys|; }
    RoundDrains(config, s, dag, edges, ids, StartOf(rounds, now, k), rounds[k]);
  }

  lemma DrainedCompletely(
    config: SchedulerConfig, s: System, spec: DagSpec, order: seq<string>, now: I64, last: Round)
    requires Draining(s, spec.id, V.EdgeSet(spec), order, now) && RoundOk(config, last, now)
    requires forall r :: r in s.jobs <==> r.dag == spec.id && r.job in V.JobIds(spec)
    requires |order| == |spec.jobs| && V.WellFormed(spec)
    ensures IsTopologicalOrder(V.JobIds(spec), V.EdgeSet(spec), order)
    ensures forall r :: r in s.jobs ==> s.jobs[r].state == Succeeded
    ensures PlayRound(config, s, last).1 == None
  {
    LengthOfDistinct(order);
    V.DistinctIdCount(spec.jobs);
    var ids := V.JobIds(spec);
    assert Elements(order) <= ids;
    FullSubset(Elements(order), ids);
    forall r | r in s.jobs ensures s.jobs[r].state == Succeeded {
      assert r.job in Done(s.jobs, spec.id);
    }
    PrecedenceIsTopological(ids, V.EdgeSet(spec), order);
    NothingLeased(config, s, spec.id, V.EdgeSet(spec), order, now, last.claimAt);
    assert Eligible(s.jobs, last.claimAt) == {};
  }

  lemma FullSubset<T>(small: set<T>, big: set<T>)
    requires small <= big && |small| == |big|
    ensures small == big
  {
    assert big == small + (big - small);
    assert |big| == |small| + |big - small|;
  }
}
