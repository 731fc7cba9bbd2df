/** The scheduler class (src/scheduler.rs): nested hash maps updated in place, a ready heap used as an
    index, a counter of unfinished parents per job, and a token sequence.

    The ghost field `model` is the lease machine state that the fields stand for. `Valid` says that the
    counters are exact, that the index holds exactly the waiting jobs and the leftovers of cancelled ones,
    and that nothing else differs. Every method is proved to move `model` and to answer exactly as the
    lease machine does. */
module Scheduler {
  import opened Prelude
  import opened Collections
  import opened Domain
  import opened Multigraphs
  import opened Backoff
  import opened LeaseMachine
  import opened LeaseInvariants
  import opened ReadyIndex
  import opened Records
  import opened Coupling
  import opened CallEffects
  import M = LeaseMachine
  import V = Validation

  class Scheduler {
    const config: SchedulerConfig
    var dags: Dags
    var ready: multiset<ReadyKey>
    var sequence: U64
    ghost var submitted: Submitted
    ghost var model: System

    ghost predicate Valid()
      reads this
    {
      Inv(config, model) && Coupled(dags, ready, sequence, submitted, model)
    }

    constructor (config: SchedulerConfig)
      ensures Valid() && this.config == config && IsEmpty(model)
    {
      hide Inv, Coupled;
      this.config := config;
      dags := map[];
      ready := multiset{};
      sequence := 0;
      submitted := map[];
      model := System(map[], map[], {}, 0);
      new;
      EmptyOk(config, model);
      EmptyCoupled(model);
    }

    // ----- Leases -----

    /** Checks existence, state, owner, token and deadline. */
    method AssertLease(dagId: string, jobId: string, owner: string, token: string, now: I64)
      returns (r: Result<(), SchedulerError>)
      requires Valid()
      ensures r == match LeaseError(model, JobRef(dagId, jobId), owner, token, now)
                   case None => Ok(())
                   case Some(e) => Err(e)
    {
      hide Inv, Coupled, LeaseError;
      SameVerdict(dags, ready, sequence, submitted, model, JobRef(dagId, jobId), owner, token, now);
      if dagId !in dags {
        return Err(DagNotFound);
      }
      if jobId !in dags[dagId].jobs {
        return Err(JobNotFound);
      }
      var job := dags[dagId].jobs[jobId];
      if job.lease.None? {
        return Err(LeaseConflict);
      }
      var lease := job.lease.value;
      if job.state == Leased && lease.owner == owner && lease.token == token && lease.expiresAtMs > now {
        return Ok(());
      }
      return Err(LeaseConflict);
    }

    method Heartbeat(dagId: string, jobId: string, owner: string, token: string, now: I64, leaseMs: I64)
      returns (r: Result<I64, SchedulerError>)
      requires Valid()
      modifies this
      ensures Valid() && submitted == old(submitted)
      ensures model == M.Heartbeat(config, old(model), JobRef(dagId, jobId), owner, token, now, leaseMs).0
      ensures r == M.Heartbeat(config, old(model), JobRef(dagId, jobId), owner, token, now, leaseMs).1
    {
      hide Inv, Coupled, LeaseError, Fits, Flat;
      ghost var ref := JobRef(dagId, jobId);
      if leaseMs <= 0 || leaseMs > config.maxLeaseMs {
        return Err(InvalidLease);
      }
      SameVerdict(dags, ready, sequence, submitted, model, ref, owner, token, now);
      if dagId !in dags {
        return Err(DagNotFound);
      }
      if jobId !in dags[dagId].jobs {
        return Err(JobNotFound);
      }
      var job := dags[dagId].jobs[jobId];
      if job.lease.None? {
        return Err(LeaseConflict);
      }
      var lease := job.lease.value;
      if job.state != Leased || lease.owner != owner || lease.token != token || lease.expiresAtMs <= now {
        return Err(LeaseConflict);
      }
      var expires := SatAdd(now, leaseMs);
      var record := job.(lease := Some(lease.(expiresAtMs := expires)));
      CoupledParts(dags, ready, sequence, submitted, model);
      HeartbeatKeeps(config, model, ref, owner, token, now, leaseMs);
      HeartbeatCoupled(config, dags, ready, submitted, model, ref, owner, token, now, leaseMs);
      dags := PutRecord(dags, JobRef(dagId, jobId), record);
      model := M.Heartbeat(config, model, ref, owner, token, now, leaseMs).0;
      return Ok(expires);
    }

    // ----- Retry, failure and reaping -----

    method PushReady(dagId: string, job: JobSpec, available: I64)
      modifies this`ready
      ensures ready == old(ready) + multiset{ReadyKey(available, PriorityRank(job.priority), dagId, job.id)}
    {
      ready := ready + multiset{ReadyKey(available, PriorityRank(job.priority), dagId, job.id)};
    }

    method RetryOrDeadLetter(dagId: string, jobId: string, now: I64, ghost stale: set<ReadyKey>)
      returns (r: Result<JobState, SchedulerError>)
      requires Fits(dags, ready, submitted, stale)
      requires HasJob(dags, JobRef(dagId, jobId)) ==>
                 var record := RecordAt(dags, JobRef(dagId, jobId)); record.state == Leased && record.spec.id == jobId
      modifies this`dags, this`ready
      ensures Fits(dags, ready, submitted, stale)
      ensures !HasJob(old(dags), JobRef(dagId, jobId)) ==>
                && r == Err(if dagId in old(dags) then JobNotFound else DagNotFound)
                && dags == old(dags) && ready == old(ready)
      ensures HasJob(old(dags), JobRef(dagId, jobId)) ==>
                var job := Retried(config, jobId, CoreOf(RecordAt(old(dags), JobRef(dagId, jobId))), now);
                r == Ok(job.state) && Flat(dags) == Flat(old(dags))[JobRef(dagId, jobId) := job]
    {
      hide Fits, Flat, Pow2;
      if dagId !in dags {
        return Err(DagNotFound);
      }
      if jobId !in dags[dagId].jobs {
        return Err(JobNotFound);
      }
      var job := dags[dagId].jobs[jobId];
      var record := job.(lease := None);
      if record.attempts >= record.spec.maxAttempts {
        record := record.(state := DeadLettered);
        ReplaceQuiet(dags, ready, submitted, stale, JobRef(dagId, jobId), record);
        dags := PutRecord(dags, JobRef(dagId, jobId), record);
        return Ok(DeadLettered);
      }
      var exponent := Min(Max(record.attempts - 1, 0), 16);
      ShiftFits(exponent);
      var base := SatMul(config.baseRetryMs, Pow2(exponent));
      var bounded := Min(base, config.maxRetryMs);
      var jitter := DeterministicJitter(jobId, TruncDiv(bounded, 5));
      record := record.(availableAtMs := SatAdd(SatAdd(now, bounded), jitter), state := RetryWait);
      ReplaceAndPush(dags, ready, submitted, stale, JobRef(dagId, jobId), record);
      dags := PutRecord(dags, JobRef(dagId, jobId), record);
      PushReady(dagId, record.spec, record.availableAtMs);
      return Ok(RetryWait);
    }

    method Fail(dagId: string, jobId: string, owner: string, token: string, now: I64)
      returns (r: Result<JobState, SchedulerError>)
      requires Valid()
      modifies this
      ensures Valid() && submitted == old(submitted)
      ensures model == M.Fail(config, old(model), JobRef(dagId, jobId), owner, token, now).0
      ensures r == M.Fail(config, old(model), JobRef(dagId, jobId), owner, token, now).1
    {
      hide Inv, Coupled, Fits, Flat, LeaseError, Retried;
      ghost var ref := JobRef(dagId, jobId);
      ghost var dags0, ready0 := dags, ready;
      var checked := AssertLease(dagId, jobId, owner, token, now);
      if checked.Err? {
        return Err(checked.error);
      }
      LeasedRecord(config, dags, ready, sequence, submitted, model, ref, owner, token, now);
      FailKeeps(config, model, ref, owner, token, now);
      r := RetryOrDeadLetter(dagId, jobId, now, model.stale);
      Recouple(dags0, ready0, submitted, model, dags, ready, M.Fail(config, model, ref, owner, token, now).0);
      model := M.Fail(config, model, ref, owner, token, now).0;
    }

    /** Lists the expired leases in whatever order the hash maps yield them. */
    method CollectExpired(now: I64) returns (expired: seq<JobRef>)
      ensures NoDuplicates(expired) && Elements(expired) == ExpiredRefs(Flat(dags), now)
    {
      expired := [];
      var dagIds := dags.Keys;
      while dagIds != {}
        invariant dagIds <= dags.Keys
        invariant NoDuplicates(expired)
        invariant forall r :: r in expired <==> HasJob(dags, r) && r.dag !in dagIds && Expired(CoreOf(RecordAt(dags, r)), now)
        decreases dagIds
      {
        var dagId :| dagId in dagIds;
        var jobIds := dags[dagId].jobs.Keys;
        while jobIds != {}
          invariant jobIds <= dags[dagId].jobs.Keys
          invariant NoDuplicates(expired)
          invariant forall r :: r in expired <==>
                      && HasJob(dags, r) && Expired(CoreOf(RecordAt(dags, r)), now)
                      && (r.dag !in dagIds || (r.dag == dagId && r.job !in jobIds))
          decreases jobIds
        {
          var jobId :| jobId in jobIds;
          if Expired(CoreOf(dags[dagId].jobs[jobId]), now) {
            expired := expired + [JobRef(dagId, jobId)];
          }
          jobIds := jobIds - {jobId};
        }
        dagIds := dagIds - {dagId};
      }
      forall r ensures r in expired <==> r in ExpiredRefs(Flat(dags), now) {
        FlatAt(dags, r);
      }
    }

    method Reap(now: I64) returns (count: nat)
      requires Valid()
      modifies this
      ensures Valid() && submitted == old(submitted) && sequence == old(sequence)
      ensures model == M.Reap(config, old(model), now).0
      ensures count == M.Reap(config, old(model), now).1
    {
      hide Inv, Coupled, Fits, Flat, Retried, ReapedUpTo, ReapedJobs, ExpiredRefs, Elements, NoDuplicates;
      ghost var dags0, ready0, jobs := dags, ready, Flat(dags);
      var expired := CollectExpired(now);
      LengthOfDistinct(expired);
      CoupledParts(dags, ready, sequence, submitted, model);
      ReapedNone(config, jobs, now);
      assert expired[..0] == [];
      for i := 0 to |expired|
        invariant Fits(dags, ready, submitted, model.stale)
        invariant model == old(model) && submitted == old(submitted) && sequence == old(sequence)
        invariant ReapedUpTo(config, jobs, Flat(dags), expired[..i], now)
      {
        ReapNext(config, jobs, Flat(dags), expired, i, now);
        ExpiredRecord(config, dags, model, jobs, expired[i], now);
        var _ := RetryOrDeadLetter(expired[i].dag, expired[i].job, now, model.stale);
      }
      assert expired[..|expired|] == expired;
      ReapedAll(config, jobs, Flat(dags), expired, now);
      ReapKeeps(config, model, now);
      Recouple(dags0, ready0, submitted, model, dags, ready, M.Reap(config, model, now).0);
      model := M.Reap(config, model, now).0;
      count := |expired|;
    }

    // ----- Completion -----

    method Complete(dagId: string, jobId: string, owner: string, token: string, result: string, now: I64)
      returns (r: Result<(), SchedulerError>)
      requires Valid()
      modifies this
      ensures Valid() && submitted == old(submitted)
      ensures model == M.Complete(old(model), JobRef(dagId, jobId), owner, token, result, now).0
      ensures r == M.Complete(old(model), JobRef(dagId, jobId), owner, token, result, now).1
    {
      hide Inv, Coupled, Fits, Flat, LeaseError, RecordsOk, IndexOk, StaleOk, CountersCover, ReleasedUpTo, WithReleased;
      ghost var ref := JobRef(dagId, jobId);
      if |result| > MAX_PAYLOAD_BYTES {
        return Err(ResultTooLarge);
      }
      var checked := AssertLease(dagId, jobId, owner, token, now);
      if checked.Err? {
        return Err(checked.error);
      }
      ghost var dags0, ready0 := dags, ready;
      LeasedRecord(config, dags, ready, sequence, submitted, model, ref, owner, token, now);
      CompleteKeeps(config, model, ref, owner, token, result, now);
      var record := dags[dagId].jobs[jobId].(state := Succeeded, lease := None, result := Some(result));
      var children := Adjacent(dags[dagId].dependents, jobId);
      CompletionCovers(config, dags, ready, submitted, model, ref, record);
      OwnIds(config, dags, ready, submitted, model, dagId);
      SucceedIndex(dags, ready, submitted, model.stale, ref, result);
      dags := PutRecord(dags, JobRef(dagId, jobId), record);
      ReleaseDependents(dagId, children, now);
      CompleteCoupled(dags0, ready0, submitted, model, ref, result, dags, ready, now);
      model := M.Complete(model, ref, owner, token, result, now).0;
      r := Ok(());
    }

    /** The release loop. Between its first and last turn the counters of this graph are in motion; the
        index is exact throughout. */
    method ReleaseDependents(dagId: string, children: seq<string>, now: I64)
      requires CountersCover(dags, dagId, children)
      requires forall id :: id in dags[dagId].jobs ==> dags[dagId].jobs[id].spec.id == id
      requires IndexOk(ready, Flat(dags), model.stale) && StaleOk(Flat(dags), model.stale)
      modifies this`dags, this`ready
      ensures ReleasedUpTo(old(dags), dags, dagId, multiset(children), now)
      ensures IndexOk(ready, Flat(dags), model.stale) && StaleOk(Flat(dags), model.stale)
    {
      hide Flat, IndexOk, StaleOk, CountersCover, ReleasedUpTo;
      ghost var dags0 := dags;
      CoverParts(dags, dagId, children);
      ReleasedNone(dags, dagId, now);
      assert multiset(children[..0]) == multiset{};
      for i := 0 to |children|
        invariant ReleasedUpTo(dags0, dags, dagId, multiset(children[..i]), now)
        invariant IndexOk(ready, Flat(dags), model.stale) && StaleOk(Flat(dags), model.stale)
      {
        var dependent := children[i];
        ReleaseNext(dags0, dags, dagId, children, i, now);
        ReleasedDag(dags0, dags, dagId, multiset(children[..i]), now);
        var job := dags[dagId].jobs[dependent];
        var left := if job.remainingDependencies == 0 then 0 else job.remainingDependencies - 1;
        if left == 0 && job.state == Pending {
          job := job.(remainingDependencies := left, state := Ready, availableAtMs := now);
          ReleaseIndex(dags, ready, model.stale, JobRef(dagId, dependent), job);
          dags := PutRecord(dags, JobRef(dagId, dependent), job);
          PushReady(dagId, job.spec, now);
        } else {
          job := job.(remainingDependencies := left);
          ReleaseIndex(dags, ready, model.stale, JobRef(dagId, dependent), job);
          dags := PutRecord(dags, JobRef(dagId, dependent), job);
        }
      }
      assert children[..|children|] == children;
    }

    // ----- Cancellation -----

    method Cancel(dagId: string) returns (r: Result<nat, SchedulerError>)
      requires Valid()
      modifies this
      ensures Valid() && submitted == old(submitted)
      ensures model == M.Cancel(old(model), dagId).0
      ensures r == M.Cancel(old(model), dagId).1
      ensures ready == old(ready)
    {
      hide Inv, Coupled, Fits, Flat, CancelledUpTo, CancelledJobs, Unfinished, LiveKeys;
      CoupledParts(dags, ready, sequence, submitted, model);
      if dagId !in dags {
        return Err(DagNotFound);
      }
      ghost var dags0 := dags;
      CancelledNone(dags, dagId);
      var cancelled: nat := 0;
      var todo := dags[dagId].jobs.Keys;
      while todo != {}
        invariant dagId in dags && todo <= dags[dagId].jobs.Keys && dags[dagId].jobs.Keys == dags0[dagId].jobs.Keys
        invariant CancelledUpTo(dags0, dags, dagId, todo, cancelled)
        invariant ready == old(ready) && sequence == old(sequence) && submitted == old(submitted) && model == old(model)
        decreases todo
      {
        var jobId :| jobId in todo;
        CancelNext(dags0, dags, dagId, todo, cancelled, jobId);
        var job := dags[dagId].jobs[jobId];
        if job.state != Succeeded && job.state != DeadLettered && job.state != Cancelled {
          job := job.(state := Cancelled, lease := None);
          dags := PutRecord(dags, JobRef(dagId, jobId), job);
          cancelled := cancelled + 1;
        }
        todo := todo - {jobId};
      }
      CancelKeeps(config, model, dagId);
      CancelCoupled(dags0, ready, submitted, model, dagId, dags, cancelled);
      model := M.Cancel(model, dagId).0;
      r := Ok(cancelled);
    }

    // ----- Claiming -----

    method Claim(owner: string, now: I64, leaseMs: I64) returns (r: Result<Option<ClaimedJob>, SchedulerError>)
      requires Valid()
      modifies this
      ensures Valid() && submitted == old(submitted)
      ensures model == M.Claim(config, old(model), owner, now, leaseMs).0
      ensures r == M.Claim(config, old(model), owner, now, leaseMs).1
    {
      hide Inv, Coupled, M.Reap, Take;
      if owner == [] || |owner| > 64 || leaseMs <= 0 || leaseMs > config.maxLeaseMs {
        return Err(InvalidLease);
      }
      var _ := Reap(now);
      var claimed := PopUntilLive(owner, now, leaseMs);
      r := Ok(claimed);
    }

    /** The claim loop: pops the least entry until it is not due, or leases the job it names. The two lookups
        and the timestamp comparison can never fail. */
    method PopUntilLive(owner: string, now: I64, leaseMs: I64) returns (r: Option<ClaimedJob>)
      requires Valid() && ValidClaim(config, owner, leaseMs)
      modifies this
      ensures Valid() && submitted == old(submitted)
      ensures model == Take(old(model), owner, now, leaseMs).0
      ensures r == Take(old(model), owner, now, leaseMs).1
    {
      hide Inv, Coupled, Fits, Flat, Take, Drained, LiveKeys, Eligible, Token, SatAdd, EdgeSets, KeyLe;
      ghost var model0, dags0 := model, dags;
      ghost var left := model.stale;
      TakeKeeps(config, model, owner, now, leaseMs);
      CoupledParts(dags, ready, sequence, submitted, model);
      DrainedNone(model, now);
      while ready != multiset{}
        invariant Fits(dags, ready, submitted, left) && Drained(model0, left, now)
        invariant dags == dags0 && model == model0 && submitted == old(submitted) && sequence == model0.sequence
        decreases |ready|
      {
        var key := PeekMin(ready);
        if key.availableAtMs > now {
          FutureKeys(ready, key, now);
          break;
        }
        ghost var heap := ready;
        ready := ready - multiset{key};
        PoppedKey(dags, heap, submitted, model0, left, key, now);
        if key.dagId !in dags {
          assert false;
        }
        if key.jobId !in dags[key.dagId].jobs {
          assert false;
        }
        var job := dags[key.dagId].jobs[key.jobId];
        assert job.availableAtMs == key.availableAtMs;
        if job.state != Ready && job.state != RetryWait {
          left := left - {key};
          continue;
        }
        sequence := SaturatingSuccessor(sequence, U64_MAX);
        var token := Token(key.dagId, key.jobId, sequence);
        var expires := SatAdd(now, leaseMs);
        TakeCoupled(config, dags, heap, submitted, model0, left, key, owner, now, leaseMs);
        job := job.(
          attempts := SaturatingSuccessor(job.attempts, 0xFFFF),
          state := Leased,
          lease := Some(Lease(owner, token, expires)));
        dags := PutRecord(dags, JobRef(key.dagId, key.jobId), job);
        model := Take(model0, owner, now, leaseMs).0;
        return Some(ClaimedJob(
          key.dagId, key.jobId, job.spec.kind, job.spec.payload, job.attempts, token, expires));
      }
      TakeNothing(dags, ready, submitted, model0, left, owner, now, leaseMs);
      model := Take(model0, owner, now, leaseMs).0;
      r := None;
    }

    // ----- Submission -----

    method Submit(spec: DagSpec, now: I64) returns (r: Result<(), SchedulerError>)
      requires Valid()
      modifies this
      ensures Valid()
      ensures submitted == if r.Ok? then old(submitted)[spec.id := spec.dependencies] else old(submitted)
      ensures model == M.Submit(config, old(model), spec, now).0
      ensures r == M.Submit(config, old(model), spec, now).1
      ensures r.Ok? && config.maxReadyJobs < U64_MAX ==> |ready| <= config.maxReadyJobs
    {
      hide Inv, Coupled, V.Validation, V.WellFormed, IndexSize, V.Sources, InitialJobs, Fits, IsInitial, AdjacencyOk;
      hide V.EdgeSet, V.JobIds, EdgeSets, Unmet;
      var validated := V.Validate(spec);
      if validated.Err? {
        return Err(ValidationFailed(validated.error));
      }
      AcceptedIsWellFormed(spec);
      CoupledParts(dags, ready, sequence, submitted, model);
      MapSizes(dags, model.dags);
      if spec.id in dags {
        return Err(DagAlreadyExists);
      }
      if |dags| >= config.maxDags {
        return Err(Overloaded);
      }
      var counts, dependents := CountDependencies(spec);
      var readyCount := CountZero(spec, counts);
      IndexSizeIs(dags, ready, submitted, model);
      if Min(|ready| + readyCount, U64_MAX) > config.maxReadyJobs {
        return Err(Overloaded);
      }
      if config.maxReadyJobs < U64_MAX {
        SubmitStaysWithin(config, model, spec, now);
      }
      Admit(spec, counts, dependents, now);
      CoupledParts(dags, ready, sequence, submitted, model);
      IndexSizeIs(dags, ready, submitted, model);
      r := Ok(());
    }

    /** The part of a submission that changes the scheduler. */
    method Admit(spec: DagSpec, counts: map<string, nat>, dependents: map<string, seq<string>>, now: I64)
      requires Valid() && V.WellFormed(spec) && M.Submit(config, model, spec, now).1.Ok? && spec.id !in dags
      requires counts.Keys == V.JobIds(spec) && forall c :: c in counts ==> counts[c] == Unmet(spec.dependencies, {}, c)
      requires AdjacencyOk(dependents, spec.dependencies)
      modifies this
      ensures Valid()
      ensures submitted == old(submitted)[spec.id := spec.dependencies]
      ensures model == M.Submit(config, old(model), spec, now).0
    {
      hide Inv, Coupled, V.WellFormed, InitialJobs, IsInitial, AdjacencyOk;
      hide M.Submit, V.EdgeSet, V.JobIds, LiveKeys, FlatOne, Unmet;
      ghost var ready0 := ready;
      CoupledParts(dags, ready, sequence, submitted, model);
      var jobs := AdmitJobs(spec, counts, now);
      SubmitKeeps(config, model, spec, now);
      SubmitCoupled(config, dags, ready0, submitted, model, spec, counts, jobs, dependents, ready, now);
      dags := dags[spec.id := DagRecord(jobs, dependents)];
      submitted := submitted[spec.id := spec.dependencies];
      model := M.Submit(config, model, spec, now).0;
    }

    /** The loop over the submitted jobs: one record per job, and one index entry per job without parents. */
    method AdmitJobs(spec: DagSpec, counts: map<string, nat>, now: I64) returns (jobs: map<string, JobRecord>)
      requires V.WellFormed(spec) && counts.Keys == V.JobIds(spec)
      modifies this`ready
      ensures IsInitial(spec.jobs, counts, jobs, now)
      ensures ready == old(ready) + multiset(LiveKeys(FlatOne(spec.id, jobs)))
    {
      hide IndexOk, FlatOne, LiveKeys, IsInitial, V.WellFormed;
      jobs := map[];
      ghost var part := multiset{};
      InitialNone(spec.id, counts, now);
      for i := 0 to |spec.jobs|
        invariant IsInitial(spec.jobs[..i], counts, jobs, now)
        invariant IndexOk(part, FlatOne(spec.id, jobs), {}) && ready == old(ready) + part
      {
        var job := spec.jobs[i];
        assert spec.jobs[..i + 1] == spec.jobs[..i] + [job];
        assert job.id in counts;
        var remaining := counts[job.id];
        var state := if remaining == 0 then Ready else Pending;
        InitialNext(spec, i, counts, jobs, part, now);
        if state == Ready {
          PushReady(spec.id, job, now);
          part := part + multiset{ReadyKey(now, PriorityRank(job.priority), spec.id, job.id)};
        }
        jobs := jobs[job.id := JobRecord(job, state, 0, now, remaining, None, None)];
      }
      assert spec.jobs[..|spec.jobs|] == spec.jobs;
      PartIs(part, FlatOne(spec.id, jobs));
    }

    // ----- Snapshot -----

    /** The read model of one graph, jobs in id order. */
    method Snapshot(dagId: string) returns (r: Result<DagSnapshot, SchedulerError>)
      requires Valid()
      ensures r == if dagId !in model.dags then Err(DagNotFound)
                   else Ok(DagSnapshot(dagId, SnapshotJobs(model.jobs, dagId, Sorted(JobsOf(model.jobs, dagId)))))
      ensures r.Ok? ==> r.value.id == dagId && Shows(model.jobs, dagId, r.value.jobs)
    {
      hide Inv, Coupled, Fits, Flat, JobsOf, Sorted, SnapshotJobs, Shows;
      CoupledParts(dags, ready, sequence, submitted, model);
      if dagId !in dags {
        return Err(DagNotFound);
      }
      JobIdsOf(dags, dagId);
      var ids := CollectIds(dagId);
      SortOfDistinct(ids);
      SortedIds(ids);
      ids := Sort(ids);
      var jobs := ReadJobs(dagId, ids);
      SnapshotShows(model.jobs, dagId);
      r := Ok(DagSnapshot(dagId, jobs));
    }

    method CollectIds(dagId: string) returns (ids: seq<string>)
      requires dagId in dags
      ensures NoDuplicates(ids) && Elements(ids) == dags[dagId].jobs.Keys
    {
      ids := [];
      var todo := dags[dagId].jobs.Keys;
      while todo != {}
        invariant todo <= dags[dagId].jobs.Keys
        invariant NoDuplicates(ids) && forall id :: id in ids <==> id in dags[dagId].jobs && id !in todo
        decreases todo
      {
        var id :| id in todo;
        ids := ids + [id];
        todo := todo - {id};
      }
    }

    method ReadJobs(dagId: string, ids: seq<string>) returns (jobs: seq<JobSnapshot>)
      requires dagId in dags && Elements(ids) <= dags[dagId].jobs.Keys
      ensures jobs == SnapshotJobs(Flat(dags), dagId, ids)
    {
      hide Flat;
      jobs := [];
      for i := 0 to |ids|
        invariant jobs == SnapshotJobs(Flat(dags), dagId, ids[..i])
      {
        assert ids[i] in Elements(ids);
        FlatAt(dags, JobRef(dagId, ids[i]));
        assert ids[..i + 1][..i] == ids[..i];
        jobs := jobs + [SnapshotOf(ids[i], CoreOf(dags[dagId].jobs[ids[i]]))];
      }
      assert ids[..|ids|] == ids;
    }
  }

  datatype JobSnapshot = JobSnapshot(
    id: string,
    state: JobState,
    attempts: U16,
    maxAttempts: U16,
    availableAtMs: I64,
    leaseOwner: Option<string>,
    leaseExpiresAtMs: Option<I64>,
    result: Option<string>)

  datatype DagSnapshot = DagSnapshot(id: string, jobs: seq<JobSnapshot>)

  function SnapshotOf(id: string, job: Job): JobSnapshot {
    JobSnapshot(
      id, job.state, job.attempts, job.spec.maxAttempts, job.availableAtMs,
      if job.lease.Some? then Some(job.lease.value.owner) else None,
      if job.lease.Some? then Some(job.lease.value.expiresAtMs) else None,
      job.result)
  }

  /** The entries for the listed ids, in that order. */
  ghost function SnapshotJobs(jobs: Jobs, dag: string, ids: seq<string>): seq<JobSnapshot> {
    if ids == [] then []
    else
      var r := JobRef(dag, ids[|ids| - 1]);
      SnapshotJobs(jobs, dag, ids[..|ids| - 1]) + if r in jobs then [SnapshotOf(r.job, jobs[r])] else []
  }

  /** One entry per job of the graph, in byte order of the ids, with the fields of its record. */
  ghost predicate Shows(jobs: Jobs, dag: string, shown: seq<JobSnapshot>) {
    && (forall i, j :: 0 <= i < j < |shown| ==> LexLe(shown[i].id, shown[j].id) && shown[i].id != shown[j].id)
    && (forall r :: r in jobs && r.dag == dag ==> exists i :: 0 <= i < |shown| && shown[i].id == r.job)
    && forall i :: 0 <= i < |shown| ==>
         var r, entry := JobRef(dag, shown[i].id), shown[i];
         && r in jobs
         && entry.state == jobs[r].state
         && entry.attempts == jobs[r].attempts && entry.maxAttempts == jobs[r].spec.maxAttempts
         && entry.availableAtMs == jobs[r].availableAtMs && entry.result == jobs[r].result
         && (jobs[r].lease == None ==> entry.leaseOwner == None && entry.leaseExpiresAtMs == None)
         && (jobs[r].lease.Some? ==>
               && entry.leaseOwner == Some(jobs[r].lease.value.owner)
               && entry.leaseExpiresAtMs == Some(jobs[r].lease.value.expiresAtMs))
  }

  lemma {:induction false} SnapshotEntries(jobs: Jobs, dag: string, ids: seq<string>)
    requires forall id :: id in ids ==> JobRef(dag, id) in jobs
    ensures |SnapshotJobs(jobs, dag, ids)| == |ids|
    ensures forall i :: 0 <= i < |ids| ==> SnapshotJobs(jobs, dag, ids)[i] == SnapshotOf(ids[i], jobs[JobRef(dag, ids[i])])
  {
    if ids != [] {
      var head := ids[..|ids| - 1];
      assert forall id :: id in head ==> id in ids;
      SnapshotEntries(jobs, dag, head);
      assert forall i :: 0 <= i < |head| ==> ids[i] == head[i];
    }
  }

  lemma SnapshotShows(jobs: Jobs, dag: string)
    ensures Shows(jobs, dag, SnapshotJobs(jobs, dag, Sorted(JobsOf(jobs, dag))))
  {
    hide Sorted, SnapshotJobs, LexLe, StrLe;
    var ids := Sorted(JobsOf(jobs, dag));
    forall id | id in ids ensures JobRef(dag, id) in jobs {
      assert id in Elements(ids);
    }
    SnapshotEntries(jobs, dag, ids);
    forall i, j | 0 <= i < j < |ids| ensures LexLe(ids[i], ids[j]) && ids[i] != ids[j] {
      StrLeIsLex(ids[i], ids[j]);
    }
    forall r | r in jobs && r.dag == dag ensures exists i :: 0 <= i < |ids| && ids[i] == r.job {
      assert r.job in Elements(ids);
    }
  }

  lemma SortedIds(ids: seq<string>)
    ensures Elements(Sort(ids)) == Elements(ids)
  {
    assert forall id :: id in ids <==> id in multiset(ids);
    assert forall id :: id in Sort(ids) <==> id in multiset(Sort(ids));
  }

  ghost function JobsOf(jobs: Jobs, dag: string): set<string> {
    set r | r in jobs && r.dag == dag :: r.job
  }

  lemma JobIdsOf(dags: Dags, dag: string)
    requires dag in dags
    ensures JobsOf(Flat(dags), dag) == dags[dag].jobs.Keys
  {
    forall id ensures id in JobsOf(Flat(dags), dag) <==> id in dags[dag].jobs {
      FlatAt(dags, JobRef(dag, id));
    }
  }

  // ----- The loops of a submission that touch no field -----

  /** Counts the parents of every job and lists, sorted, the children of every job. */
  method CountDependencies(spec: DagSpec) returns (counts: map<string, nat>, dependents: map<string, seq<string>>)
    requires V.WellFormed(spec)
    ensures counts.Keys == V.JobIds(spec) && forall c :: c in counts ==> counts[c] == Unmet(spec.dependencies, {}, c)
    ensures AdjacencyOk(dependents, spec.dependencies)
  {
    hide V.WellFormed, V.IsAdjacency, AdjacencyOk;
    var deps := spec.dependencies;
    counts := map job | job in spec.jobs :: job.id := 0;
    dependents := map[];
    V.AdjacencyNone();
    assert deps[..0] == [];
    for i := 0 to |deps|
      invariant counts.Keys == V.JobIds(spec)
      invariant forall c :: c in counts ==> counts[c] == Unmet(deps[..i], {}, c)
      invariant V.IsAdjacency(dependents, deps[..i])
    {
      var edge := deps[i];
      assert deps[..i + 1] == deps[..i] + [edge];
      UnmetSnoc(deps, i);
      if edge.to in counts {
        counts := counts[edge.to := counts[edge.to] + 1];
      }
      V.AdjacencyStep(dependents, deps[..i], edge);
      dependents := dependents[edge.from := Adjacent(dependents, edge.from) + [edge.to]];
    }
    assert deps[..|deps|] == deps;
    dependents := SortLists(dependents, deps);
  }

  method SortLists(lists: map<string, seq<string>>, ghost deps: seq<Dependency>) returns (sorted: map<string, seq<string>>)
    requires V.IsAdjacency(lists, deps)
    ensures AdjacencyOk(sorted, deps)
  {
    hide V.IsAdjacency, AdjacencyOk;
    sorted := lists;
    var todo := lists.Keys;
    while todo != {}
      invariant sorted.Keys == lists.Keys && todo <= lists.Keys
      invariant forall p :: p in lists ==> multiset(sorted[p]) == multiset(lists[p]) && (p !in todo ==> Ordered(sorted[p]))
      decreases todo
    {
      var p :| p in todo;
      sorted := sorted[p := Sort(sorted[p])];
      todo := todo - {p};
    }
    SortedAdjacency(lists, sorted, deps);
  }

  lemma SortedAdjacency(lists: map<string, seq<string>>, sorted: map<string, seq<string>>, deps: seq<Dependency>)
    requires V.IsAdjacency(lists, deps) && sorted.Keys == lists.Keys
    requires forall p :: p in lists ==> multiset(sorted[p]) == multiset(lists[p]) && Ordered(sorted[p])
    ensures AdjacencyOk(sorted, deps)
  {
    hide V.IsAdjacency;
    forall p ensures multiset(Adjacent(sorted, p)) == multiset(Children(deps, p)) && Ordered(Adjacent(sorted, p)) {
      V.ListOf(lists, deps, p);
    }
  }

  method CountZero(spec: DagSpec, counts: map<string, nat>) returns (zeros: nat)
    requires counts.Keys == V.JobIds(spec) && forall c :: c in counts ==> counts[c] == Unmet(spec.dependencies, {}, c)
    ensures zeros == |V.Sources(V.JobIds(spec), V.EdgeSet(spec))|
  {
    zeros := 0;
    var todo := counts.Keys;
    ghost var seen: set<string> := {};
    while todo != {}
      invariant todo <= counts.Keys && zeros == |seen|
      invariant forall c :: c in seen <==> c in counts && c !in todo && counts[c] == 0
      decreases todo
    {
      var c :| c in todo;
      if counts[c] == 0 {
        zeros := zeros + 1;
        seen := seen + {c};
      }
      todo := todo - {c};
    }
    forall c { UnmetZero(spec.dependencies, {}, c); }
    assert seen == V.Sources(V.JobIds(spec), V.EdgeSet(spec));
  }
}
