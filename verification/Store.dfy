/** The store class (src/store.rs): four tables, and one method per transaction made of the statements of
    module Sql. Every method is proved to be one step of module StoreModel, which knows no joins. */
module Store {
  import opened Prelude
  import opened Collections
  import opened Domain
  import opened Graphs
  import opened Multigraphs
  import opened EventLog
  import opened Sql
  import opened StoreModel
  import opened L = LeaseMachine
  import LI = LeaseInvariants
  import V = Validation
  import T = StoreModel

  class PostgresStore {
    var dags: Dags
    var jobs: Jobs
    var deps: Dependencies
    var events: seq<Event>
    ghost var issued: set<string>

    ghost function Contents(): Tables
      reads this
    {
      Tables(dags, jobs, deps, events, issued)
    }

    ghost predicate Valid()
      reads this
    {
      StoreInv(Contents())
    }

    constructor ()
      ensures Valid() && Contents() == NO_ROWS
    {
      dags, jobs, deps, events, issued := map[], map[], map[], [], {};
      new;
      NoRowsOk();
    }

    // ----- Submission -----

    method Submit(spec: DagSpec, now: Instant) returns (r: Result<(), StoreError>)
      requires Valid()
      modifies this
      ensures Valid()
      ensures Contents() == T.Submit(old(Contents()), spec, now).0
      ensures r == T.Submit(old(Contents()), spec, now).1
    {
      hide StoreInv, V.Validation, V.WellFormed, InitialJobs, HasCycle, NoDuplicates, V.EdgeSet;
      T.SubmitKeeps(Contents(), spec, now);
      V.AcceptedIff(spec);
      var validated := V.Validate(spec);
      if validated.Err? {
        return Err(Rejected(validated.error));
      }
      if spec.id in dags {
        return Err(Database);
      }
      KnownDags(Contents());
      var counts := CountParents(spec);
      var rows := InsertJobs(spec, counts, now);
      var edges := InsertEdges(spec);
      if edges.Err? {
        return Err(edges.error);
      }
      dags, jobs, deps := dags[spec.id := RunningDag], rows, deps[spec.id := edges.value];
      return Ok(());
    }

    /** One row per job. The primary key cannot be violated: the graph is new and its job ids are distinct. */
    method InsertJobs(spec: DagSpec, counts: map<string, nat>, now: Instant) returns (rows: Jobs)
      requires V.WellFormed(spec) && counts.Keys == V.JobIds(spec)
      requires forall c :: c in counts ==> counts[c] == Unmet(spec.dependencies, {}, c)
      requires forall ref :: ref in jobs ==> ref.dag != spec.id
      ensures rows == jobs + InitialJobs(spec, now)
    {
      hide InitialJobs, InitialJob, V.WellFormed;
      var added: Jobs := map[];
      for i := 0 to |spec.jobs|
        invariant IsInserted(spec, i, now, added)
      {
        var job := spec.jobs[i];
        assert job in spec.jobs;
        InsertNext(spec, i, counts, now, added);
        var ref := JobRef(spec.id, job.id);
        assert ref !in jobs && ref !in added;
        var state := if counts[job.id] == 0 then Ready else Pending;
        added := added[ref := Job(job, state, 0, now, None, None)];
      }
      InsertedAll(spec, now, added);
      return jobs + added;
    }

    // ----- Leases -----

    /** Runs one update and tells how many rows it changed. */
    method Execute(st: Statement, now: Instant) returns (changed: nat)
      modifies this`jobs
      ensures jobs == UpdateRows(st, now, old(jobs), Rows(st, now, dags, deps, old(jobs)))
      ensures changed == |Rows(st, now, dags, deps, old(jobs))|
    {
      var rows := Rows(st, now, dags, deps, jobs);
      jobs := UpdateRows(st, now, jobs, rows);
      changed := |rows|;
    }

    /** `token` is the lease token drawn for this claim. */
    method Claim(owner: string, now: Instant, leaseMs: I64, token: string)
      returns (r: Result<Option<ClaimedJob>, StoreError>)
      requires Valid() && token !in issued
      modifies this
      ensures Valid()
      ensures Contents() == T.Claim(old(Contents()), owner, now, leaseMs, token).0
      ensures r == T.Claim(old(Contents()), owner, now, leaseMs, token).1
    {
      hide StoreInv, Rows, UpdateRows, Reaped, Queue, Set, QueueLe, DueRefs, Waiting;
      if !ValidRequest(owner, leaseMs) {
        return Err(InvalidConfiguration);
      }
      T.ClaimKeeps(Contents(), owner, now, leaseMs, token);
      ReapedKeeps(Contents(), now);
      ReapIs(Contents(), now);
      var _ := Execute(ReapRows, now);
      var grant := ClaimRow(owner, token, leaseMs);
      var candidates := Rows(grant, now, dags, deps, jobs);
      CandidatesAre(Contents(), grant, now);
      if candidates == {} {
        return Ok(None);
      }
      FirstCandidate(jobs, candidates);
      var ref :| ref in candidates && forall o :: o in candidates ==>
        QueueLe(QueueKeyOf(ref, jobs[ref]), QueueKeyOf(o, jobs[o]));
      FirstIs(jobs, candidates, ref, now);
      GrantIs(Contents(), ref, grant, now);
      jobs := UpdateRows(grant, now, jobs, {ref});
      var row := jobs[ref];
      events := events + [Event(ref, ClaimEvent, row.attempts, owner)];
      issued := issued + {token};
      return Ok(Some(ClaimedJob(
        ref.dag, ref.job, row.spec.kind, row.spec.payload, row.attempts, token, row.lease.value.expiresAtMs)));
    }

    method Heartbeat(ref: JobRef, owner: string, token: string, now: Instant, leaseMs: I64)
      returns (r: Result<(), StoreError>)
      requires Valid()
      modifies this
      ensures Valid()
      ensures Contents() == T.Heartbeat(old(Contents()), ref, owner, token, now, leaseMs).0
      ensures r == T.Heartbeat(old(Contents()), ref, owner, token, now, leaseMs).1
    {
      hide StoreInv, Rows, UpdateRows;
      if !ValidRequest(owner, leaseMs) {
        return Err(InvalidConfiguration);
      }
      T.HeartbeatKeeps(Contents(), ref, owner, token, now, leaseMs);
      GuardedRow(Contents(), HeartbeatRow(ref, owner, token, leaseMs), ref, owner, token, now);
      var changed := Execute(HeartbeatRow(ref, owner, token, leaseMs), now);
      return EnsureCompareAndSet(changed);
    }

    /** Appends an event that carries the row's attempt number. */
    method InsertEvent(ref: JobRef, kind: EventKind, owner: string)
      requires ref in jobs
      modifies this`events
      ensures events == old(events) + [Event(ref, kind, jobs[ref].attempts, owner)]
    {
      events := events + [Event(ref, kind, jobs[ref].attempts, owner)];
    }

    method Complete(ref: JobRef, owner: string, token: string, result: string, now: Instant)
      returns (r: Result<(), StoreError>)
      requires Valid()
      modifies this
      ensures Valid()
      ensures Contents() == T.Complete(old(Contents()), ref, owner, token, result, now).0
      ensures r == T.Complete(old(Contents()), ref, owner, token, result, now).1
    {
      hide StoreInv, Rows, UpdateRows, WithReleased, Holds;
      if |result| > MAX_PAYLOAD_BYTES {
        return Err(InvalidConfiguration);
      }
      T.CompleteKeeps(Contents(), ref, owner, token, result, now);
      GuardedRow(Contents(), CompleteRow(ref, owner, token, result), ref, owner, token, now);
      ghost var before := Contents();
      var changed := Execute(CompleteRow(ref, owner, token, result), now);
      if changed != 1 {
        return Err(Conflict);
      }
      ReleaseIs(before, ref, owner, token, result, now);
      var _ := Execute(ReleaseRows(ref), now);
      InsertEvent(ref, OutcomeEvent(Succeeded), owner);
      return Ok(());
    }

    method Fail(ref: JobRef, owner: string, token: string, now: Instant) returns (r: Result<JobState, StoreError>)
      requires Valid()
      modifies this
      ensures Valid()
      ensures Contents() == T.Fail(old(Contents()), ref, owner, token, now).0
      ensures r == T.Fail(old(Contents()), ref, owner, token, now).1
    {
      hide StoreInv, Rows, UpdateRows, Holds, SqlRetried;
      T.FailKeeps(Contents(), ref, owner, token, now);
      GuardedRow(Contents(), FailRow(ref, owner, token), ref, owner, token, now);
      RetriedAttempts(jobs, ref, now);
      var changed := Execute(FailRow(ref, owner, token), now);
      if changed == 0 {
        return Err(Conflict);
      }
      var state := jobs[ref].state;
      InsertEvent(ref, OutcomeEvent(state), owner);
      return Ok(state);
    }

    method Reap(now: Instant) returns (changed: nat)
      requires Valid()
      modifies this
      ensures Valid()
      ensures Contents() == T.Reap(old(Contents()), now).0 && changed == T.Reap(old(Contents()), now).1
    {
      hide StoreInv, Rows, UpdateRows, Reaped;
      T.ReapKeeps(Contents(), now);
      ReapIs(Contents(), now);
      changed := Execute(ReapRows, now);
    }

    method Cancel(dag: string, now: Instant) returns (r: Result<nat, StoreError>)
      requires Valid()
      modifies this
      ensures Valid()
      ensures Contents() == T.Cancel(old(Contents()), dag).0 && r == T.Cancel(old(Contents()), dag).1
    {
      hide StoreInv, Rows, UpdateRows, CancelledJobs;
      T.CancelKeeps(Contents(), dag);
      if dag !in dags {
        return Err(NotFound);
      }
      dags := dags[dag := CancelledDag];
      CancelIs(Contents(), dag, now);
      var changed := Execute(CancelRows(dag), now);
      return Ok(changed);
    }
  }

  function EnsureCompareAndSet(changed: nat): Result<(), StoreError> {
    if changed == 1 then Ok(()) else Err(Conflict)
  }

  // ----- What the statements do under the invariant -----

  lemma ReapIs(t: Tables, now: Instant)
    ensures UpdateRows(ReapRows, now, t.jobs, Rows(ReapRows, now, t.dags, t.deps, t.jobs)) == Reaped(t.jobs, now)
    ensures Rows(ReapRows, now, t.dags, t.deps, t.jobs) == ExpiredRefs(t.jobs, now)
  {
    hide SqlRetried;
  }

  /** The claim's joins are implied by the invariant: a row that waits and is due belongs to a running graph
      and has no unfinished parent. */
  lemma GuardsAreRedundant(t: Tables, r: JobRef)
    requires StoreInv(t) && r in t.jobs && Waiting(t.jobs[r])
    ensures r.dag in t.dags && t.dags[r.dag] == RunningDag
    ensures NoUnfinishedParent(t.deps, t.jobs, r)
  {
    hide LeasesOk, LogsOk, LI.JobsOk, LI.GraphsOk;
    JobRowOk(t, r);
    assert LI.DependencyOk(t.deps[r.dag], t.jobs, r);
  }

  lemma CandidatesAre(t: Tables, st: Statement, now: Instant)
    requires StoreInv(t) && st.ClaimRow?
    ensures Rows(st, now, t.dags, t.deps, t.jobs) == DueRefs(t.jobs, now) <= t.jobs.Keys
    ensures Rows(st, now, t.dags, t.deps, t.jobs) == {} <==> Queue(t.jobs, now) == {}
  {
    hide StoreInv, NoUnfinishedParent;
    forall r | r in DueRefs(t.jobs, now) ensures r in Rows(st, now, t.dags, t.deps, t.jobs) {
      GuardsAreRedundant(t, r);
    }
    forall r | r in DueRefs(t.jobs, now) ensures QueueKeyOf(r, t.jobs[r]) in Queue(t.jobs, now) {
    }
    forall key | key in Queue(t.jobs, now) ensures JobRef(key.dagId, key.jobId) in DueRefs(t.jobs, now) {
    }
  }

  ghost function DueRefs(jobs: Jobs, now: Instant): set<JobRef> {
    set r | r in jobs && Waiting(jobs[r]) && jobs[r].availableAtMs <= now
  }

  lemma FirstCandidate(jobs: Jobs, refs: set<JobRef>)
    requires refs != {} && refs <= jobs.Keys
    ensures exists r :: r in refs && forall o :: o in refs ==> QueueLe(QueueKeyOf(r, jobs[r]), QueueKeyOf(o, jobs[o]))
  {
    var keys := set r | r in refs :: QueueKeyOf(r, jobs[r]);
    var some :| some in refs;
    assert QueueKeyOf(some, jobs[some]) in keys;
    var first := FirstInQueue(keys);
    var r :| r in refs && QueueKeyOf(r, jobs[r]) == first;
    forall o | o in refs ensures QueueLe(QueueKeyOf(r, jobs[r]), QueueKeyOf(o, jobs[o])) {
      assert QueueKeyOf(o, jobs[o]) in keys;
    }
  }

  lemma FirstIs(jobs: Jobs, refs: set<JobRef>, r: JobRef, now: Instant)
    requires refs == DueRefs(jobs, now) && r in refs
    requires forall o :: o in refs ==> QueueLe(QueueKeyOf(r, jobs[r]), QueueKeyOf(o, jobs[o]))
    ensures Queue(jobs, now) != {} && FirstInQueue(Queue(jobs, now)) == QueueKeyOf(r, jobs[r])
  {
    hide QueueLe;
    var queue := Queue(jobs, now);
    assert QueueKeyOf(r, jobs[r]) in queue;
    forall key | key in queue ensures QueueLe(QueueKeyOf(r, jobs[r]), key) {
      assert JobRef(key.dagId, key.jobId) in refs;
    }
    FirstInQueueUnique(queue, QueueKeyOf(r, jobs[r]));
  }

  lemma GrantIs(t: Tables, r: JobRef, st: Statement, now: Instant)
    requires r in t.jobs && st.ClaimRow?
    ensures UpdateRows(st, now, t.jobs, {r}) == Grant(t, r, st.owner, now, st.leaseMs, st.token).0.jobs
  {
  }

  /** The statements guarded by a lease change the one row that carries it, or none. */
  lemma GuardedRow(t: Tables, st: Statement, r: JobRef, owner: string, token: string, now: Instant)
    requires || (st.HeartbeatRow? && st.ref == r && st.owner == owner && st.token == token)
             || (st.CompleteRow? && st.ref == r && st.owner == owner && st.token == token)
             || (st.FailRow? && st.ref == r && st.owner == owner && st.token == token)
    ensures var rows := Rows(st, now, t.dags, t.deps, t.jobs);
            && |rows| == (if Presents(t.jobs, r, owner, token, now) then 1 else 0)
            && UpdateRows(st, now, t.jobs, rows) ==
                 if Presents(t.jobs, r, owner, token, now) then t.jobs[r := Set(st, now, t.jobs[r])] else t.jobs
  {
    hide Set, Holds;
    var rows := Rows(st, now, t.dags, t.deps, t.jobs);
    if Presents(t.jobs, r, owner, token, now) {
      assert rows == {r};
    } else {
      assert rows == {};
    }
  }

  lemma RetriedAttempts(jobs: Jobs, r: JobRef, now: Instant)
    ensures r in jobs ==> SqlRetried(jobs[r], now).attempts == jobs[r].attempts
  {
  }

  /** The release statement, with its EXISTS and NOT EXISTS over all rows, readies exactly the pending
      children all of whose parents have succeeded. */
  lemma ReleaseIs(t: Tables, r: JobRef, owner: string, token: string, result: string, now: Instant)
    requires StoreInv(t) && Presents(t.jobs, r, owner, token, now)
    ensures r.dag in t.deps
    ensures var mid := t.jobs[r := Set(CompleteRow(r, owner, token, result), now, t.jobs[r])];
            UpdateRows(ReleaseRows(r), now, mid, Rows(ReleaseRows(r), now, t.dags, t.deps, mid)) ==
            WithReleased(t.deps[r.dag], WithSuccess(t.jobs, r, result), r, now)
    ensures var jobs' := WithReleased(t.deps[r.dag], WithSuccess(t.jobs, r, result), r, now);
            r in jobs' && jobs'[r].attempts == t.jobs[r].attempts
  {
    hide LeasesOk, LogsOk, CancelledOk, LI.JobsOk, LI.DependenciesOk, Done, NoUnfinishedParent, ParentsIn, HasCycle;
    JobRowOk(t, r);
    var mid := WithSuccess(t.jobs, r, result);
    assert LI.GraphOk(t.deps[r.dag], t.jobs, r.dag);
    forall c: JobRef | c.dag == r.dag
      ensures NoUnfinishedParent(t.deps, mid, c) <==> ParentsIn(t.deps[r.dag], Done(mid, r.dag), c.job)
    {
      AntiJoin(t.deps, mid, c);
    }
  }

  /** Where every parent has a row, the anti-join says that all parents have succeeded. */
  lemma AntiJoin(deps: Dependencies, jobs: Jobs, r: JobRef)
    requires r.dag in deps && forall e :: e in deps[r.dag] ==> JobRef(r.dag, e.from) in jobs
    ensures NoUnfinishedParent(deps, jobs, r) <==> ParentsIn(deps[r.dag], Done(jobs, r.dag), r.job)
  {
    forall e | e in deps[r.dag]
      ensures e.from in Done(jobs, r.dag) <==> jobs[JobRef(r.dag, e.from)].state == Succeeded
    {
    }
  }

  lemma CancelIs(t: Tables, dag: string, now: Instant)
    ensures UpdateRows(CancelRows(dag), now, t.jobs, Rows(CancelRows(dag), now, t.dags, t.deps, t.jobs)) ==
            CancelledJobs(t.jobs, dag)
    ensures Rows(CancelRows(dag), now, t.dags, t.deps, t.jobs) == Unfinished(t.jobs, dag)
  {
  }

  lemma KnownDags(t: Tables)
    requires StoreInv(t)
    ensures forall r :: r in t.jobs ==> r.dag in t.dags
  {
    hide CancelledOk, LeasesOk, LogsOk;
    forall r | r in t.jobs ensures r.dag in t.dags {
      JobRowOk(t, r);
    }
  }

  /** The rows of the first `n` submitted jobs. */
  ghost predicate IsInserted(spec: DagSpec, n: int, now: Instant, rows: Jobs)
    requires 0 <= n <= |spec.jobs|
  {
    && (forall r :: r in rows <==> r.dag == spec.id && exists j :: 0 <= j < n && spec.jobs[j].id == r.job)
    && forall j :: 0 <= j < n ==>
         var r := JobRef(spec.id, spec.jobs[j].id); r in rows && rows[r] == InitialJob(spec, spec.jobs[j], now)
  }

  lemma InsertNext(spec: DagSpec, i: nat, counts: map<string, nat>, now: Instant, rows: Jobs)
    requires V.WellFormed(spec) && counts.Keys == V.JobIds(spec) && i < |spec.jobs|
    requires forall c :: c in counts ==> counts[c] == Unmet(spec.dependencies, {}, c)
    requires IsInserted(spec, i, now, rows)
    ensures var job := spec.jobs[i];
            var ref := JobRef(spec.id, job.id);
            && job.id in counts && ref !in rows
            && IsInserted(spec, i + 1, now, rows[ref :=
                 Job(job, if counts[job.id] == 0 then Ready else Pending, 0, now, None, None)])
  {
    hide InitialJob, Unmet, V.WellFormed;
    var job := spec.jobs[i];
    assert job in spec.jobs;
    FirstState(spec, job, counts[job.id], now);
    OtherIds(spec, i);
    InsertSnoc(spec, i, now, rows);
  }

  lemma InsertSnoc(spec: DagSpec, i: nat, now: Instant, rows: Jobs)
    requires i < |spec.jobs| && IsInserted(spec, i, now, rows)
    requires forall j :: 0 <= j < i ==> spec.jobs[j].id != spec.jobs[i].id
    ensures var r := JobRef(spec.id, spec.jobs[i].id);
            r !in rows && IsInserted(spec, i + 1, now, rows[r := InitialJob(spec, spec.jobs[i], now)])
  {
    hide InitialJob;
    var r := JobRef(spec.id, spec.jobs[i].id);
    var rows' := rows[r := InitialJob(spec, spec.jobs[i], now)];
    forall c: JobRef | c.dag == spec.id && exists j :: 0 <= j < i + 1 && spec.jobs[j].id == c.job ensures c in rows' {
      var j :| 0 <= j < i + 1 && spec.jobs[j].id == c.job;
      assert j == i || c in rows;
    }
  }

  lemma FirstState(spec: DagSpec, job: JobSpec, count: nat, now: Instant)
    requires count == Unmet(spec.dependencies, {}, job.id)
    ensures InitialJob(spec, job, now) == Job(job, if count == 0 then Ready else Pending, 0, now, None, None)
  {
    UnmetZero(spec.dependencies, {}, job.id);
  }

  lemma OtherIds(spec: DagSpec, i: nat)
    requires V.WellFormed(spec) && i < |spec.jobs|
    ensures forall j :: 0 <= j < i ==> spec.jobs[j].id != spec.jobs[i].id
  {
  }

  lemma InsertedAll(spec: DagSpec, now: Instant, rows: Jobs)
    requires V.WellFormed(spec) && IsInserted(spec, |spec.jobs|, now, rows)
    ensures rows == InitialJobs(spec, now)
  {
    hide InitialJobs, InitialJob, LI.JobOk;
    LI.InitialJobsOk(spec, now);
    var initial := InitialJobs(spec, now);
    hide V.WellFormed;
    forall r ensures r in rows <==> r in initial {
    }
    forall r | r in rows ensures rows[r] == initial[r] {
      var j :| 0 <= j < |spec.jobs| && spec.jobs[j] == initial[r].spec;
    }
  }

  /** The count of incoming edges of every job, repetitions included. */
  method CountParents(spec: DagSpec) returns (counts: map<string, nat>)
    ensures counts.Keys == V.JobIds(spec)
    ensures forall c :: c in counts ==> counts[c] == Unmet(spec.dependencies, {}, c)
  {
    var edges := spec.dependencies;
    counts := map job | job in spec.jobs :: job.id := 0;
    assert edges[..0] == [];
    for i := 0 to |edges|
      invariant counts.Keys == V.JobIds(spec)
      invariant forall c :: c in counts ==> counts[c] == Unmet(edges[..i], {}, c)
    {
      var edge := edges[i];
      UnmetSnoc(edges, i);
      if edge.to in counts {
        counts := counts[edge.to := counts[edge.to] + 1];
      }
    }
    assert edges[..|edges|] == edges;
  }

  /** One row per edge; a repeated edge violates the primary key. */
  method InsertEdges(spec: DagSpec) returns (r: Result<Edges, StoreError>)
    ensures r == if NoDuplicates(spec.dependencies) then Ok(V.EdgeSet(spec)) else Err(Database)
  {
    var rows: Edges := {};
    for i := 0 to |spec.dependencies|
      invariant forall e :: e in rows <==> e in spec.dependencies[..i]
      invariant NoDuplicates(spec.dependencies[..i])
    {
      var edge := spec.dependencies[i];
      if edge in rows {
        assert !NoDuplicates(spec.dependencies) by {
          var k :| 0 <= k < i && spec.dependencies[k] == edge;
        }
        return Err(Database);
      }
      rows := rows + {edge};
    }
    assert spec.dependencies[..|spec.dependencies|] == spec.dependencies;
    assert rows == V.EdgeSet(spec);
    return Ok(rows);
  }
}
