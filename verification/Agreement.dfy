/** The scheduler of src/scheduler.rs and the store of src/store.rs side by side: where they take the same
    step, and exactly when they pick the same job. */
module Agreement {
  import opened Prelude
  import opened Collections
  import opened Domain
  import opened Graphs
  import opened Multigraphs
  import opened Backoff
  import opened LeaseMachine
  import opened Sql
  import R = Records
  import C = Coupling
  import T = StoreModel
  import Store
  import V = Validation

  // ----- Release -----

  /** The counter loop of `complete` and the release statement make the same children ready: `dags'` is what
      the loop leaves of the records `dags`, and the statement runs on the same jobs. */
  lemma CounterReleaseEqualsAntiJoin(
    dags: R.Dags, submitted: C.Submitted, r: JobRef, result: string, dags': R.Dags, now: Instant, running: Dags)
    requires R.RecordsOk(dags, submitted) && R.HasJob(dags, r) && R.RecordAt(dags, r).state == Leased
    requires C.ReleasedUpTo(
               R.PutRecord(dags, r, C.Succeeding(R.RecordAt(dags, r), result)), dags', r.dag,
               multiset(R.Adjacent(dags[r.dag].dependents, r.job)), now)
    requires forall e :: e in submitted[r.dag] ==> JobRef(r.dag, e.from) in R.Flat(dags)
    ensures r in R.Flat(dags)
    ensures var deps := map d | d in submitted :: Elements(submitted[d]);
            var rows := WithSuccess(R.Flat(dags), r, result);
            R.Flat(dags') == UpdateRows(ReleaseRows(r), now, rows, Rows(ReleaseRows(r), now, running, deps, rows))
  {
    hide R.Flat, C.ReleasedUpTo, R.RecordsOk;
    R.FlatAt(dags, r);
    C.SameKeys(dags, submitted);
    C.ReleaseDone(dags, submitted, r, result, dags', now);
    var deps := map d | d in submitted :: Elements(submitted[d]);
    var rows := WithSuccess(R.Flat(dags), r, result);
    ReleaseStatement(deps, rows, r, now, running);
  }

  lemma ReleaseStatement(deps: Dependencies, rows: Jobs, r: JobRef, now: Instant, running: Dags)
    requires r.dag in deps && forall e :: e in deps[r.dag] ==> JobRef(r.dag, e.from) in rows
    ensures UpdateRows(ReleaseRows(r), now, rows, Rows(ReleaseRows(r), now, running, deps, rows)) ==
            WithReleased(deps[r.dag], rows, r, now)
  {
    hide NoUnfinishedParent, ParentsIn, Done;
    forall c: JobRef | c.dag == r.dag
      ensures NoUnfinishedParent(deps, rows, c) <==> ParentsIn(deps[r.dag], Done(rows, r.dag), c.job)
    {
      Store.AntiJoin(deps, rows, c);
    }
  }

  // ----- Whole steps -----

  /** The two hold the same jobs and the same edges. */
  ghost predicate Related(s: System, t: T.Tables) {
    t.jobs == s.jobs && t.deps == s.dags && t.dags.Keys == s.dags.Keys
  }

  /** The store's answer to a completion the scheduler refuses: it does not tell a lost lease from a missing job. */
  function StoreErrorOf(e: SchedulerError): T.StoreError {
    match e
    case ResultTooLarge => T.InvalidConfiguration
    case _ => T.Conflict
  }

  /** Completions of related systems accept the same calls, refuse the others for the same reasons as far as
      the store tells them apart, and leave the systems related. */
  lemma CompleteAgrees(s: System, t: T.Tables, r: JobRef, owner: string, token: string, result: string, now: Instant)
    requires Related(s, t) && (r in s.jobs ==> r.dag in s.dags)
    ensures var (s', a) := Complete(s, r, owner, token, result, now);
            var (t', b) := T.Complete(t, r, owner, token, result, now);
            Related(s', t') && b == if a.Ok? then Ok(()) else Err(StoreErrorOf(a.error))
  {
    hide WithReleased, Holds;
  }

  /** Cancellations of related systems answer alike and leave them related. */
  lemma CancelAgrees(s: System, t: T.Tables, dag: string)
    requires Related(s, t)
    ensures var (s', a) := Cancel(s, dag);
            var (t', b) := T.Cancel(t, dag);
            && Related(s', t')
            && b == if a.Ok? then Ok(a.value) else Err(T.NotFound)
  {
    hide CancelledJobs, LiveKeys;
  }

  /** A retry under the default configuration differs from the statement's by the jitter alone. */
  lemma RetryAgreesUpToJitter(jobId: string, job: Job, now: Instant)
    requires job.attempts >= 1
    ensures var mine, sql := Retried(DEFAULT_CONFIG, jobId, job, now), SqlRetried(job, now);
            if mine.state == DeadLettered then sql == mine
            else mine == sql.(availableAtMs := Min(I64_MAX, sql.availableAtMs + JitterOf(DEFAULT_CONFIG, jobId, job.attempts)))
  {
    hide Bounded;
    JitterRange(DEFAULT_CONFIG, jobId, job.attempts);
    RetryAtExact(DEFAULT_CONFIG, jobId, job.attempts, now);
    SqlBackoffAgrees(job.attempts);
  }

  // ----- Claim order -----

  ghost predicate Due(jobs: Jobs, r: JobRef, now: I64) {
    r in jobs && Waiting(jobs[r]) && jobs[r].availableAtMs <= now
  }

  /** Available no later than any due job, and of a priority no lower. */
  ghost predicate Dominates(jobs: Jobs, r: JobRef, now: I64)
    requires r in jobs
  {
    forall o :: Due(jobs, o, now) ==>
      jobs[r].availableAtMs <= jobs[o].availableAtMs && jobs[r].spec.priority >= jobs[o].spec.priority
  }

  ghost function SchedulerPick(jobs: Jobs, now: Instant): JobRef
    requires Eligible(jobs, now) != {}
  {
    RefOf(LeastKey(Eligible(jobs, now)))
  }

  ghost function StorePick(jobs: Jobs, now: Instant): JobRef
    requires T.Queue(jobs, now) != {}
  {
    var first := FirstInQueue(T.Queue(jobs, now));
    JobRef(first.dagId, first.jobId)
  }

  lemma SchedulerPickIs(jobs: Jobs, now: Instant)
    requires Eligible(jobs, now) != {} && forall r :: r in jobs ==> ValidPolicy(jobs[r].spec)
    ensures var p := SchedulerPick(jobs, now);
            && Due(jobs, p, now)
            && forall o :: Due(jobs, o, now) ==> KeyLe(KeyOf(p, jobs[p]), KeyOf(o, jobs[o]))
  {
    var key := LeastKey(Eligible(jobs, now));
    forall o | Due(jobs, o, now) ensures KeyLe(key, KeyOf(o, jobs[o])) {
      assert KeyOf(o, jobs[o]) in Eligible(jobs, now);
    }
  }

  lemma StorePickIs(jobs: Jobs, now: Instant)
    requires T.Queue(jobs, now) != {}
    ensures var p := StorePick(jobs, now);
            && Due(jobs, p, now)
            && forall o :: Due(jobs, o, now) ==> QueueLe(QueueKeyOf(p, jobs[p]), QueueKeyOf(o, jobs[o]))
  {
    var key := FirstInQueue(T.Queue(jobs, now));
    T.QueuedRow(jobs, now, key);
    forall o | Due(jobs, o, now) ensures QueueLe(key, QueueKeyOf(o, jobs[o])) {
      assert QueueKeyOf(o, jobs[o]) in T.Queue(jobs, now);
    }
  }

  /** The scheduler orders by availability first, the store by priority first: they pick the same job exactly
      when some due job is at once earliest and of highest priority. */
  lemma SamePickIff(jobs: Jobs, now: Instant)
    requires Eligible(jobs, now) != {} && forall r :: r in jobs ==> ValidPolicy(jobs[r].spec)
    ensures T.Queue(jobs, now) != {}
    ensures SchedulerPick(jobs, now) == StorePick(jobs, now) <==>
            exists r :: Due(jobs, r, now) && Dominates(jobs, r, now)
  {
    SchedulerPickIs(jobs, now);
    var p := SchedulerPick(jobs, now);
    assert QueueKeyOf(p, jobs[p]) in T.Queue(jobs, now);
    StorePickIs(jobs, now);
    var q := StorePick(jobs, now);
    hide Eligible, T.Queue, SchedulerPick, StorePick, Waiting;
    if p == q {
      PickDominates(jobs, p, now);
    }
    if r :| Due(jobs, r, now) && Dominates(jobs, r, now) {
      TieBreak(jobs, p, q, r, now);
    }
  }

  lemma PickDominates(jobs: Jobs, p: JobRef, now: Instant)
    requires Due(jobs, p, now)
    requires forall o :: Due(jobs, o, now) ==> KeyLe(KeyOf(p, jobs[p]), KeyOf(o, jobs[o]))
    requires forall o :: Due(jobs, o, now) ==> QueueLe(QueueKeyOf(p, jobs[p]), QueueKeyOf(o, jobs[o]))
    ensures Dominates(jobs, p, now)
  {
    hide Waiting, StrLe;
    forall o | Due(jobs, o, now)
      ensures jobs[p].availableAtMs <= jobs[o].availableAtMs && jobs[p].spec.priority >= jobs[o].spec.priority
    {
      assert KeyLe(KeyOf(p, jobs[p]), KeyOf(o, jobs[o]));
      assert QueueLe(QueueKeyOf(p, jobs[p]), QueueKeyOf(o, jobs[o]));
    }
  }

  lemma TieBreak(jobs: Jobs, p: JobRef, q: JobRef, r: JobRef, now: Instant)
    requires forall o :: o in jobs ==> ValidPolicy(jobs[o].spec)
    requires Due(jobs, p, now) && Due(jobs, q, now) && Due(jobs, r, now) && Dominates(jobs, r, now)
    requires KeyLe(KeyOf(p, jobs[p]), KeyOf(q, jobs[q])) && KeyLe(KeyOf(p, jobs[p]), KeyOf(r, jobs[r]))
    requires QueueLe(QueueKeyOf(q, jobs[q]), QueueKeyOf(p, jobs[p])) && QueueLe(QueueKeyOf(q, jobs[q]), QueueKeyOf(r, jobs[r]))
    ensures p == q
  {
    hide Waiting, StrLe;
    assert Due(jobs, p, now) && Due(jobs, q, now);
    assert jobs[p].availableAtMs == jobs[q].availableAtMs && jobs[p].spec.priority == jobs[q].spec.priority;
    KeyLeAntisymmetric(KeyOf(p, jobs[p]), KeyOf(q, jobs[q]));
  }

  /** Two due jobs, one older and one of higher priority, are picked differently. */
  lemma PicksDiffer(jobs: Jobs, a: JobRef, b: JobRef, now: Instant)
    requires jobs.Keys == {a, b} && (forall r :: r in jobs ==> ValidPolicy(jobs[r].spec))
    requires Due(jobs, a, now) && Due(jobs, b, now)
    requires jobs[a].availableAtMs < jobs[b].availableAtMs && jobs[a].spec.priority < jobs[b].spec.priority
    ensures Eligible(jobs, now) != {} && T.Queue(jobs, now) != {}
    ensures SchedulerPick(jobs, now) != StorePick(jobs, now)
  {
    hide SchedulerPick, StorePick, T.Queue, Waiting, ValidPolicy;
    assert KeyOf(a, jobs[a]) in Eligible(jobs, now);
    hide Eligible;
    SamePickIff(jobs, now);
    forall r | Due(jobs, r, now) ensures !Dominates(jobs, r, now) {
    }
  }

  // ----- A reachable difference -----

  function OneJob(id: string, priority: I16): JobSpec {
    JobSpec(id, Checksum, "", 1, priority)
  }

  /** A graph of one job, named alike. */
  function OneJobGraph(id: string, priority: I16): DagSpec {
    DagSpec(id, [OneJob(id, priority)], [])
  }

  const OLDER := OneJobGraph("older", 0)
  const URGENT := OneJobGraph("urgent", 50)

  function Waiter(spec: DagSpec, now: I64): Job
    requires spec.jobs != []
  {
    Job(spec.jobs[0], Ready, 0, now, None, None)
  }

  lemma OneJobIsValid(id: string, priority: I16)
    requires ValidIdentifier(id, MAX_DAG_ID_BYTES) && -100 <= priority <= 100
    ensures V.Validation(OneJobGraph(id, priority)).Ok?
    ensures V.JobIds(OneJobGraph(id, priority)) == {id} && V.EdgeSet(OneJobGraph(id, priority)) == {}
  {
    var spec := OneJobGraph(id, priority);
    assert spec.jobs[0].id == id;
    assert V.WellFormed(spec);
    assert V.EdgeSet(spec) == {};
    OrderExcludesCycle({id}, {}, [id]);
    V.AcceptedIff(spec);
  }

  lemma OneJobRows(id: string, priority: I16, now: I64)
    requires ValidIdentifier(id, MAX_DAG_ID_BYTES) && -100 <= priority <= 100
    ensures var spec := OneJobGraph(id, priority); InitialJobs(spec, now) == map[JobRef(id, id) := Waiter(spec, now)]
  {
    var spec := OneJobGraph(id, priority);
    assert spec.jobs[0] in spec.jobs;
    var r := JobRef(id, id);
    assert InitialJobs(spec, now).Keys == {r};
  }

  lemma SchedulerTakesOne(s: System, id: string, priority: I16, now: Instant)
    requires ValidIdentifier(id, MAX_DAG_ID_BYTES) && -100 <= priority <= 100
    requires id !in s.dags && |s.dags| < 100 && IndexSize(s) <= 1
    ensures var spec := OneJobGraph(id, priority);
            && Submit(DEFAULT_CONFIG, s, spec, now).1 == Ok(())
            && Submit(DEFAULT_CONFIG, s, spec, now).0 ==
               System(s.dags[id := {}], s.jobs[JobRef(id, id) := Waiter(spec, now)], s.stale, s.sequence)
  {
    hide V.Validation, InitialJobs, IndexSize, V.JobIds, V.EdgeSet, V.Sources, OneJob, ValidIdentifier;
    var spec := OneJobGraph(id, priority);
    OneJobIsValid(id, priority);
    OneJobRows(id, priority, now);
    OneSource(id);
    assert s.jobs + map[JobRef(id, id) := Waiter(spec, now)] == s.jobs[JobRef(id, id) := Waiter(spec, now)];
  }

  lemma OneSource(id: string)
    ensures |V.Sources({id}, {})| <= 1
  {
    assert V.Sources({id}, {}) <= {id};
    SubsetSize(V.Sources({id}, {}), {id});
  }

  lemma StoreTakesOne(t: T.Tables, id: string, priority: I16, now: Instant)
    requires ValidIdentifier(id, MAX_DAG_ID_BYTES) && -100 <= priority <= 100 && id !in t.dags
    ensures var spec := OneJobGraph(id, priority);
            && T.Submit(t, spec, now).1 == Ok(())
            && T.Submit(t, spec, now).0.jobs == t.jobs[JobRef(id, id) := Waiter(spec, now)]
            && T.Submit(t, spec, now).0.deps == t.deps[id := {}]
            && T.Submit(t, spec, now).0.dags == t.dags[id := RunningDag]
            && T.Submit(t, spec, now).0.events == t.events && T.Submit(t, spec, now).0.issued == t.issued
  {
    hide V.Validation, InitialJobs, V.JobIds, V.EdgeSet, OneJob, ValidIdentifier;
    var spec := OneJobGraph(id, priority);
    OneJobIsValid(id, priority);
    OneJobRows(id, priority, now);
    assert t.jobs + map[JobRef(id, id) := Waiter(spec, now)] == t.jobs[JobRef(id, id) := Waiter(spec, now)];
  }

  /** Both implementations accept a graph of one job and hold its row. */
  lemma SubmitOne(s: System, t: T.Tables, id: string, priority: I16, now: Instant) returns (s': System, t': T.Tables)
    requires ValidIdentifier(id, MAX_DAG_ID_BYTES) && -100 <= priority <= 100
    requires Related(s, t) && id !in s.dags && |s.dags| < 100 && IndexSize(s) <= 1
    ensures var spec := OneJobGraph(id, priority);
            && s' == System(s.dags[id := {}], s.jobs[JobRef(id, id) := Waiter(spec, now)], s.stale, s.sequence)
            && Related(s', t')
            && StepIs(DEFAULT_CONFIG, s, SubmitCall(spec, now), s', SubmitReply(Ok(())))
            && T.StepIs(t, T.SubmitTx(spec, now), t', T.Submitted(Ok(())))
  {
    hide Submit, T.Submit, IndexSize, ValidIdentifier, Waiter;
    var spec := OneJobGraph(id, priority);
    SchedulerTakesOne(s, id, priority, now);
    StoreTakesOne(t, id, priority, now);
    s', t' := Submit(DEFAULT_CONFIG, s, spec, now).0, T.Submit(t, spec, now).0;
  }

  lemma FewWaiting(s: System, r: JobRef)
    requires s.jobs.Keys <= {r} && s.stale == {}
    ensures IndexSize(s) <= 1
  {
    var keys := if r in s.jobs then {KeyOf(r, s.jobs[r])} else {};
    assert LiveKeys(s.jobs) + s.stale <= keys;
    SubsetSize(LiveKeys(s.jobs) + s.stale, keys);
  }

  /** A run of the scheduler and a run of the store that submit the same two graphs and then, with the same
      rows in hand, claim different jobs: an older job of low priority and a younger one of high priority. */
  lemma PicksCanDiffer() returns (
    states: seq<System>, calls: seq<Call>, replies: seq<Reply>,
    tables: seq<T.Tables>, txs: seq<T.StoreCall>, answers: seq<T.StoreReply>)
    ensures IsRun(DEFAULT_CONFIG, states, calls, replies) && |calls| == 2
    ensures T.IsStoreRun(tables, txs, answers) && |txs| == 2
    ensures states[2].jobs == tables[2].jobs
    ensures Eligible(states[2].jobs, 3) != {} && T.Queue(states[2].jobs, 3) != {}
    ensures SchedulerPick(states[2].jobs, 3) != StorePick(states[2].jobs, 3)
  {
    hide StepIs, T.StepIs, SchedulerPick, StorePick, T.Queue, Eligible, IndexSize, Due;
    var s0, t0 := System(map[], map[], {}, 0), T.NO_ROWS;
    var a, b := JobRef("older", "older"), JobRef("urgent", "urgent");
    FewWaiting(s0, a);
    var s1, t1 := SubmitOne(s0, t0, "older", 0, 1);
    FewWaiting(s1, a);
    assert a != b by { assert |a.job| != |b.job|; }
    var s2, t2 := SubmitOne(s1, t1, "urgent", 50, 2);
    states, calls, replies := [s0, s1, s2], [SubmitCall(OLDER, 1), SubmitCall(URGENT, 2)],
      [SubmitReply(Ok(())), SubmitReply(Ok(()))];
    tables, txs, answers := [t0, t1, t2], [T.SubmitTx(OLDER, 1), T.SubmitTx(URGENT, 2)],
      [T.Submitted(Ok(())), T.Submitted(Ok(()))];
    TwoWaiting(s2.jobs, a, b);
  }

  lemma TwoWaiting(jobs: Jobs, a: JobRef, b: JobRef)
    requires a != b && jobs == map[a := Waiter(OLDER, 1), b := Waiter(URGENT, 2)]
    ensures Eligible(jobs, 3) != {} && T.Queue(jobs, 3) != {}
    ensures SchedulerPick(jobs, 3) != StorePick(jobs, 3)
  {
    hide SchedulerPick, StorePick, T.Queue, Eligible;
    PicksDiffer(jobs, a, b, 3);
  }
}
