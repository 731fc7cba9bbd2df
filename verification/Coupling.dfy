/** How the scheduler's fields stand for a lease machine state, and why single updates keep that so.

    These lemmas speak about field values only; the class in Scheduler.dfy applies them. */
module Coupling {
  import opened Prelude
  import opened Collections
  import opened Domain
  import opened Multigraphs
  import opened Backoff
  import opened LeaseMachine
  import opened LeaseInvariants
  import opened ReadyIndex
  import opened Records
  import V = Validation

  type Submitted = map<string, seq<Dependency>>

  /** Exact counters, exact index, genuine leftovers. */
  ghost predicate Fits(dags: Dags, ready: multiset<ReadyKey>, submitted: Submitted, stale: set<ReadyKey>) {
    RecordsOk(dags, submitted) && IndexOk(ready, Flat(dags), stale) && StaleOk(Flat(dags), stale)
  }

  ghost predicate Coupled(dags: Dags, ready: multiset<ReadyKey>, sequence: U64, submitted: Submitted, model: System) {
    && Fits(dags, ready, submitted, model.stale)
    && model.jobs == Flat(dags)
    && model.dags == EdgeSets(submitted)
    && model.sequence == sequence
  }

  lemma EmptyCoupled(model: System)
    requires IsEmpty(model)
    ensures Coupled(map[], multiset{}, 0, map[], model)
  {
    assert LiveKeys(map[]) == {};
    assert Flat(map[]) == map[];
  }

  lemma Recouple(
    dags: Dags, ready: multiset<ReadyKey>, submitted: Submitted, model: System, dags': Dags, ready': multiset<ReadyKey>,
    model': System)
    requires Coupled(dags, ready, model.sequence, submitted, model)
    requires Fits(dags', ready', submitted, model'.stale) && model'.jobs == Flat(dags') && model'.dags == model.dags
    ensures Coupled(dags', ready', model'.sequence, submitted, model')
  {
  }

  /** Job lookups agree. */
  lemma SameLookup(dags: Dags, ready: multiset<ReadyKey>, sequence: U64, submitted: Submitted, model: System, r: JobRef)
    requires Coupled(dags, ready, sequence, submitted, model)
    ensures model.dags.Keys == dags.Keys
    ensures r in model.jobs <==> HasJob(dags, r)
    ensures HasJob(dags, r) ==> model.jobs[r] == CoreOf(RecordAt(dags, r))
  {
    FlatAt(dags, r);
  }

  /** The verdict on a presented lease, read off the records. */
  ghost function LeaseVerdict(dags: Dags, r: JobRef, owner: string, token: string, now: I64): Option<SchedulerError> {
    if r.dag !in dags then Some(DagNotFound)
    else if r.job !in dags[r.dag].jobs then Some(JobNotFound)
    else if Holds(CoreOf(dags[r.dag].jobs[r.job]), owner, token, now) then None
    else Some(LeaseConflict)
  }

  lemma SameVerdict(
    dags: Dags, ready: multiset<ReadyKey>, sequence: U64, submitted: Submitted, model: System, r: JobRef, owner: string,
    token: string, now: I64)
    requires Coupled(dags, ready, sequence, submitted, model)
    ensures LeaseError(model, r, owner, token, now) == LeaseVerdict(dags, r, owner, token, now)
  {
    SameLookup(dags, ready, sequence, submitted, model, r);
  }

  /** Replacing the record of a job that waits neither before nor after. */
  lemma ReplaceQuiet(
    dags: Dags, ready: multiset<ReadyKey>, submitted: Submitted, stale: set<ReadyKey>, r: JobRef, record: JobRecord)
    requires Fits(dags, ready, submitted, stale) && HasJob(dags, r)
    requires record.remainingDependencies == RecordAt(dags, r).remainingDependencies
    requires record.state == Succeeded <==> RecordAt(dags, r).state == Succeeded
    requires !Waiting(CoreOf(record)) && !Waiting(CoreOf(RecordAt(dags, r))) && RecordAt(dags, r).state != Cancelled
    ensures Fits(PutRecord(dags, r, record), ready, submitted, stale)
    ensures Flat(PutRecord(dags, r, record)) == Flat(dags)[r := CoreOf(record)]
  {
    hide RecordsOk, Flat, KeyOf, PutRecord;
    PutKeepsRecords(dags, submitted, r, record);
    FlatAfterPut(dags, r, record);
    FlatAt(dags, r);
    var jobs' := Flat(dags)[r := CoreOf(record)];
    QuietIndex(Flat(dags), jobs');
    StaleFrame(Flat(dags), jobs', stale, stale);
  }

  /** Replacing the record of a job that starts waiting, and pushing its key. */
  lemma ReplaceAndPush(
    dags: Dags, ready: multiset<ReadyKey>, submitted: Submitted, stale: set<ReadyKey>, r: JobRef, record: JobRecord)
    requires Fits(dags, ready, submitted, stale) && HasJob(dags, r)
    requires record.remainingDependencies == RecordAt(dags, r).remainingDependencies
    requires RecordAt(dags, r).state == Leased && Waiting(CoreOf(record))
    ensures Fits(PutRecord(dags, r, record), ready + multiset{KeyOf(r, CoreOf(record))}, submitted, stale)
    ensures Flat(PutRecord(dags, r, record)) == Flat(dags)[r := CoreOf(record)]
  {
    hide RecordsOk, Flat, KeyOf, PutRecord;
    PutKeepsRecords(dags, submitted, r, record);
    FlatAfterPut(dags, r, record);
    FlatAt(dags, r);
    PushFollows(ready, Flat(dags), stale, r, CoreOf(record));
    StaleFrame(Flat(dags), Flat(dags)[r := CoreOf(record)], stale, stale);
  }

  /** Popping the key of a waiting job and leasing it. */
  lemma ReplaceAndPop(
    dags: Dags, ready: multiset<ReadyKey>, submitted: Submitted, stale: set<ReadyKey>, r: JobRef, record: JobRecord)
    requires Fits(dags, ready, submitted, stale) && HasJob(dags, r)
    requires record.remainingDependencies == RecordAt(dags, r).remainingDependencies
    requires Waiting(CoreOf(RecordAt(dags, r))) && record.state == Leased
    ensures Fits(
              PutRecord(dags, r, record), ready - multiset{KeyOf(r, CoreOf(RecordAt(dags, r)))}, submitted, stale)
    ensures Flat(PutRecord(dags, r, record)) == Flat(dags)[r := CoreOf(record)]
  {
    hide RecordsOk, Flat, KeyOf, PutRecord;
    PutKeepsRecords(dags, submitted, r, record);
    FlatAfterPut(dags, r, record);
    FlatAt(dags, r);
    PopFollows(ready, Flat(dags), stale, r, CoreOf(record));
    StaleFrame(Flat(dags), Flat(dags)[r := CoreOf(record)], stale, stale);
  }

  lemma CoupledParts(dags: Dags, ready: multiset<ReadyKey>, sequence: U64, submitted: Submitted, model: System)
    requires Coupled(dags, ready, sequence, submitted, model)
    ensures Fits(dags, ready, submitted, model.stale) && model.jobs == Flat(dags)
    ensures model.dags.Keys == dags.Keys == submitted.Keys && model.dags == EdgeSets(submitted)
    ensures model.sequence == sequence
  {
  }

  /** Behind an accepted lease there is a leased record under its own id. */
  lemma LeasedRecord(
    config: SchedulerConfig, dags: Dags, ready: multiset<ReadyKey>, sequence: U64, submitted: Submitted, model: System,
    r: JobRef, owner: string, token: string, now: I64)
    requires Inv(config, model) && Coupled(dags, ready, sequence, submitted, model)
    requires LeaseError(model, r, owner, token, now) == None
    ensures HasJob(dags, r) && RecordAt(dags, r).state == Leased && RecordAt(dags, r).spec.id == r.job
    ensures r in model.jobs && model.jobs[r] == CoreOf(RecordAt(dags, r))
    ensures Fits(dags, ready, submitted, model.stale) && model.jobs == Flat(dags) && model.sequence == sequence
  {
    SameLookup(dags, ready, sequence, submitted, model, r);
  }

  lemma HeartbeatCoupled(
    config: SchedulerConfig, dags: Dags, ready: multiset<ReadyKey>, submitted: Submitted, model: System, r: JobRef,
    owner: string, token: string, now: I64, leaseMs: I64)
    requires Inv(config, model) && Coupled(dags, ready, model.sequence, submitted, model)
    requires 0 < leaseMs <= config.maxLeaseMs && LeaseError(model, r, owner, token, now) == None
    ensures HasJob(dags, r)
    ensures Coupled(
              PutRecord(dags, r, RecordAt(dags, r).(lease := Some(Lease(owner, token, SatAdd(now, leaseMs))))),
              ready, model.sequence, submitted, Heartbeat(config, model, r, owner, token, now, leaseMs).0)
  {
    hide Inv, Fits, Flat;
    LeasedRecord(config, dags, ready, model.sequence, submitted, model, r, owner, token, now);
    ReplaceQuiet(
      dags, ready, submitted, model.stale, r, RecordAt(dags, r).(lease := Some(Lease(owner, token, SatAdd(now, leaseMs)))));
  }

  // ----- Reaping -----

  lemma ExpiredRecord(config: SchedulerConfig, dags: Dags, model: System, jobs: Jobs, r: JobRef, now: I64)
    requires Inv(config, model) && model.jobs == jobs
    requires r in jobs && Expired(jobs[r], now) && r in Flat(dags) && Flat(dags)[r] == jobs[r]
    ensures HasJob(dags, r) && CoreOf(RecordAt(dags, r)) == jobs[r]
    ensures RecordAt(dags, r).state == Leased && RecordAt(dags, r).spec.id == r.job
  {
    FlatAt(dags, r);
  }

  /** The jobs after some of the expired leases have been reclaimed. */
  ghost predicate ReapedUpTo(config: SchedulerConfig, jobs: Jobs, jobs': Jobs, refs: seq<JobRef>, now: I64) {
    && jobs'.Keys == jobs.Keys
    && forall r :: r in jobs ==> jobs'[r] == if r in refs then Retried(config, r.job, jobs[r], now) else jobs[r]
  }

  /** The next listed lease is still as it was, and reclaiming it extends the processed prefix. */
  lemma ReapNext(config: SchedulerConfig, jobs: Jobs, jobs': Jobs, expired: seq<JobRef>, i: nat, now: I64)
    requires NoDuplicates(expired) && Elements(expired) == ExpiredRefs(jobs, now) && i < |expired|
    requires ReapedUpTo(config, jobs, jobs', expired[..i], now)
    ensures expired[i] in jobs && expired[i] in jobs' && jobs'[expired[i]] == jobs[expired[i]]
    ensures Expired(jobs[expired[i]], now)
    ensures ReapedUpTo(
              config, jobs, jobs'[expired[i] := Retried(config, expired[i].job, jobs[expired[i]], now)], expired[..i + 1], now)
  {
    var r := expired[i];
    assert r in Elements(expired);
    assert r !in expired[..i];
    assert expired[..i + 1] == expired[..i] + [r];
  }

  lemma ReapedNone(config: SchedulerConfig, jobs: Jobs, now: I64)
    ensures ReapedUpTo(config, jobs, jobs, [], now)
  {
  }

  lemma ReapedAll(config: SchedulerConfig, jobs: Jobs, jobs': Jobs, expired: seq<JobRef>, now: I64)
    requires Elements(expired) == ExpiredRefs(jobs, now)
    requires ReapedUpTo(config, jobs, jobs', expired, now)
    ensures jobs' == ReapedJobs(config, jobs, now)
  {
    forall r | r in jobs ensures r in expired <==> Expired(jobs[r], now) {
      assert r in Elements(expired) <==> r in expired;
    }
  }

  // ----- Completing -----

  /** A record after `hits` of its incoming edges have been counted down by the release loop. */
  function Progress(record: JobRecord, hits: nat, now: I64): JobRecord {
    var left := if hits <= record.remainingDependencies then record.remainingDependencies - hits else 0;
    if hits > 0 && left == 0 && record.state == Pending
    then record.(remainingDependencies := 0, state := Ready, availableAtMs := now)
    else record.(remainingDependencies := left)
  }

  /** The records of one graph after the release loop has handled the children listed in `handled`. */
  ghost predicate ReleasedUpTo(dags: Dags, dags': Dags, dag: string, handled: multiset<string>, now: I64) {
    && dag in dags && dags'.Keys == dags.Keys
    && (forall d :: d in dags && d != dag ==> dags'[d] == dags[d])
    && dags'[dag].dependents == dags[dag].dependents
    && dags'[dag].jobs.Keys == dags[dag].jobs.Keys
    && forall id :: id in dags[dag].jobs ==> dags'[dag].jobs[id] == Progress(dags[dag].jobs[id], handled[id], now)
  }

  /** No child is listed more often than its counter allows. */
  ghost predicate CountersCover(dags: Dags, dag: string, children: seq<string>) {
    && dag in dags
    && (forall c :: c in children ==> c in dags[dag].jobs)
    && forall id :: id in dags[dag].jobs ==> multiset(children)[id] <= dags[dag].jobs[id].remainingDependencies
  }

  lemma ReleasedNone(dags: Dags, dag: string, now: I64)
    requires dag in dags
    ensures ReleasedUpTo(dags, dags, dag, multiset{}, now)
  {
  }

  /** One turn of the release loop: the counter goes down without saturating, and the child becomes ready
      exactly when it was pending and this was the last edge it waited for. */
  lemma ReleaseNext(dags: Dags, dags': Dags, dag: string, children: seq<string>, i: nat, now: I64)
    requires i < |children| && CountersCover(dags, dag, children)
    requires ReleasedUpTo(dags, dags', dag, multiset(children[..i]), now)
    ensures children[i] in dags'[dag].jobs
    ensures var record := dags'[dag].jobs[children[i]];
            && record.remainingDependencies >= 1
            && record.state == dags[dag].jobs[children[i]].state
            && record.spec == dags[dag].jobs[children[i]].spec
            && ReleasedUpTo(
                 dags, PutRecord(dags', JobRef(dag, children[i]), Progress(record, 1, now)), dag,
                 multiset(children[..i + 1]), now)
  {
    var child := children[i];
    OneMore(children, i);
    ProgressStep(dags[dag].jobs[child], multiset(children[..i])[child], now);
  }

  lemma ProgressStep(record: JobRecord, hits: nat, now: I64)
    requires hits < record.remainingDependencies
    ensures Progress(Progress(record, hits, now), 1, now) == Progress(record, hits + 1, now)
    ensures Progress(record, hits, now) == record.(remainingDependencies := record.remainingDependencies - hits)
  {
  }

  lemma RecordParts(dags: Dags, submitted: Submitted, d: string)
    requires RecordsOk(dags, submitted) && d in dags
    ensures d in submitted
    ensures AdjacencyOk(dags[d].dependents, submitted[d]) && CountersOk(dags[d], submitted[d], Done(Flat(dags), d))
  {
  }

  lemma AdjacentAt(dependents: map<string, seq<string>>, deps: seq<Dependency>, p: string)
    requires AdjacencyOk(dependents, deps)
    ensures multiset(Adjacent(dependents, p)) == multiset(Children(deps, p))
  {
  }

  /** A job's own place among the succeeded ones. */
  lemma NotDone(dags: Dags, r: JobRef)
    requires HasJob(dags, r) && RecordAt(dags, r).state == Leased
    ensures r in Flat(dags) && r.job !in Done(Flat(dags), r.dag)
  {
    FlatAt(dags, r);
  }

  /** How one counter relates to one completed parent. */
  lemma CounterAt(dags: Dags, submitted: Submitted, r: JobRef, id: string)
    requires RecordsOk(dags, submitted) && HasJob(dags, r) && RecordAt(dags, r).state == Leased
    requires id in dags[r.dag].jobs
    ensures r.dag in submitted
    ensures var hits := multiset(Adjacent(dags[r.dag].dependents, r.job))[id];
            var done := Done(Flat(dags), r.dag);
            && (hits > 0 <==> Dependency(r.job, id) in Elements(submitted[r.dag]))
            && dags[r.dag].jobs[id].remainingDependencies == Unmet(submitted[r.dag], done + {r.job}, id) + hits
            && (Unmet(submitted[r.dag], done + {r.job}, id) == 0 <==>
                  ParentsIn(Elements(submitted[r.dag]), done + {r.job}, id))
  {
    hide Flat, Done, RecordsOk, AdjacencyOk;
    RecordParts(dags, submitted, r.dag);
    NotDone(dags, r);
    var deps := submitted[r.dag];
    var done := Done(Flat(dags), r.dag);
    AdjacentAt(dags[r.dag].dependents, deps, r.job);
    UnmetAfter(deps, done, r.job, id);
    UnmetZero(deps, done + {r.job}, id);
    ChildIffEdge(deps, r.job, id);
    assert id in Children(deps, r.job) <==> id in multiset(Children(deps, r.job));
  }

  lemma GraphAt(config: SchedulerConfig, model: System, dag: string)
    requires Inv(config, model) && dag in model.dags
    ensures GraphOk(model.dags[dag], model.jobs, dag)
  {
  }

  /** Every child of a graph's job has a record. */
  lemma ChildrenExist(
    config: SchedulerConfig, dags: Dags, ready: multiset<ReadyKey>, submitted: Submitted, model: System, r: JobRef)
    requires Inv(config, model) && Coupled(dags, ready, model.sequence, submitted, model) && HasJob(dags, r)
    ensures forall c :: c in Adjacent(dags[r.dag].dependents, r.job) ==> c in dags[r.dag].jobs
  {
    hide Inv, Flat, Done, RecordsOk, AdjacencyOk, CountersOk, IndexOk, StaleOk, Unmet;
    var children := Adjacent(dags[r.dag].dependents, r.job);
    CoupledParts(dags, ready, model.sequence, submitted, model);
    RecordParts(dags, submitted, r.dag);
    GraphAt(config, model, r.dag);
    AdjacentAt(dags[r.dag].dependents, submitted[r.dag], r.job);
    hide Adjacent, Children;
    forall c | c in children ensures c in dags[r.dag].jobs {
      assert c in multiset(children) && c in multiset(Children(submitted[r.dag], r.job));
      ChildIffEdge(submitted[r.dag], r.job, c);
      FlatAt(dags, JobRef(r.dag, c));
    }
  }

  /** What the loop needs to know about the completed job's children. */
  lemma CompletionCovers(config: SchedulerConfig, dags: Dags, ready: multiset<ReadyKey>, submitted: Submitted, model: System,
    r: JobRef, record: JobRecord)
    requires Inv(config, model) && Coupled(dags, ready, model.sequence, submitted, model)
    requires HasJob(dags, r) && RecordAt(dags, r).state == Leased
    requires record.remainingDependencies == RecordAt(dags, r).remainingDependencies
    ensures CountersCover(PutRecord(dags, r, record), r.dag, Adjacent(dags[r.dag].dependents, r.job))
  {
    hide Inv, Flat, Done, RecordsOk, IndexOk, StaleOk, Unmet, Adjacent;
    var children := Adjacent(dags[r.dag].dependents, r.job);
    CoupledParts(dags, ready, model.sequence, submitted, model);
    ChildrenExist(config, dags, ready, submitted, model, r);
    hide Coupled;
    forall id | id in dags[r.dag].jobs ensures multiset(children)[id] <= dags[r.dag].jobs[id].remainingDependencies {
      CounterAt(dags, submitted, r, id);
    }
  }

  ghost function Succeeding(record: JobRecord, result: string): JobRecord {
    record.(state := Succeeded, lease := None, result := Some(result))
  }

  /** After the loop the counters are exact again and the jobs are those of the lease machine. */
  lemma ReleaseDone(
    dags: Dags, submitted: Submitted, r: JobRef, result: string, dags': Dags, now: I64)
    requires RecordsOk(dags, submitted) && HasJob(dags, r) && RecordAt(dags, r).state == Leased
    requires ReleasedUpTo(
               PutRecord(dags, r, Succeeding(RecordAt(dags, r), result)), dags', r.dag,
               multiset(Adjacent(dags[r.dag].dependents, r.job)), now)
    ensures RecordsOk(dags', submitted)
    ensures Flat(dags') == WithReleased(Elements(submitted[r.dag]), WithSuccess(Flat(dags), r, result), r, now)
  {
    FlatAt(dags, r);
    var mid := PutRecord(dags, r, Succeeding(RecordAt(dags, r), result));
    FlatAfterPut(dags, r, Succeeding(RecordAt(dags, r), result));
    DoneAfterSuccess(Flat(dags), r, result, r.dag);
    SameSuccesses(mid, dags', r.dag);
    ReleasedCounters(dags, submitted, r, result, dags', now);
    ReleasedFlat(dags, submitted, r, result, dags', now);
  }

  lemma ReleasedCounters(dags: Dags, submitted: Submitted, r: JobRef, result: string, dags': Dags, now: I64)
    requires RecordsOk(dags, submitted) && HasJob(dags, r) && RecordAt(dags, r).state == Leased
    requires ReleasedUpTo(
               PutRecord(dags, r, Succeeding(RecordAt(dags, r), result)), dags', r.dag,
               multiset(Adjacent(dags[r.dag].dependents, r.job)), now)
    requires Done(Flat(dags'), r.dag) == Done(Flat(dags), r.dag) + {r.job}
    ensures RecordsOk(dags', submitted)
  {
    hide Flat, Done, RecordsOk, AdjacencyOk, Unmet;
    RecordParts(dags, submitted, r.dag);
    SameKeys(dags, submitted);
    forall d | d in dags'
      ensures AdjacencyOk(dags'[d].dependents, submitted[d]) && CountersOk(dags'[d], submitted[d], Done(Flat(dags'), d))
    {
      RecordParts(dags, submitted, d);
      if d == r.dag {
        forall id | id in dags[d].jobs
          ensures dags'[d].jobs[id].remainingDependencies == Unmet(submitted[d], Done(Flat(dags), d) + {r.job}, id)
        {
          CounterAt(dags, submitted, r, id);
        }
      } else {
        SameSuccesses(dags, dags', d);
      }
    }
    RecordsIntro(dags', submitted);
  }

  lemma SameKeys(dags: Dags, submitted: Submitted)
    requires RecordsOk(dags, submitted)
    ensures dags.Keys == submitted.Keys
  {
  }

  lemma RecordsIntro(dags: Dags, submitted: Submitted)
    requires dags.Keys == submitted.Keys
    requires forall d :: d in dags ==>
      AdjacencyOk(dags[d].dependents, submitted[d]) && CountersOk(dags[d], submitted[d], Done(Flat(dags), d))
    ensures RecordsOk(dags, submitted)
  {
  }

  lemma ReleasedFlat(dags: Dags, submitted: Submitted, r: JobRef, result: string, dags': Dags, now: I64)
    requires RecordsOk(dags, submitted) && HasJob(dags, r) && RecordAt(dags, r).state == Leased && r in Flat(dags)
    requires ReleasedUpTo(
               PutRecord(dags, r, Succeeding(RecordAt(dags, r), result)), dags', r.dag,
               multiset(Adjacent(dags[r.dag].dependents, r.job)), now)
    requires Done(WithSuccess(Flat(dags), r, result), r.dag) == Done(Flat(dags), r.dag) + {r.job}
    ensures Flat(dags') == WithReleased(Elements(submitted[r.dag]), WithSuccess(Flat(dags), r, result), r, now)
  {
    hide RecordsOk, Done, Elements, ParentsIn, Flat;
    SameKeys(dags, submitted);
    var edges := Elements(submitted[r.dag]);
    var mid := WithSuccess(Flat(dags), r, result);
    var goal := WithReleased(edges, mid, r, now);
    forall c ensures c in Flat(dags') <==> c in goal {
      FlatAt(dags, c);
      FlatAt(dags', c);
    }
    forall c | c in goal ensures Flat(dags')[c] == goal[c] {
      FlatAt(dags, c);
      FlatAt(dags', c);
      if c.dag == r.dag {
        ReleasedOne(dags, submitted, r, result, c, now);
      }
    }
  }

  lemma ReleasedOne(dags: Dags, submitted: Submitted, r: JobRef, result: string, c: JobRef, now: I64)
    requires RecordsOk(dags, submitted) && HasJob(dags, r) && RecordAt(dags, r).state == Leased && r in Flat(dags)
    requires HasJob(dags, c) && c.dag == r.dag && c in Flat(dags)
    requires Done(WithSuccess(Flat(dags), r, result), r.dag) == Done(Flat(dags), r.dag) + {r.job}
    ensures var edges := Elements(submitted[r.dag]);
            var mid := WithSuccess(Flat(dags), r, result);
            var record := PutRecord(dags, r, Succeeding(RecordAt(dags, r), result))[r.dag].jobs[c.job];
            var hits := multiset(Adjacent(dags[r.dag].dependents, r.job))[c.job];
            CoreOf(Progress(record, hits, now)) ==
            if Released(edges, mid, r, c) then mid[c].(state := Ready, availableAtMs := now) else mid[c]
  {
    hide RecordsOk, Done, Flat, Elements, ParentsIn;
    FlatAt(dags, r);
    FlatAt(dags, c);
    CounterAt(dags, submitted, r, c.job);
  }

  /** Within the loop the index follows each release. */
  lemma ReleaseIndex(dags: Dags, ready: multiset<ReadyKey>, stale: set<ReadyKey>, r: JobRef, record: JobRecord)
    requires IndexOk(ready, Flat(dags), stale) && StaleOk(Flat(dags), stale) && HasJob(dags, r)
    requires record.spec == RecordAt(dags, r).spec
    requires CoreOf(record) == CoreOf(RecordAt(dags, r)) || (RecordAt(dags, r).state == Pending && record.state == Ready)
    ensures var dags' := PutRecord(dags, r, record);
            && StaleOk(Flat(dags'), stale)
            && IndexOk(
                 if CoreOf(record) == CoreOf(RecordAt(dags, r)) then ready
                 else ready + multiset{KeyOf(r, CoreOf(record))},
                 Flat(dags'), stale)
  {
    FlatAfterPut(dags, r, record);
    FlatAt(dags, r);
    if CoreOf(record) == CoreOf(RecordAt(dags, r)) {
      assert Flat(dags)[r := CoreOf(record)] == Flat(dags);
    } else {
      PushFollows(ready, Flat(dags), stale, r, CoreOf(record));
      StaleFrame(Flat(dags), Flat(dags)[r := CoreOf(record)], stale, stale);
    }
  }

  lemma CoverParts(dags: Dags, dag: string, children: seq<string>)
    requires CountersCover(dags, dag, children)
    ensures dag in dags && forall c :: c in children ==> c in dags[dag].jobs
  {
  }

  lemma ReleasedDag(dags: Dags, dags': Dags, dag: string, handled: multiset<string>, now: I64)
    requires ReleasedUpTo(dags, dags', dag, handled, now)
    ensures dag in dags && dag in dags' && dags'[dag].jobs.Keys == dags[dag].jobs.Keys
  {
  }

  /** The success itself leaves the index alone. */
  lemma SucceedIndex(
    dags: Dags, ready: multiset<ReadyKey>, submitted: Submitted, stale: set<ReadyKey>, r: JobRef, result: string)
    requires Fits(dags, ready, submitted, stale) && HasJob(dags, r) && RecordAt(dags, r).state == Leased
    ensures var dags' := PutRecord(dags, r, Succeeding(RecordAt(dags, r), result));
            IndexOk(ready, Flat(dags'), stale) && StaleOk(Flat(dags'), stale)
  {
    hide RecordsOk, Flat;
    var record := Succeeding(RecordAt(dags, r), result);
    FlatAfterPut(dags, r, record);
    FlatAt(dags, r);
    QuietIndex(Flat(dags), Flat(dags)[r := CoreOf(record)]);
    StaleFrame(Flat(dags), Flat(dags)[r := CoreOf(record)], stale, stale);
  }

  lemma OwnIds(config: SchedulerConfig, dags: Dags, ready: multiset<ReadyKey>, submitted: Submitted, model: System, d: string)
    requires Inv(config, model) && Coupled(dags, ready, model.sequence, submitted, model) && d in dags
    ensures forall id :: id in dags[d].jobs ==> dags[d].jobs[id].spec.id == id
  {
    hide GraphsOk, DependenciesOk, StaleOk, TokensOk, CountsOk, Fits, Flat;
    forall id | id in dags[d].jobs ensures dags[d].jobs[id].spec.id == id {
      FlatAt(dags, JobRef(d, id));
    }
  }

  lemma CompleteCoupled(
    dags: Dags, ready: multiset<ReadyKey>, submitted: Submitted, model: System, r: JobRef, result: string, dags': Dags,
    ready': multiset<ReadyKey>, now: I64)
    requires Coupled(dags, ready, model.sequence, submitted, model)
    requires HasJob(dags, r) && RecordAt(dags, r).state == Leased && r in model.jobs
    requires ReleasedUpTo(
               PutRecord(dags, r, Succeeding(RecordAt(dags, r), result)), dags', r.dag,
               multiset(Adjacent(dags[r.dag].dependents, r.job)), now)
    requires IndexOk(ready', Flat(dags'), model.stale) && StaleOk(Flat(dags'), model.stale)
    ensures r.dag in model.dags
    ensures Coupled(
              dags', ready', model.sequence, submitted,
              model.(jobs := WithReleased(model.dags[r.dag], WithSuccess(model.jobs, r, result), r, now)))
  {
    hide RecordsOk, IndexOk, StaleOk, Flat, ReleasedUpTo, WithReleased;
    SameKeys(dags, submitted);
    ReleaseDone(dags, submitted, r, result, dags', now);
  }

  // ----- Cancelling -----

  function CancelRecord(record: JobRecord): JobRecord {
    if Terminal(CoreOf(record)) then record else record.(state := Cancelled, lease := None)
  }

  /** The jobs already visited that could still be cancelled. */
  ghost function Visited(jobs: map<string, JobRecord>, todo: set<string>): set<string> {
    set id | id in jobs && id !in todo && !Terminal(CoreOf(jobs[id]))
  }

  /** The records of one graph when all jobs but those in `todo` have been visited. */
  ghost predicate CancelledUpTo(dags: Dags, dags': Dags, dag: string, todo: set<string>, count: nat) {
    && dag in dags && dags'.Keys == dags.Keys
    && (forall d :: d in dags && d != dag ==> dags'[d] == dags[d])
    && dags'[dag].dependents == dags[dag].dependents
    && dags'[dag].jobs.Keys == dags[dag].jobs.Keys
    && (forall id :: id in dags[dag].jobs ==>
          dags'[dag].jobs[id] == if id in todo then dags[dag].jobs[id] else CancelRecord(dags[dag].jobs[id]))
    && count == |Visited(dags[dag].jobs, todo)|
  }

  lemma CancelledNone(dags: Dags, dag: string)
    requires dag in dags
    ensures CancelledUpTo(dags, dags, dag, dags[dag].jobs.Keys, 0)
  {
    assert Visited(dags[dag].jobs, dags[dag].jobs.Keys) == {};
  }

  lemma CancelNext(dags: Dags, dags': Dags, dag: string, todo: set<string>, count: nat, id: string)
    requires CancelledUpTo(dags, dags', dag, todo, count) && id in todo && id in dags[dag].jobs
    ensures dags'[dag].jobs[id] == dags[dag].jobs[id]
    ensures if Terminal(CoreOf(dags[dag].jobs[id])) then CancelledUpTo(dags, dags', dag, todo - {id}, count)
            else CancelledUpTo(
              dags, PutRecord(dags', JobRef(dag, id), CancelRecord(dags[dag].jobs[id])), dag, todo - {id}, count + 1)
  {
    var visited := Visited(dags[dag].jobs, todo);
    var visited' := Visited(dags[dag].jobs, todo - {id});
    if Terminal(CoreOf(dags[dag].jobs[id])) {
      assert visited' == visited;
    } else {
      assert visited' == visited + {id} && id !in visited;
    }
  }

  lemma CancelCoupled(
    dags: Dags, ready: multiset<ReadyKey>, submitted: Submitted, model: System, dag: string, dags': Dags, count: nat)
    requires Coupled(dags, ready, model.sequence, submitted, model) && dag in model.dags
    requires CancelledUpTo(dags, dags', dag, {}, count)
    ensures Coupled(dags', ready, model.sequence, submitted, Cancel(model, dag).0)
    ensures Cancel(model, dag).1 == Ok(count)
  {
    hide RecordsOk, IndexOk, StaleOk, CancelledUpTo, Flat, CancelledJobs, Unfinished;
    var model' := Cancel(model, dag).0;
    CancelledFlat(dags, dags', dag, count);
    CancelledRecords(dags, submitted, dags', dag, count);
    CancelLeftovers(model, dag);
    CancelIndex(ready, model, dag);
  }

  lemma CancelledFlat(dags: Dags, dags': Dags, dag: string, count: nat)
    requires CancelledUpTo(dags, dags', dag, {}, count)
    ensures Flat(dags') == CancelledJobs(Flat(dags), dag)
    ensures |Unfinished(Flat(dags), dag)| == count
  {
    var goal := CancelledJobs(Flat(dags), dag);
    hide Flat;
    forall c ensures (c in Flat(dags') <==> c in goal) && (c in goal ==> Flat(dags')[c] == goal[c]) {
      FlatAt(dags, c);
      FlatAt(dags', c);
    }
    var ids := Visited(dags[dag].jobs, {});
    forall c ensures c in Unfinished(Flat(dags), dag) <==> c.dag == dag && c.job in ids {
      FlatAt(dags, c);
    }
    RefsOf(dag, ids, Unfinished(Flat(dags), dag));
  }

  lemma CancelledRecords(dags: Dags, submitted: Submitted, dags': Dags, dag: string, count: nat)
    requires RecordsOk(dags, submitted) && CancelledUpTo(dags, dags', dag, {}, count)
    ensures RecordsOk(dags', submitted)
  {
    hide RecordsOk, Flat, Done, AdjacencyOk, Unmet;
    SameKeys(dags, submitted);
    forall d | d in dags'
      ensures AdjacencyOk(dags'[d].dependents, submitted[d]) && CountersOk(dags'[d], submitted[d], Done(Flat(dags'), d))
    {
      RecordParts(dags, submitted, d);
      SameSuccesses(dags, dags', d);
    }
    RecordsIntro(dags', submitted);
  }

  /** Cancelled jobs leave their keys behind: the index does not change, its leftovers grow. */
  lemma CancelIndex(ready: multiset<ReadyKey>, model: System, dag: string)
    requires IndexOk(ready, model.jobs, model.stale) && dag in model.dags
    ensures IndexOk(ready, Cancel(model, dag).0.jobs, Cancel(model, dag).0.stale)
  {
    var model' := Cancel(model, dag).0;
    forall k ensures k in LiveKeys(model'.jobs) + model'.stale <==> k in LiveKeys(model.jobs) + model.stale {
      LiveRef(model.jobs, k);
      LiveRef(model'.jobs, k);
    }
    assert LiveKeys(model'.jobs) + model'.stale == LiveKeys(model.jobs) + model.stale;
  }

  // ----- Claiming -----

  /** `left` is what remains of the leftovers after popping some that were due and preceded every live key. */
  ghost predicate Drained(model: System, left: set<ReadyKey>, now: I64) {
    && left <= model.stale
    && forall k :: k in model.stale - left ==> k.availableAtMs <= now && forall l :: l in LiveKeys(model.jobs) ==> KeyLe(k, l)
  }

  lemma DrainedNone(model: System, now: I64)
    ensures Drained(model, model.stale, now)
  {
  }

  /** The least entry names an existing job at its current availability. If that job does not wait, it was
      cancelled, and dropping the entry loses nothing. */
  lemma PoppedKey(
    dags: Dags, ready: multiset<ReadyKey>, submitted: Submitted, model: System, left: set<ReadyKey>, key: ReadyKey, now: I64)
    requires Fits(dags, ready, submitted, left) && model.jobs == Flat(dags) && Drained(model, left, now)
    requires key in ready && key.availableAtMs <= now && forall k :: k in ready ==> KeyLe(key, k)
    ensures HasJob(dags, RefOf(key)) && key == KeyOf(RefOf(key), CoreOf(RecordAt(dags, RefOf(key))))
    ensures !Waiting(CoreOf(RecordAt(dags, RefOf(key)))) ==>
      Fits(dags, ready - multiset{key}, submitted, left - {key}) && Drained(model, left - {key}, now)
  {
    hide RecordsOk, Flat, IndexOk, StaleOk, Drained;
    FlatAt(dags, RefOf(key));
    IndexIsExact(ready, Flat(dags), left);
    if !Waiting(CoreOf(RecordAt(dags, RefOf(key)))) {
      LiveRef(Flat(dags), key);
      DropLeftover(ready, Flat(dags), left, key);
      StaleFrame(Flat(dags), Flat(dags), left, left - {key});
      DrainOne(ready, model, left, key, now);
    }
  }

  lemma DrainOne(ready: multiset<ReadyKey>, model: System, left: set<ReadyKey>, key: ReadyKey, now: I64)
    requires IndexOk(ready, model.jobs, left) && Drained(model, left, now)
    requires key.availableAtMs <= now && forall k :: k in ready ==> KeyLe(key, k)
    ensures Drained(model, left - {key}, now)
  {
    forall l | l in LiveKeys(model.jobs) ensures KeyLe(key, l) {
      assert l in ready;
    }
  }

  lemma DropLeftover(ready: multiset<ReadyKey>, jobs: Jobs, left: set<ReadyKey>, key: ReadyKey)
    requires IndexOk(ready, jobs, left) && key in ready && key !in LiveKeys(jobs)
    ensures IndexOk(ready - multiset{key}, jobs, left - {key})
  {
    assert LiveKeys(jobs) + (left - {key}) == (LiveKeys(jobs) + left) - {key};
  }

  /** If every remaining entry lies in the future, nothing is eligible and the due leftovers are gone. */
  lemma TakeNothing(
    dags: Dags, ready: multiset<ReadyKey>, submitted: Submitted, model: System, left: set<ReadyKey>, owner: string,
    now: I64, leaseMs: I64)
    requires Fits(dags, ready, submitted, left) && model.jobs == Flat(dags) && Drained(model, left, now)
    requires model.dags == EdgeSets(submitted)
    requires forall k :: k in ready ==> k.availableAtMs > now
    ensures Coupled(dags, ready, model.sequence, submitted, Take(model, owner, now, leaseMs).0)
    ensures Take(model, owner, now, leaseMs).1 == None
  {
    hide RecordsOk, Flat;
    assert Eligible(model.jobs, now) == {} by {
      forall k ensures k !in Eligible(model.jobs, now) {
        LiveRef(model.jobs, k);
        assert k in LiveKeys(model.jobs) ==> k in ready;
      }
    }
    assert left == (set k | k in model.stale && k.availableAtMs > now) by {
      forall k | k in left ensures k.availableAtMs > now {
        assert k in ready;
      }
    }
  }

  /** If the least entry is due and its job waits, it is the least eligible key, and exactly the leftovers
      before it have been dropped. */
  lemma TakesLeast(
    dags: Dags, ready: multiset<ReadyKey>, submitted: Submitted, model: System, left: set<ReadyKey>, key: ReadyKey, now: I64)
    requires Fits(dags, ready, submitted, left) && model.jobs == Flat(dags) && Drained(model, left, now)
    requires key in ready && key.availableAtMs <= now && forall k :: k in ready ==> KeyLe(key, k)
    requires HasJob(dags, RefOf(key)) && key == KeyOf(RefOf(key), CoreOf(RecordAt(dags, RefOf(key))))
    requires Waiting(CoreOf(RecordAt(dags, RefOf(key))))
    ensures Eligible(model.jobs, now) != {} && LeastKey(Eligible(model.jobs, now)) == key
    ensures left == set k | k in model.stale && !KeyLe(k, key)
  {
    hide RecordsOk, Flat, KeyLe;
    FlatAt(dags, RefOf(key));
    LiveRef(model.jobs, key);
    assert key in Eligible(model.jobs, now);
    forall k | k in Eligible(model.jobs, now) ensures KeyLe(key, k) {
      LiveRef(model.jobs, k);
      assert k in ready;
    }
    LeastKeyUnique(Eligible(model.jobs, now), key);
    assert key in LiveKeys(model.jobs);
    forall k | k in model.stale - left ensures KeyLe(k, key) {
    }
    forall k | k in left ensures !KeyLe(k, key) {
      assert k in ready && Leftover(model.jobs, k);
      if KeyLe(k, key) {
        KeyLeAntisymmetric(k, key);
      }
    }
  }

  function LeasedRecordTo(record: JobRecord, owner: string, token: string, expires: I64): JobRecord {
    record.(
      attempts := SaturatingSuccessor(record.attempts, 0xFFFF),
      state := Leased,
      lease := Some(Lease(owner, token, expires)))
  }

  lemma TakeCoupled(
    config: SchedulerConfig, dags: Dags, ready: multiset<ReadyKey>, submitted: Submitted, model: System,
    left: set<ReadyKey>, key: ReadyKey, owner: string, now: I64, leaseMs: I64)
    requires Fits(dags, ready, submitted, left) && model.jobs == Flat(dags) && Drained(model, left, now)
    requires model.dags == EdgeSets(submitted)
    requires key in ready && key.availableAtMs <= now && forall k :: k in ready ==> KeyLe(key, k)
    requires HasJob(dags, RefOf(key)) && key == KeyOf(RefOf(key), CoreOf(RecordAt(dags, RefOf(key))))
    requires Waiting(CoreOf(RecordAt(dags, RefOf(key))))
    ensures var sequence := SaturatingSuccessor(model.sequence, U64_MAX);
            var leased := LeasedRecordTo(
                            RecordAt(dags, RefOf(key)), owner, Token(key.dagId, key.jobId, sequence), SatAdd(now, leaseMs));
            Coupled(
              PutRecord(dags, RefOf(key), leased), ready - multiset{key}, sequence, submitted,
              Take(model, owner, now, leaseMs).0)
    ensures var sequence := SaturatingSuccessor(model.sequence, U64_MAX);
            var token := Token(key.dagId, key.jobId, sequence);
            var expires := SatAdd(now, leaseMs);
            var leased := LeasedRecordTo(RecordAt(dags, RefOf(key)), owner, token, expires);
            Take(model, owner, now, leaseMs).1
            == Some(ClaimedJob(
                      key.dagId, key.jobId, leased.spec.kind, leased.spec.payload, leased.attempts, token, expires))
  {
    hide Fits, Flat, Drained, KeyLe, Token, Eligible, SatAdd;
    var sequence := SaturatingSuccessor(model.sequence, U64_MAX);
    var leased := LeasedRecordTo(
      RecordAt(dags, RefOf(key)), owner, Token(key.dagId, key.jobId, sequence), SatAdd(now, leaseMs));
    TakesLeast(dags, ready, submitted, model, left, key, now);
    ReplaceAndPop(dags, ready, submitted, left, RefOf(key), leased);
    FlatAt(dags, RefOf(key));
  }

  // ----- Submitting -----

  lemma AcceptedIsWellFormed(spec: DagSpec)
    requires V.Validation(spec).Ok?
    ensures V.WellFormed(spec)
  {
    V.AcceptedIff(spec);
  }

  lemma MapSizes<K, A, B>(a: map<K, A>, b: map<K, B>)
    requires a.Keys == b.Keys
    ensures |a| == |b|
  {
    assert |a| == |a.Keys| && |b| == |b.Keys|;
  }

  lemma IndexSizeIs(dags: Dags, ready: multiset<ReadyKey>, submitted: Submitted, model: System)
    requires Coupled(dags, ready, model.sequence, submitted, model)
    ensures |ready| == IndexSize(model)
  {
  }

  /** The job map of a single graph. */
  ghost function FlatOne(dag: string, jobs: map<string, JobRecord>): Jobs {
    Flat(map[dag := DagRecord(jobs, map[])])
  }

  lemma FlatOneAt(dag: string, jobs: map<string, JobRecord>, r: JobRef)
    ensures r in FlatOne(dag, jobs) <==> r.dag == dag && r.job in jobs
    ensures r in FlatOne(dag, jobs) ==> FlatOne(dag, jobs)[r] == CoreOf(jobs[r.job])
  {
  }

  /** The records built from the jobs `specs`. */
  ghost predicate IsInitial(specs: seq<JobSpec>, counts: map<string, nat>, jobs: map<string, JobRecord>, now: I64) {
    && jobs.Keys == (set job | job in specs :: job.id)
    && forall job :: job in specs ==>
         && job.id in counts
         && jobs[job.id] == JobRecord(
              job, if counts[job.id] == 0 then Ready else Pending, 0, now, counts[job.id], None, None)
  }

  lemma InitialNone(dag: string, counts: map<string, nat>, now: I64)
    ensures IsInitial([], counts, map[], now) && IndexOk(multiset{}, FlatOne(dag, map[]), {})
  {
    assert FlatOne(dag, map[]) == map[];
    assert LiveKeys(map[]) == {};
  }

  lemma PartIs(part: multiset<ReadyKey>, jobs: Jobs)
    requires IndexOk(part, jobs, {})
    ensures part == multiset(LiveKeys(jobs))
  {
    assert LiveKeys(jobs) + {} == LiveKeys(jobs);
  }

  lemma InitialNext(
    spec: DagSpec, i: nat, counts: map<string, nat>, jobs: map<string, JobRecord>, part: multiset<ReadyKey>, now: I64)
    requires V.WellFormed(spec) && counts.Keys == V.JobIds(spec) && i < |spec.jobs|
    requires IsInitial(spec.jobs[..i], counts, jobs, now)
    requires IndexOk(part, FlatOne(spec.id, jobs), {})
    ensures var job := spec.jobs[i];
            job.id in counts &&
            var record := JobRecord(
                            job, if counts[job.id] == 0 then Ready else Pending, 0, now, counts[job.id], None, None);
            && IsInitial(spec.jobs[..i + 1], counts, jobs[job.id := record], now)
            && IndexOk(
                 if counts[job.id] == 0 then part + multiset{ReadyKey(now, PriorityRank(job.priority), spec.id, job.id)}
                 else part,
                 FlatOne(spec.id, jobs[job.id := record]), {})
  {
    var job := spec.jobs[i];
    var r := JobRef(spec.id, job.id);
    assert job in spec.jobs;
    var record := JobRecord(job, if counts[job.id] == 0 then Ready else Pending, 0, now, counts[job.id], None, None);
    FreshId(spec, i);
    InitialSnoc(spec, i, counts, jobs, record, now);
    var before := FlatOne(spec.id, jobs);
    assert r !in before by { FlatOneAt(spec.id, jobs, r); }
    AddToFlatOne(spec.id, jobs, job.id, record);
    if counts[job.id] == 0 {
      PushFollows(part, before, {}, r, CoreOf(record));
    } else {
      AddQuiet(before, r, CoreOf(record));
    }
  }

  lemma FreshId(spec: DagSpec, i: nat)
    requires V.WellFormed(spec) && i < |spec.jobs|
    ensures forall job :: job in spec.jobs[..i] ==> job.id != spec.jobs[i].id
  {
  }

  lemma InitialSnoc(
    spec: DagSpec, i: nat, counts: map<string, nat>, jobs: map<string, JobRecord>, record: JobRecord, now: I64)
    requires i < |spec.jobs| && spec.jobs[i].id in counts
    requires forall job :: job in spec.jobs[..i] ==> job.id != spec.jobs[i].id
    requires IsInitial(spec.jobs[..i], counts, jobs, now)
    requires var job := spec.jobs[i];
             record == JobRecord(job, if counts[job.id] == 0 then Ready else Pending, 0, now, counts[job.id], None, None)
    ensures IsInitial(spec.jobs[..i + 1], counts, jobs[spec.jobs[i].id := record], now)
  {
    assert spec.jobs[..i + 1] == spec.jobs[..i] + [spec.jobs[i]];
  }

  lemma AddToFlatOne(dag: string, jobs: map<string, JobRecord>, id: string, record: JobRecord)
    ensures FlatOne(dag, jobs[id := record]) == FlatOne(dag, jobs)[JobRef(dag, id) := CoreOf(record)]
  {
    var goal := FlatOne(dag, jobs)[JobRef(dag, id) := CoreOf(record)];
    hide FlatOne;
    forall c
      ensures c in FlatOne(dag, jobs[id := record]) <==> c in goal
      ensures c in goal ==> FlatOne(dag, jobs[id := record])[c] == goal[c]
    {
      FlatOneAt(dag, jobs, c);
      FlatOneAt(dag, jobs[id := record], c);
    }
  }

  lemma AddQuiet(jobs: Jobs, r: JobRef, job: Job)
    requires r !in jobs && !Waiting(job)
    ensures LiveKeys(jobs[r := job]) == LiveKeys(jobs)
  {
    forall k ensures k in LiveKeys(jobs[r := job]) <==> k in LiveKeys(jobs) {
      LiveRef(jobs, k);
      LiveRef(jobs[r := job], k);
    }
  }

  lemma SubmitCoupled(
    config: SchedulerConfig, dags: Dags, ready: multiset<ReadyKey>, submitted: Submitted, model: System, spec: DagSpec,
    counts: map<string, nat>, jobs: map<string, JobRecord>, dependents: map<string, seq<string>>,
    ready': multiset<ReadyKey>, now: I64)
    requires Coupled(dags, ready, model.sequence, submitted, model)
    requires V.WellFormed(spec) && spec.id !in dags && Submit(config, model, spec, now).1.Ok?
    requires counts.Keys == V.JobIds(spec) && forall c :: c in counts ==> counts[c] == Unmet(spec.dependencies, {}, c)
    requires IsInitial(spec.jobs, counts, jobs, now)
    requires AdjacencyOk(dependents, spec.dependencies)
    requires ready' == ready + multiset(LiveKeys(FlatOne(spec.id, jobs)))
    ensures Coupled(
              dags[spec.id := DagRecord(jobs, dependents)], ready', model.sequence,
              submitted[spec.id := spec.dependencies], Submit(config, model, spec, now).0)
  {
    hide Coupled, V.WellFormed, V.Validation, IsInitial, AdjacencyOk, InitialJobs, LiveKeys, FlatOne, Unmet, V.JobIds;
    InsertCoupled(dags, ready, submitted, model, spec, counts, jobs, dependents, ready', now);
  }

  lemma InsertCoupled(
    dags: Dags, ready: multiset<ReadyKey>, submitted: Submitted, model: System, spec: DagSpec,
    counts: map<string, nat>, jobs: map<string, JobRecord>, dependents: map<string, seq<string>>,
    ready': multiset<ReadyKey>, now: I64)
    requires Coupled(dags, ready, model.sequence, submitted, model)
    requires V.WellFormed(spec) && spec.id !in dags
    requires counts.Keys == V.JobIds(spec) && forall c :: c in counts ==> counts[c] == Unmet(spec.dependencies, {}, c)
    requires IsInitial(spec.jobs, counts, jobs, now)
    requires AdjacencyOk(dependents, spec.dependencies)
    requires ready' == ready + multiset(LiveKeys(FlatOne(spec.id, jobs)))
    ensures Coupled(
              dags[spec.id := DagRecord(jobs, dependents)], ready', model.sequence,
              submitted[spec.id := spec.dependencies],
              model.(dags := model.dags[spec.id := V.EdgeSet(spec)], jobs := model.jobs + InitialJobs(spec, now)))
  {
    hide RecordsOk, StaleOk, Flat, FlatOne, V.WellFormed, IsInitial, AdjacencyOk, InitialJobs, IndexOk;
    SameKeys(dags, submitted);
    InitialIsFlat(spec, counts, jobs, now);
    FlatAfterInsert(dags, spec.id, DagRecord(jobs, dependents));
    InsertRecords(dags, submitted, spec, counts, jobs, dependents, now);
    InsertIndex(dags, ready, model.stale, spec.id, jobs);
    InsertStale(dags, model.stale, spec.id, jobs);
  }

  lemma InsertStale(dags: Dags, stale: set<ReadyKey>, dag: string, jobs: map<string, JobRecord>)
    requires StaleOk(Flat(dags), stale) && dag !in dags
    ensures StaleOk(Flat(dags) + FlatOne(dag, jobs), stale)
  {
    hide Flat, FlatOne;
    forall r | r in Flat(dags) ensures r !in FlatOne(dag, jobs) {
      FlatAt(dags, r);
      FlatOneAt(dag, jobs, r);
    }
    StaleFrame(Flat(dags), Flat(dags) + FlatOne(dag, jobs), stale, stale);
  }

  lemma InitialIsFlat(spec: DagSpec, counts: map<string, nat>, jobs: map<string, JobRecord>, now: I64)
    requires V.WellFormed(spec) && counts.Keys == V.JobIds(spec)
    requires forall c :: c in counts ==> counts[c] == Unmet(spec.dependencies, {}, c)
    requires IsInitial(spec.jobs, counts, jobs, now)
    ensures FlatOne(spec.id, jobs) == InitialJobs(spec, now)
    ensures jobs.Keys == V.JobIds(spec)
    ensures forall id :: id in jobs ==> jobs[id].remainingDependencies == Unmet(spec.dependencies, {}, id)
    ensures forall id :: id in jobs ==> jobs[id].state != Succeeded
  {
    hide FlatOne, InitialJobs, V.WellFormed, Unmet, ParentsIn;
    InitialJobsOk(spec, now);
    forall r
      ensures r in FlatOne(spec.id, jobs) <==> r in InitialJobs(spec, now)
      ensures r in InitialJobs(spec, now) ==> FlatOne(spec.id, jobs)[r] == InitialJobs(spec, now)[r]
    {
      FlatOneAt(spec.id, jobs, r);
      UnmetZero(spec.dependencies, {}, r.job);
    }
  }

  lemma FlatAfterInsert(dags: Dags, dag: string, record: DagRecord)
    requires dag !in dags
    ensures Flat(dags[dag := record]) == Flat(dags) + FlatOne(dag, record.jobs)
  {
    var goal := Flat(dags) + FlatOne(dag, record.jobs);
    hide Flat, FlatOne;
    forall c
      ensures c in Flat(dags[dag := record]) <==> c in goal
      ensures c in goal ==> Flat(dags[dag := record])[c] == goal[c]
    {
      FlatAt(dags, c);
      FlatAt(dags[dag := record], c);
      FlatOneAt(dag, record.jobs, c);
    }
  }

  lemma InsertRecords(
    dags: Dags, submitted: Submitted, spec: DagSpec, counts: map<string, nat>, jobs: map<string, JobRecord>,
    dependents: map<string, seq<string>>, now: I64)
    requires RecordsOk(dags, submitted) && spec.id !in dags && AdjacencyOk(dependents, spec.dependencies)
    requires forall id :: id in jobs ==> jobs[id].remainingDependencies == Unmet(spec.dependencies, {}, id)
    requires forall id :: id in jobs ==> jobs[id].state != Succeeded
    ensures RecordsOk(dags[spec.id := DagRecord(jobs, dependents)], submitted[spec.id := spec.dependencies])
  {
    hide RecordsOk, AdjacencyOk, Flat, Unmet;
    var dags' := dags[spec.id := DagRecord(jobs, dependents)];
    var submitted' := submitted[spec.id := spec.dependencies];
    SameKeys(dags, submitted);
    forall d | d in dags'
      ensures AdjacencyOk(dags'[d].dependents, submitted'[d]) && CountersOk(dags'[d], submitted'[d], Done(Flat(dags'), d))
    {
      if d == spec.id {
        NoneDone(dags', d);
      } else {
        RecordParts(dags, submitted, d);
        SameSuccesses(dags, dags', d);
      }
    }
    RecordsIntro(dags', submitted');
  }

  lemma NoneDone(dags: Dags, d: string)
    requires d in dags && forall id :: id in dags[d].jobs ==> dags[d].jobs[id].state != Succeeded
    ensures Done(Flat(dags), d) == {}
  {
    hide Flat;
    forall id ensures id !in Done(Flat(dags), d) {
      FlatAt(dags, JobRef(d, id));
    }
  }

  lemma InsertIndex(dags: Dags, ready: multiset<ReadyKey>, stale: set<ReadyKey>, dag: string, jobs: map<string, JobRecord>)
    requires IndexOk(ready, Flat(dags), stale) && StaleOk(Flat(dags), stale) && dag !in dags
    ensures IndexOk(ready + multiset(LiveKeys(FlatOne(dag, jobs))), Flat(dags) + FlatOne(dag, jobs), stale)
  {
    hide Flat, FlatOne, LiveKeys;
    var all := Flat(dags) + FlatOne(dag, jobs);
    var old', new' := LiveKeys(Flat(dags)), LiveKeys(FlatOne(dag, jobs));
    forall k
      ensures k in LiveKeys(all) <==> k in old' || k in new'
      ensures k in new' ==> k !in old' && k !in stale
    {
      LiveRef(Flat(dags), k);
      LiveRef(FlatOne(dag, jobs), k);
      LiveRef(all, k);
      FlatAt(dags, RefOf(k));
      FlatOneAt(dag, jobs, RefOf(k));
      assert k in stale ==> Leftover(Flat(dags), k);
    }
    assert LiveKeys(all) + stale == (old' + stale) + new';
  }

  // ----- What the coupling says to a reader -----

  /** Every counter is the number of submitted edges, repetitions included, whose source has not succeeded.
      So a pending job has a positive counter, and a job past pending has none left. */
  lemma CountersAreExact(
    config: SchedulerConfig, dags: Dags, ready: multiset<ReadyKey>, submitted: Submitted, model: System, r: JobRef)
    requires Inv(config, model) && Coupled(dags, ready, model.sequence, submitted, model) && HasJob(dags, r)
    ensures r.dag in submitted
    ensures var record := RecordAt(dags, r);
            && record.remainingDependencies == Unmet(submitted[r.dag], Done(model.jobs, r.dag), r.job)
            && (record.state == Pending ==> record.remainingDependencies > 0)
            && (record.state != Pending && record.state != Cancelled ==> record.remainingDependencies == 0)
  {
    hide JobsOk, GraphsOk, StaleOk, TokensOk, CountsOk, RecordsOk, IndexOk, Flat, Done, ParentsIn, AdjacencyOk;
    SameKeys(dags, submitted);
    RecordParts(dags, submitted, r.dag);
    FlatAt(dags, r);
    UnmetZero(submitted[r.dag], Done(model.jobs, r.dag), r.job);
    assert DependencyOk(model.dags[r.dag], model.jobs, r);
  }

  /** The heap holds one current entry per waiting job, at most one leftover per cancelled job, and nothing
      else; so it never outgrows the number of jobs. */
  lemma IndexMirrorsJobs(
    config: SchedulerConfig, dags: Dags, ready: multiset<ReadyKey>, submitted: Submitted, model: System)
    requires Inv(config, model) && Coupled(dags, ready, model.sequence, submitted, model)
    ensures forall r :: HasJob(dags, r) && Waiting(CoreOf(RecordAt(dags, r))) ==>
      ready[KeyOf(r, CoreOf(RecordAt(dags, r)))] == 1
    ensures forall k :: k in ready ==>
      && ready[k] == 1
      && HasJob(dags, RefOf(k)) && k == KeyOf(RefOf(k), CoreOf(RecordAt(dags, RefOf(k))))
      && (Waiting(CoreOf(RecordAt(dags, RefOf(k)))) || RecordAt(dags, RefOf(k)).state == Cancelled)
    ensures |ready| <= |model.jobs|
  {
    hide Inv, RecordsOk, Flat, IndexOk, StaleOk;
    IndexIsExact(ready, Flat(dags), model.stale);
    forall r ensures (r in Flat(dags) <==> HasJob(dags, r)) && (HasJob(dags, r) ==> Flat(dags)[r] == CoreOf(RecordAt(dags, r))) {
      FlatAt(dags, r);
    }
  }
}
