/** The records behind the scheduler's hash maps, and how they relate to the lease machine's job map. */
module Records {
  import opened Prelude
  import opened Collections
  import opened Domain
  import opened Graphs
  import opened Multigraphs
  import opened LeaseMachine
  import opened LeaseInvariants

  datatype JobRecord = JobRecord(
    spec: JobSpec,
    state: JobState,
    attempts: U16,
    availableAtMs: I64,
    remainingDependencies: nat,
    lease: Option<Lease>,
    result: Option<string>)

  datatype DagRecord = DagRecord(jobs: map<string, JobRecord>, dependents: map<string, seq<string>>)

  type Dags = map<string, DagRecord>

  /** Everything in a record except the counter. */
  function CoreOf(record: JobRecord): Job {
    Job(record.spec, record.state, record.attempts, record.availableAtMs, record.lease, record.result)
  }

  ghost predicate HasJob(dags: Dags, r: JobRef) {
    r.dag in dags && r.job in dags[r.dag].jobs
  }

  ghost function RecordAt(dags: Dags, r: JobRef): JobRecord
    requires HasJob(dags, r)
  {
    dags[r.dag].jobs[r.job]
  }

  /** The nested hash maps as one flat job map, counters forgotten. */
  ghost function Flat(dags: Dags): Jobs {
    map r | r in (set d, j | d in dags && j in dags[d].jobs :: JobRef(d, j)) :: CoreOf(dags[r.dag].jobs[r.job])
  }

  lemma FlatAt(dags: Dags, r: JobRef)
    ensures r in Flat(dags) <==> HasJob(dags, r)
    ensures HasJob(dags, r) ==> Flat(dags)[r] == CoreOf(RecordAt(dags, r))
  {
  }

  /** Replaces one record (what `job_mut` gives access to). */
  function PutRecord(dags: Dags, r: JobRef, record: JobRecord): Dags
    requires r.dag in dags
  {
    dags[r.dag := dags[r.dag].(jobs := dags[r.dag].jobs[r.job := record])]
  }

  lemma FlatAfterPut(dags: Dags, r: JobRef, record: JobRecord)
    requires HasJob(dags, r)
    ensures Flat(PutRecord(dags, r, record)) == Flat(dags)[r := CoreOf(record)]
  {
    var dags' := PutRecord(dags, r, record);
    forall c ensures c in Flat(dags') <==> c in Flat(dags) {
      FlatAt(dags, c);
      FlatAt(dags', c);
    }
    assert Flat(dags').Keys == Flat(dags)[r := CoreOf(record)].Keys;
  }

  // ----- Counters and adjacency lists -----

  function Adjacent(dependents: map<string, seq<string>>, from: string): seq<string> {
    if from in dependents then dependents[from] else []
  }

  /** The adjacency lists hold one entry per submitted edge, each list in order. */
  ghost predicate AdjacencyOk(dependents: map<string, seq<string>>, deps: seq<Dependency>) {
    forall p :: multiset(Adjacent(dependents, p)) == multiset(Children(deps, p)) && Ordered(Adjacent(dependents, p))
  }

  /** Each counter is the number of submitted edges, with repetitions, from a job that has not succeeded. */
  ghost predicate CountersOk(record: DagRecord, deps: seq<Dependency>, done: set<string>) {
    forall id :: id in record.jobs ==> record.jobs[id].remainingDependencies == Unmet(deps, done, id)
  }

  ghost predicate RecordsOk(dags: Dags, submitted: map<string, seq<Dependency>>) {
    && dags.Keys == submitted.Keys
    && forall d :: d in dags ==>
         && AdjacencyOk(dags[d].dependents, submitted[d])
         && CountersOk(dags[d], submitted[d], Done(Flat(dags), d))
  }

  /** Replacing a record without touching its counter or its success keeps the counters exact. */
  lemma PutKeepsRecords(dags: Dags, submitted: map<string, seq<Dependency>>, r: JobRef, record: JobRecord)
    requires RecordsOk(dags, submitted) && HasJob(dags, r)
    requires record.remainingDependencies == RecordAt(dags, r).remainingDependencies
    requires record.state == Succeeded <==> RecordAt(dags, r).state == Succeeded
    ensures RecordsOk(PutRecord(dags, r, record), submitted)
  {
    hide AdjacencyOk, Flat, Done;
    var dags' := PutRecord(dags, r, record);
    forall d | d in dags'
      ensures AdjacencyOk(dags'[d].dependents, submitted[d]) && CountersOk(dags'[d], submitted[d], Done(Flat(dags'), d))
    {
      SameSuccesses(dags, dags', d);
      assert CountersOk(dags[d], submitted[d], Done(Flat(dags), d));
    }
  }

  lemma SameSuccesses(dags: Dags, dags': Dags, d: string)
    requires d in dags && d in dags' && dags'[d].jobs.Keys == dags[d].jobs.Keys
    requires forall id :: id in dags[d].jobs ==> (dags'[d].jobs[id].state == Succeeded <==> dags[d].jobs[id].state == Succeeded)
    ensures Done(Flat(dags'), d) == Done(Flat(dags), d)
  {
    forall c: JobRef | c.dag == d
      ensures (c in Flat(dags) && Flat(dags)[c].state == Succeeded) <==> (c in Flat(dags') && Flat(dags')[c].state == Succeeded)
    {
      FlatAt(dags, c);
      FlatAt(dags', c);
    }
    SameDone(Flat(dags), Flat(dags'), d);
  }

  ghost function EdgeSets(submitted: map<string, seq<Dependency>>): map<string, Edges> {
    map d | d in submitted :: Elements(submitted[d])
  }
}
