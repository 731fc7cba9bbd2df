/** `DagSpec::validate` (src/domain.rs): admission checks followed by Kahn's algorithm.

    `Validation` is the specification: the first failed admission check, otherwise `Cycle` exactly when
    the edges contain a cycle, otherwise Kahn's order as a function of the *set* of job ids and the *set*
    of edges. `Validate` is the loop program over hash maps, proved to return that. */
module Validation {
  import opened Prelude
  import opened Collections
  import opened Domain
  import opened Graphs
  import opened Multigraphs

  ghost function JobIds(spec: DagSpec): set<string> {
    set job | job in spec.jobs :: job.id
  }

  ghost function EdgeSet(spec: DagSpec): Edges {
    Elements(spec.dependencies)
  }

  // ----- Admission checks -----

  /** The first complaint of the scan over the jobs, when `seen` ids came before. */
  ghost function FirstJobError(jobs: seq<JobSpec>, seen: set<string>): Option<ValidationError> {
    if jobs == [] then None
    else if JobError(jobs[0]).Some? then JobError(jobs[0])
    else if jobs[0].id in seen then Some(DuplicateJob(jobs[0].id))
    else FirstJobError(jobs[1..], seen + {jobs[0].id})
  }

  /** The first complaint of the scan over the edges. */
  ghost function FirstEdgeError(deps: seq<Dependency>, ids: set<string>): Option<ValidationError> {
    if deps == [] then None
    else if deps[0].from == deps[0].to then Some(Cycle)
    else if deps[0].from !in ids then Some(UnknownJob(deps[0].from))
    else if deps[0].to !in ids then Some(UnknownJob(deps[0].to))
    else FirstEdgeError(deps[1..], ids)
  }

  ghost function StaticError(spec: DagSpec): Option<ValidationError> {
    if !ValidIdentifier(spec.id, MAX_DAG_ID_BYTES) then Some(InvalidIdentifier(spec.id))
    else if spec.jobs == [] || |spec.jobs| > MAX_JOBS_PER_DAG then Some(InvalidJobCount)
    else if |spec.dependencies| > MAX_DEPENDENCIES_PER_DAG then Some(InvalidDependencyCount)
    else if FirstJobError(spec.jobs, {}).Some? then FirstJobError(spec.jobs, {})
    else FirstEdgeError(spec.dependencies, JobIds(spec))
  }

  ghost predicate DistinctIds(jobs: seq<JobSpec>) {
    forall i, j :: 0 <= i < j < |jobs| ==> jobs[i].id != jobs[j].id
  }

  /** The admission rules without any order of checking. */
  ghost predicate WellFormed(spec: DagSpec) {
    && ValidIdentifier(spec.id, MAX_DAG_ID_BYTES)
    && 1 <= |spec.jobs| <= MAX_JOBS_PER_DAG
    && |spec.dependencies| <= MAX_DEPENDENCIES_PER_DAG
    && (forall job :: job in spec.jobs ==> JobError(job) == None)
    && DistinctIds(spec.jobs)
    && (forall e :: e in spec.dependencies ==> e.from != e.to && e.from in JobIds(spec) && e.to in JobIds(spec))
  }

  lemma {:induction false} NoJobErrorIff(jobs: seq<JobSpec>, seen: set<string>)
    ensures FirstJobError(jobs, seen) == None <==>
            && (forall job :: job in jobs ==> JobError(job) == None && job.id !in seen)
            && DistinctIds(jobs)
  {
    hide JobError, DistinctIds;
    if jobs == [] {
      NoIds();
    } else {
      var rest := jobs[1..];
      NoJobErrorIff(rest, seen + {jobs[0].id});
      assert jobs == [jobs[0]] + rest;
      DistinctCons(jobs);
    }
  }

  lemma NoIds()
    ensures DistinctIds([])
  {
  }

  lemma DistinctCons(jobs: seq<JobSpec>)
    requires jobs != []
    ensures DistinctIds(jobs) <==>
            DistinctIds(jobs[1..]) && forall job :: job in jobs[1..] ==> job.id != jobs[0].id
  {
    var rest := jobs[1..];
    if DistinctIds(jobs) {
      forall i, j | 0 <= i < j < |rest| ensures rest[i].id != rest[j].id {
        assert jobs[i + 1].id != jobs[j + 1].id;
      }
    }
  }

  lemma {:induction false} NoEdgeErrorIff(deps: seq<Dependency>, ids: set<string>)
    ensures FirstEdgeError(deps, ids) == None <==>
            forall e :: e in deps ==> e.from != e.to && e.from in ids && e.to in ids
  {
    if deps != [] {
      NoEdgeErrorIff(deps[1..], ids);
      assert deps == [deps[0]] + deps[1..];
    }
  }

  lemma StaticErrorIff(spec: DagSpec)
    ensures StaticError(spec) == None <==> WellFormed(spec)
  {
    NoJobErrorIff(spec.jobs, {});
    NoEdgeErrorIff(spec.dependencies, JobIds(spec));
  }

  lemma {:induction false} DistinctIdCount(jobs: seq<JobSpec>)
    requires DistinctIds(jobs)
    ensures |set job | job in jobs :: job.id| == |jobs|
  {
    var ids := seq(|jobs|, i requires 0 <= i < |jobs| => jobs[i].id);
    assert NoDuplicates(ids);
    LengthOfDistinct(ids);
    assert Elements(ids) == set job | job in jobs :: job.id by {
      forall x | x in Elements(ids) ensures x in set job | job in jobs :: job.id {
        var i :| 0 <= i < |ids| && ids[i] == x;
        assert jobs[i] in jobs;
      }
      forall x | x in set job | job in jobs :: job.id ensures x in ids {
        var i :| 0 <= i < |jobs| && jobs[i].id == x;
        assert ids[i] == x;
      }
    }
  }

  // ----- Kahn's algorithm on sets -----

  /** The children that `node` makes available once `done` and `node` itself are processed. */
  ghost function NewlyReady(ids: set<string>, edges: Edges, done: set<string>, node: string): set<string> {
    set c | c in ids && Dependency(node, c) in edges && ParentsIn(edges, done + {node}, c)
  }

  /** `order` has been emitted and `queue` is waiting: together they are exactly the nodes all of whose
      parents have been emitted, and every emitted node came after all its parents. */
  ghost predicate KahnState(ids: set<string>, edges: Edges, order: seq<string>, queue: seq<string>) {
    && NoDuplicates(order + queue)
    && (forall c :: c in order + queue <==> c in ids && ParentsIn(edges, Elements(order), c))
    && (forall k :: 0 <= k < |order| ==> ParentsIn(edges, Elements(order[..k]), order[k]))
  }

  lemma KahnStart(ids: set<string>, edges: Edges, queue: seq<string>)
    requires NoDuplicates(queue)
    requires forall c :: c in queue <==> c in ids && ParentsIn(edges, {}, c)
    ensures KahnState(ids, edges, [], queue)
  {
    assert [] + queue == queue;
    assert Elements<string>([]) == {};
  }

  lemma ElementsSnoc<T>(s: seq<T>, x: T)
    ensures Elements(s + [x]) == Elements(s) + {x}
  {
  }

  lemma KahnStep(ids: set<string>, edges: Edges, order: seq<string>, queue: seq<string>, batch: seq<string>)
    requires KahnState(ids, edges, order, queue) && queue != []
    requires NoDuplicates(batch) && Elements(batch) == NewlyReady(ids, edges, Elements(order), queue[0])
    ensures KahnState(ids, edges, order + [queue[0]], queue[1..] + batch)
  {
    var node := queue[0];
    var order' := order + [node];
    var queue' := queue[1..] + batch;
    var done := Elements(order);
    ElementsSnoc(order, node);
    assert order' + queue' == (order + queue) + batch by {
      assert queue == [node] + queue[1..];
    }
    HeadNotEmitted(order, queue);
    forall c | c in batch ensures c !in order + queue {
      assert c in Elements(batch);
      assert Dependency(node, c) in edges && node !in done;
      assert !ParentsIn(edges, done, c);
    }
    assert NoDuplicates(order' + queue') by { NoDuplicatesAppend(order + queue, batch); }
    forall c ensures c in order' + queue' <==> c in ids && ParentsIn(edges, Elements(order'), c) {
      assert c in order' + queue' <==> c in order + queue || c in Elements(batch);
      if c in ids && ParentsIn(edges, done + {node}, c) && !ParentsIn(edges, done, c) {
        var e :| e in edges && e.to == c && e.from !in done;
        assert e == Dependency(node, c);
      }
    }
    forall k | 0 <= k < |order'| ensures ParentsIn(edges, Elements(order'[..k]), order'[k]) {
      if k < |order| {
        assert order'[..k] == order[..k];
      } else {
        assert order'[..k] == order;
        assert node in order + queue;
      }
    }
  }

  lemma HeadNotEmitted(order: seq<string>, queue: seq<string>)
    requires queue != [] && NoDuplicates(order + queue)
    ensures queue[0] !in Elements(order)
  {
    var all := order + queue;
    forall i | 0 <= i < |order| ensures order[i] != queue[0] {
      assert all[i] == order[i] && all[|order|] == queue[0];
    }
  }

  lemma NoDuplicatesAppend<T>(a: seq<T>, b: seq<T>)
    requires NoDuplicates(a) && NoDuplicates(b) && forall x :: x in b ==> x !in a
    ensures NoDuplicates(a + b)
  {
    var c := a + b;
    forall i, j | 0 <= i < j < |c| ensures c[i] != c[j] {
      if i < |a| <= j {
        assert c[j] == b[j - |a|] && c[i] in a;
      } else if |a| <= i {
        assert c[i] == b[i - |a|] && c[j] == b[j - |a|];
      }
    }
  }

  lemma KahnBounded(ids: set<string>, edges: Edges, order: seq<string>, queue: seq<string>)
    requires KahnState(ids, edges, order, queue)
    ensures |order| + |queue| <= |ids|
  {
    LengthOfDistinct(order + queue);
    SubsetSize(Elements(order + queue), ids);
  }

  /** Emits the queue first-in first-out, appending each batch of newly available nodes in sorted order. */
  ghost function KahnRun(ids: set<string>, edges: Edges, order: seq<string>, queue: seq<string>): (r: seq<string>)
    requires KahnState(ids, edges, order, queue)
    ensures KahnState(ids, edges, r, [])
    decreases |ids| - |order|
  {
    if queue == [] then order else
      var batch := Sorted(NewlyReady(ids, edges, Elements(order), queue[0]));
      KahnStep(ids, edges, order, queue, batch);
      KahnBounded(ids, edges, order, queue);
      KahnRun(ids, edges, order + [queue[0]], queue[1..] + batch)
  }

  ghost function Sources(ids: set<string>, edges: Edges): set<string> {
    set c | c in ids && ParentsIn(edges, {}, c)
  }

  ghost function KahnOrder(ids: set<string>, edges: Edges): (r: seq<string>)
    ensures KahnState(ids, edges, r, [])
  {
    var queue := Sorted(Sources(ids, edges));
    assert forall c :: c in queue <==> c in Elements(queue);
    KahnStart(ids, edges, queue);
    KahnRun(ids, edges, [], queue)
  }

  /** When the queue runs dry, everything was emitted exactly when the graph has no cycle; and then the
      emitted list is a topological order. */
  lemma KahnComplete(ids: set<string>, edges: Edges, order: seq<string>)
    requires EndpointsIn(edges, ids) && KahnState(ids, edges, order, [])
    ensures |order| == |ids| <==> !HasCycle(edges)
    ensures |order| == |ids| ==> IsTopologicalOrder(ids, edges, order)
  {
    assert order + [] == order;
    LengthOfDistinct(order);
    assert Elements(order) <= ids;
    var left := ids - Elements(order);
    assert ids == Elements(order) + left;
    assert |ids| == |Elements(order)| + |left|;
    if left == {} {
      EmittedInOrder(ids, edges, order);
      OrderExcludesCycle(ids, edges, order);
    } else {
      LeftoversClosed(ids, edges, order);
      ClosedSetHasCycle(edges, left);
    }
  }

  /** Whoever was never emitted waits for somebody who was never emitted. */
  lemma LeftoversClosed(ids: set<string>, edges: Edges, order: seq<string>)
    requires EndpointsIn(edges, ids) && KahnState(ids, edges, order, [])
    ensures PredecessorClosed(edges, ids - Elements(order))
  {
    assert order + [] == order;
    var left := ids - Elements(order);
    forall c | c in left ensures HasPredecessorIn(edges, left, c) {
      assert c !in order;
      var e :| e in edges && e.to == c && e.from !in Elements(order);
      assert e.from in left && e == Dependency(e.from, c);
    }
  }

  lemma EmittedInOrder(ids: set<string>, edges: Edges, order: seq<string>)
    requires KahnState(ids, edges, order, []) && Elements(order) == ids
    ensures IsTopologicalOrder(ids, edges, order)
  {
    assert order + [] == order;
    PrecedenceIsTopological(ids, edges, order);
  }

  // ----- The specification and what it promises -----

  ghost function Validation(spec: DagSpec): Result<seq<string>, ValidationError> {
    match StaticError(spec)
    case Some(e) => Err(e)
    case None => if HasCycle(EdgeSet(spec)) then Err(Cycle) else Ok(KahnOrder(JobIds(spec), EdgeSet(spec)))
  }

  /** Acceptance, without reference to any algorithm: the admission rules hold and no cycle exists. */
  lemma AcceptedIff(spec: DagSpec)
    ensures Validation(spec).Ok? <==> WellFormed(spec) && !HasCycle(EdgeSet(spec))
  {
    StaticErrorIff(spec);
  }

  /** The returned list is a permutation of the job ids with every edge pointing forward. */
  lemma AcceptedOrder(spec: DagSpec)
    requires Validation(spec).Ok?
    ensures IsTopologicalOrder(JobIds(spec), EdgeSet(spec), Validation(spec).value)
    ensures |Validation(spec).value| == |spec.jobs|
  {
    StaticErrorIff(spec);
    EndpointsOfWellFormed(spec);
    KahnComplete(JobIds(spec), EdgeSet(spec), KahnOrder(JobIds(spec), EdgeSet(spec)));
    DistinctIdCount(spec.jobs);
  }

  lemma EndpointsOfWellFormed(spec: DagSpec)
    requires WellFormed(spec)
    ensures EndpointsIn(EdgeSet(spec), JobIds(spec))
  {
    forall e | e in EdgeSet(spec) ensures e.from in JobIds(spec) && e.to in JobIds(spec) {
      assert e in spec.dependencies;
    }
  }

  /** A `Cycle` verdict is never a false alarm. */
  lemma CycleVerdictIsReal(spec: DagSpec)
    requires Validation(spec) == Err(Cycle)
    ensures HasCycle(EdgeSet(spec))
  {
    if StaticError(spec).Some? {
      JobErrorsAreNotCycles(spec.jobs, {});
      var e := SelfLoop(spec.dependencies, JobIds(spec));
      assert IsCycle(EdgeSet(spec), [e.from, e.to]);
    }
  }

  lemma {:induction false} JobErrorsAreNotCycles(jobs: seq<JobSpec>, seen: set<string>)
    ensures FirstJobError(jobs, seen) != Some(Cycle)
  {
    if jobs != [] {
      JobErrorsAreNotCycles(jobs[1..], seen + {jobs[0].id});
    }
  }

  lemma {:induction false} SelfLoop(deps: seq<Dependency>, ids: set<string>) returns (e: Dependency)
    requires FirstEdgeError(deps, ids) == Some(Cycle)
    ensures e in deps && e.from == e.to
  {
    if deps[0].from == deps[0].to {
      e := deps[0];
    } else {
      e := SelfLoop(deps[1..], ids);
    }
  }

  /** Permuting the jobs, and permuting or repeating edges within the limit, changes neither whether a
      graph is accepted nor the order returned. */
  lemma InputOrderIsIrrelevant(a: DagSpec, b: DagSpec)
    requires a.id == b.id && multiset(a.jobs) == multiset(b.jobs)
    requires EdgeSet(a) == EdgeSet(b)
    requires |a.dependencies| <= MAX_DEPENDENCIES_PER_DAG && |b.dependencies| <= MAX_DEPENDENCIES_PER_DAG
    ensures Validation(a).Ok? <==> Validation(b).Ok?
    ensures StaticError(a) == None <==> StaticError(b) == None
    ensures StaticError(a) == None ==> Validation(a) == Validation(b)
  {
    SameJobs(a.jobs, b.jobs);
    assert JobIds(a) == JobIds(b);
    SameEdges(a, b);
    StaticErrorIff(a);
    StaticErrorIff(b);
  }

  lemma SameEdges(a: DagSpec, b: DagSpec)
    requires EdgeSet(a) == EdgeSet(b)
    ensures forall e :: e in a.dependencies <==> e in b.dependencies
  {
    forall e ensures e in a.dependencies <==> e in b.dependencies {
      assert e in a.dependencies <==> e in EdgeSet(a);
      assert e in b.dependencies <==> e in EdgeSet(b);
    }
  }

  lemma SameJobs(a: seq<JobSpec>, b: seq<JobSpec>)
    requires multiset(a) == multiset(b)
    ensures forall job :: job in a <==> job in b
    ensures |a| == |b|
    ensures DistinctIds(a) <==> DistinctIds(b)
  {
    forall job ensures job in a <==> job in b {
      assert job in a <==> job in multiset(a);
      assert job in b <==> job in multiset(b);
    }
    assert |a| == |multiset(a)| && |b| == |multiset(b)|;
    if DistinctIds(a) { DistinctCarriesOver(a, b); }
    if DistinctIds(b) { DistinctCarriesOver(b, a); }
  }

  lemma DistinctCarriesOver(a: seq<JobSpec>, b: seq<JobSpec>)
    requires multiset(a) == multiset(b) && DistinctIds(a)
    ensures DistinctIds(b)
  {
    forall i, j | 0 <= i < j < |b| ensures b[i].id != b[j].id {
      assert b[i] in multiset(a) && b[j] in multiset(a);
      var k :| 0 <= k < |a| && a[k] == b[i];
      var l :| 0 <= l < |a| && a[l] == b[j];
      if b[i].id == b[j].id {
        assert k == l;
        TwoOccurrences(b, i, j);
        CountOfDistinct(a, b[i]);
      }
    }
  }

  // ----- The program -----

  /** Checks a submitted graph and returns a topological order of its jobs. */
  method Validate(spec: DagSpec) returns (r: Result<seq<string>, ValidationError>)
    ensures r == Validation(spec)
  {
    if !ValidIdentifier(spec.id, MAX_DAG_ID_BYTES) {
      return Err(InvalidIdentifier(spec.id));
    }
    if spec.jobs == [] || |spec.jobs| > MAX_JOBS_PER_DAG {
      return Err(InvalidJobCount);
    }
    if |spec.dependencies| > MAX_DEPENDENCIES_PER_DAG {
      return Err(InvalidDependencyCount);
    }
    var scanned, indegree := ScanJobs(spec);
    if scanned.Some? {
      return Err(scanned.value);
    }
    var outgoing;
    scanned, indegree, outgoing := ScanEdges(spec, indegree);
    if scanned.Some? {
      return Err(scanned.value);
    }
    StaticErrorIff(spec);
    var order := Drain(spec, indegree, outgoing);
    EndpointsOfWellFormed(spec);
    KahnComplete(JobIds(spec), EdgeSet(spec), order);
    DistinctIdCount(spec.jobs);
    if |order| != |spec.jobs| {
      return Err(Cycle);
    }
    return Ok(order);
  }

  /** The loop over the jobs: per-job checks, and an indegree of zero for every new id. */
  method ScanJobs(spec: DagSpec) returns (error: Option<ValidationError>, indegree: map<string, nat>)
    ensures error == FirstJobError(spec.jobs, {})
    ensures error == None ==> indegree.Keys == JobIds(spec) && forall id :: id in indegree ==> indegree[id] == 0
  {
    hide FirstJobError, JobError;
    indegree := map[];
    assert spec.jobs[0..] == spec.jobs && indegree.Keys == {};
    for i := 0 to |spec.jobs|
      invariant indegree.Keys == set job | job in spec.jobs[..i] :: job.id
      invariant forall id :: id in indegree ==> indegree[id] == 0
      invariant FirstJobError(spec.jobs, {}) == FirstJobError(spec.jobs[i..], indegree.Keys)
    {
      var job := spec.jobs[i];
      FirstErrorAt(spec.jobs, i, indegree.Keys);
      assert spec.jobs[..i + 1] == spec.jobs[..i] + [job];
      if JobError(job).Some? {
        return JobError(job), indegree;
      }
      if job.id in indegree {
        return Some(DuplicateJob(job.id)), indegree;
      }
      assert indegree[job.id := 0].Keys == indegree.Keys + {job.id};
      indegree := indegree[job.id := 0];
    }
    assert spec.jobs[..|spec.jobs|] == spec.jobs;
    assert spec.jobs[|spec.jobs|..] == [];
    NoErrorLeft(indegree.Keys);
    error := None;
  }

  lemma FirstErrorAt(jobs: seq<JobSpec>, i: nat, seen: set<string>)
    requires i < |jobs|
    ensures FirstJobError(jobs[i..], seen) ==
            if JobError(jobs[i]).Some? then JobError(jobs[i])
            else if jobs[i].id in seen then Some(DuplicateJob(jobs[i].id))
            else FirstJobError(jobs[i + 1..], seen + {jobs[i].id})
  {
    hide JobError;
    assert jobs[i..][1..] == jobs[i + 1..];
  }

  lemma NoErrorLeft(seen: set<string>)
    ensures FirstJobError([], seen) == None
  {
  }

  /** What the adjacency lists hold after the edges `deps`. */
  ghost predicate IsAdjacency(outgoing: map<string, seq<string>>, deps: seq<Dependency>) {
    forall p :: Children(deps, p) == if p in outgoing then outgoing[p] else []
  }

  lemma AdjacencyNone()
    ensures IsAdjacency(map[], [])
  {
  }

  lemma ListOf(outgoing: map<string, seq<string>>, deps: seq<Dependency>, p: string)
    requires IsAdjacency(outgoing, deps)
    ensures Children(deps, p) == if p in outgoing then outgoing[p] else []
  {
  }

  lemma AdjacencyStep(outgoing: map<string, seq<string>>, deps: seq<Dependency>, edge: Dependency)
    requires IsAdjacency(outgoing, deps)
    ensures IsAdjacency(
              outgoing[edge.from := (if edge.from in outgoing then outgoing[edge.from] else []) + [edge.to]],
              deps + [edge])
  {
    forall p ensures Children(deps + [edge], p) == Children(deps, p) + if p == edge.from then [edge.to] else [] {
      ChildrenAppend(deps, [edge], p);
    }
  }

  /** The loop over the edges: endpoint checks, indegrees and adjacency lists. */
  method ScanEdges(spec: DagSpec, zeros: map<string, nat>)
    returns (error: Option<ValidationError>, indegree: map<string, nat>, outgoing: map<string, seq<string>>)
    requires zeros.Keys == JobIds(spec) && forall id :: id in zeros ==> zeros[id] == 0
    ensures error == FirstEdgeError(spec.dependencies, JobIds(spec))
    ensures error == None ==>
              && indegree.Keys == JobIds(spec)
              && (forall c :: c in indegree ==> indegree[c] == Unmet(spec.dependencies, {}, c))
              && IsAdjacency(outgoing, spec.dependencies)
  {
    hide Unmet, IsAdjacency, FirstEdgeError, JobIds;
    var deps := spec.dependencies;
    indegree := zeros;
    outgoing := map[];
    assert deps[..0] == [] && deps[0..] == deps;
    UnmetNone({});
    AdjacencyNone();
    for i := 0 to |deps|
      invariant indegree.Keys == JobIds(spec)
      invariant forall c :: c in indegree ==> indegree[c] == Unmet(deps[..i], {}, c)
      invariant IsAdjacency(outgoing, deps[..i])
      invariant FirstEdgeError(deps, JobIds(spec)) == FirstEdgeError(deps[i..], JobIds(spec))
    {
      var edge := deps[i];
      FirstEdgeErrorAt(deps, i, JobIds(spec));
      if edge.from == edge.to {
        return Some(Cycle), indegree, outgoing;
      }
      if edge.from !in indegree {
        return Some(UnknownJob(edge.from)), indegree, outgoing;
      }
      if edge.to !in indegree {
        return Some(UnknownJob(edge.to)), indegree, outgoing;
      }
      UnmetSnoc(deps, i);
      indegree := indegree[edge.to := indegree[edge.to] + 1];
      var before := if edge.from in outgoing then outgoing[edge.from] else [];
      assert deps[..i + 1] == deps[..i] + [edge];
      AdjacencyStep(outgoing, deps[..i], edge);
      outgoing := outgoing[edge.from := before + [edge.to]];
    }
    assert deps[..|deps|] == deps && deps[|deps|..] == [];
    NoEdgeErrorLeft(JobIds(spec));
    error := None;
  }

  lemma FirstEdgeErrorAt(deps: seq<Dependency>, i: nat, ids: set<string>)
    requires i < |deps|
    ensures FirstEdgeError(deps[i..], ids) ==
            if deps[i].from == deps[i].to then Some(Cycle)
            else if deps[i].from !in ids then Some(UnknownJob(deps[i].from))
            else if deps[i].to !in ids then Some(UnknownJob(deps[i].to))
            else FirstEdgeError(deps[i + 1..], ids)
  {
    assert deps[i..][1..] == deps[i + 1..];
  }

  lemma NoEdgeErrorLeft(ids: set<string>)
    ensures FirstEdgeError([], ids) == None
  {
  }

  /** The queue loop. */
  method Drain(spec: DagSpec, degrees: map<string, nat>, outgoing: map<string, seq<string>>)
    returns (order: seq<string>)
    requires WellFormed(spec) && degrees.Keys == JobIds(spec)
    requires forall c :: c in degrees ==> degrees[c] == Unmet(spec.dependencies, {}, c)
    requires IsAdjacency(outgoing, spec.dependencies)
    ensures order == KahnOrder(JobIds(spec), EdgeSet(spec))
  {
    ghost var ids, edges := JobIds(spec), EdgeSet(spec);
    var indegree := degrees;
    var queue := ZeroDegree(spec, indegree);
    order := [];
    assert Elements<string>([]) == {};
    assert forall c :: c in queue <==> c in Elements(queue);
    KahnStart(ids, edges, queue);
    while queue != []
      invariant KahnState(ids, edges, order, queue)
      invariant KahnRun(ids, edges, order, queue) == KahnOrder(ids, edges)
      invariant indegree.Keys == ids
      invariant forall c :: c in indegree ==> indegree[c] == Unmet(spec.dependencies, Elements(order), c)
      decreases |ids| - |order|
    {
      var id := queue[0];
      KahnBounded(ids, edges, order, queue);
      assert id !in Elements(order) by { HeadNotEmitted(order, queue); }
      var children := if id in outgoing then outgoing[id] else [];
      var newlyReady;
      indegree, newlyReady := Release(spec, indegree, Elements(order), id, children);
      KahnStep(ids, edges, order, queue, newlyReady);
      ElementsSnoc(order, id);
      order, queue := order + [id], queue[1..] + newlyReady;
    }
  }

  /** Collects the ids of indegree zero, in whatever order the hash map yields them, and sorts them. */
  method ZeroDegree(spec: DagSpec, indegree: map<string, nat>) returns (queue: seq<string>)
    requires indegree.Keys == JobIds(spec)
    requires forall c :: c in indegree ==> indegree[c] == Unmet(spec.dependencies, {}, c)
    ensures queue == Sorted(Sources(JobIds(spec), EdgeSet(spec)))
  {
    var zero: seq<string> := [];
    var rest := indegree.Keys;
    while rest != {}
      invariant rest <= indegree.Keys
      invariant NoDuplicates(zero)
      invariant forall c :: c in zero <==> c in indegree && c !in rest && indegree[c] == 0
      decreases rest
    {
      var id :| id in rest;
      if indegree[id] == 0 {
        zero := zero + [id];
      }
      rest := rest - {id};
    }
    forall c { UnmetZero(spec.dependencies, {}, c); }
    assert Elements(zero) == Sources(JobIds(spec), EdgeSet(spec));
    SortOfDistinct(zero);
    queue := Sort(zero);
  }

  /** Decrements the children of an emitted node and returns, sorted, those that reached zero. */
  method Release(spec: DagSpec, degrees: map<string, nat>, ghost done: set<string>, id: string, children: seq<string>)
    returns (indegree: map<string, nat>, newlyReady: seq<string>)
    requires WellFormed(spec) && degrees.Keys == JobIds(spec) && id !in done
    requires forall c :: c in degrees ==> degrees[c] == Unmet(spec.dependencies, done, c)
    requires children == Children(spec.dependencies, id)
    ensures indegree.Keys == degrees.Keys
    ensures forall c :: c in indegree ==> indegree[c] == Unmet(spec.dependencies, done + {id}, c)
    ensures newlyReady == Sorted(NewlyReady(JobIds(spec), EdgeSet(spec), done, id))
  {
    ReleaseFacts(spec, done, id);
    indegree, newlyReady := Decrement(degrees, children);
    ReleasedIds(spec, indegree, done, id, newlyReady);
    newlyReady := Sort(newlyReady);
  }

  lemma ReleaseFacts(spec: DagSpec, done: set<string>, id: string)
    requires WellFormed(spec) && id !in done
    ensures forall c :: c in Children(spec.dependencies, id) ==> c in JobIds(spec)
    ensures forall c :: Unmet(spec.dependencies, done, c)
                        == Unmet(spec.dependencies, done + {id}, c) + multiset(Children(spec.dependencies, id))[c]
  {
    forall c | c in Children(spec.dependencies, id) ensures c in JobIds(spec) {
      ChildIffEdge(spec.dependencies, id, c);
      assert Dependency(id, c) in spec.dependencies;
    }
    forall c {
      UnmetAfter(spec.dependencies, done, id, c);
    }
  }

  lemma ReleasedIds(spec: DagSpec, indegree: map<string, nat>, done: set<string>, id: string, reached: seq<string>)
    requires indegree.Keys == JobIds(spec) && NoDuplicates(reached)
    requires forall c :: c in indegree ==> indegree[c] == Unmet(spec.dependencies, done + {id}, c)
    requires forall c :: c in reached <==> c in Children(spec.dependencies, id) && c in indegree && indegree[c] == 0
    ensures Sort(reached) == Sorted(NewlyReady(JobIds(spec), EdgeSet(spec), done, id))
  {
    forall c ensures c in reached <==> c in NewlyReady(JobIds(spec), EdgeSet(spec), done, id) {
      ChildIffEdge(spec.dependencies, id, c);
      UnmetZero(spec.dependencies, done + {id}, c);
    }
    assert Elements(reached) == NewlyReady(JobIds(spec), EdgeSet(spec), done, id);
    SortOfDistinct(reached);
  }

  /** The inner loop: one decrement per edge; a child is collected at the decrement that reaches zero. */
  method Decrement(degrees: map<string, nat>, children: seq<string>)
    returns (indegree: map<string, nat>, reached: seq<string>)
    requires forall c :: c in children ==> c in degrees
    requires forall c :: c in degrees ==> degrees[c] >= multiset(children)[c]
    ensures indegree.Keys == degrees.Keys
    ensures forall c :: c in indegree ==> indegree[c] + multiset(children)[c] == degrees[c]
    ensures NoDuplicates(reached)
    ensures forall c :: c in reached <==> c in children && indegree[c] == 0
  {
    indegree, reached := degrees, [];
    for k := 0 to |children|
      invariant indegree.Keys == degrees.Keys
      invariant forall c :: c in indegree ==> indegree[c] + multiset(children[..k])[c] == degrees[c]
      invariant NoDuplicates(reached)
      invariant forall c :: c in reached <==> c in children[..k] && indegree[c] == 0
    {
      var child := children[k];
      NextChild(degrees, children, k, indegree, reached);
      indegree := indegree[child := indegree[child] - 1];
      if indegree[child] == 0 {
        reached := reached + [child];
      }
    }
    assert children[..|children|] == children;
  }

  /** Decrementing for the next child: no underflow, and it cannot have been reported yet. */
  lemma NextChild(
    degrees: map<string, nat>, children: seq<string>, k: nat, indegree: map<string, nat>, reached: seq<string>)
    requires k < |children| && children[k] in degrees && degrees[children[k]] >= multiset(children)[children[k]]
    requires indegree.Keys == degrees.Keys
    requires forall c :: c in indegree ==> indegree[c] + multiset(children[..k])[c] == degrees[c]
    requires forall c :: c in reached ==> c in indegree && indegree[c] == 0
    ensures indegree[children[k]] > 0 && children[k] !in reached
    ensures forall c :: c in children[..k + 1] <==> c in children[..k] || c == children[k]
    ensures var next := indegree[children[k] := indegree[children[k]] - 1];
            forall c :: c in next ==> next[c] + multiset(children[..k + 1])[c] == degrees[c]
  {
    OneMore(children, k);
    assert children[..k + 1] == children[..k] + [children[k]];
  }
}
