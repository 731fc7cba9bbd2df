/** Which topological order `validate` returns, and which complaint it makes, said without the algorithm. */
module ValidationOrder {
  import opened Prelude
  import opened Collections
  import opened Domain
  import opened Graphs
  import opened Multigraphs
  import opened V = Validation

  // ----- The order -----

  /** The position of the last parent of `node` in `order`, or -1. */
  ghost function LastParent(edges: Edges, order: seq<string>, node: string): (k: int)
    ensures -1 <= k < |order|
    ensures k >= 0 ==> Dependency(order[k], node) in edges
    ensures forall i :: k < i < |order| ==> Dependency(order[i], node) !in edges
  {
    if order == [] then -1
    else if Dependency(order[|order| - 1], node) in edges then |order| - 1
    else LastParent(edges, order[..|order| - 1], node)
  }

  /** Jobs come in the order in which their last parents do, jobs released together in byte order. */
  ghost predicate InReleaseOrder(edges: Edges, order: seq<string>) {
    forall i, j :: 0 <= i < j < |order| ==>
      var p, q := LastParent(edges, order, order[i]), LastParent(edges, order, order[j]);
      p < q || (p == q && LexLe(order[i], order[j]))
  }

  /** The same for what has been emitted or is queued, parents counted among the emitted. */
  ghost predicate InWaves(edges: Edges, order: seq<string>, all: seq<string>) {
    forall i, j :: 0 <= i < j < |all| ==> Earlier(edges, order, all[i], all[j])
  }

  ghost predicate Earlier(edges: Edges, order: seq<string>, x: string, y: string) {
    var p, q := LastParent(edges, order, x), LastParent(edges, order, y);
    p < q || (p == q && StrLe(x, y))
  }

  lemma LastParentIs(edges: Edges, order: seq<string>, node: string, k: int)
    requires -1 <= k < |order| && (k >= 0 ==> Dependency(order[k], node) in edges)
    requires forall i :: k < i < |order| ==> Dependency(order[i], node) !in edges
    ensures LastParent(edges, order, node) == k
  {
  }

  /** Emitting one more node moves the last parent of its children only. */
  lemma LastParentSnoc(edges: Edges, order: seq<string>, node: string, c: string)
    ensures LastParent(edges, order + [node], c) ==
            if Dependency(node, c) in edges then |order| else LastParent(edges, order, c)
  {
    assert (order + [node])[..|order|] == order;
  }

  lemma WavesStep(
    ids: set<string>, edges: Edges, order: seq<string>, queue: seq<string>, batch: seq<string>)
    requires KahnState(ids, edges, order, queue) && queue != [] && InWaves(edges, order, order + queue)
    requires Ordered(batch) && Elements(batch) == NewlyReady(ids, edges, Elements(order), queue[0])
    ensures InWaves(edges, order + [queue[0]], (order + [queue[0]]) + (queue[1..] + batch))
  {
    var node := queue[0];
    var all := order + queue;
    HeadNotEmitted(order, queue);
    forall c | c in all ensures LastParent(edges, order + [node], c) == LastParent(edges, order, c) {
      LastParentSnoc(edges, order, node, c);
      assert ParentsIn(edges, Elements(order), c);
    }
    forall c | c in batch ensures LastParent(edges, order + [node], c) == |order| {
      LastParentSnoc(edges, order, node, c);
      assert c in Elements(batch);
    }
    assert (order + [node]) + (queue[1..] + batch) == all + batch by {
      assert queue == [node] + queue[1..];
    }
    hide KahnState, LastParent;
    JoinWaves(edges, order, order + [node], all, batch);
  }

  lemma JoinWaves(edges: Edges, order: seq<string>, order': seq<string>, all: seq<string>, batch: seq<string>)
    requires InWaves(edges, order, all) && Ordered(batch)
    requires forall c :: c in all ==> LastParent(edges, order', c) == LastParent(edges, order, c)
    requires forall c :: c in batch ==> LastParent(edges, order', c) == |order|
    ensures InWaves(edges, order', all + batch)
  {
    var both := all + batch;
    forall x, y | x in all && y in all ensures Earlier(edges, order, x, y) ==> Earlier(edges, order', x, y) {
    }
    forall x, y | x in all && y in batch ensures Earlier(edges, order', x, y) {
      assert LastParent(edges, order, x) < |order|;
    }
    forall x, y | x in batch && y in batch ensures StrLe(x, y) ==> Earlier(edges, order', x, y) {
    }
    hide Earlier, StrLe;
    forall i, j | 0 <= i < j < |both| ensures Earlier(edges, order', both[i], both[j]) {
      if j < |all| {
        assert both[i] == all[i] && both[j] == all[j];
      } else if i < |all| {
        assert both[i] == all[i] && both[j] == batch[j - |all|];
      } else {
        assert both[i] == batch[i - |all|] && both[j] == batch[j - |all|];
      }
    }
  }

  lemma {:induction false} RunInWaves(ids: set<string>, edges: Edges, order: seq<string>, queue: seq<string>)
    requires KahnState(ids, edges, order, queue) && InWaves(edges, order, order + queue)
    ensures InWaves(edges, KahnRun(ids, edges, order, queue), KahnRun(ids, edges, order, queue))
    decreases |ids| - |order|
  {
    if queue == [] {
      assert order + queue == order;
    } else {
      var batch := Sorted(NewlyReady(ids, edges, Elements(order), queue[0]));
      KahnStep(ids, edges, order, queue, batch);
      KahnBounded(ids, edges, order, queue);
      WavesStep(ids, edges, order, queue, batch);
      RunInWaves(ids, edges, order + [queue[0]], queue[1..] + batch);
    }
  }

  lemma KahnInReleaseOrder(ids: set<string>, edges: Edges)
    ensures InReleaseOrder(edges, KahnOrder(ids, edges))
  {
    var queue := Sorted(Sources(ids, edges));
    assert forall c :: c in queue <==> c in Elements(queue);
    KahnStart(ids, edges, queue);
    assert [] + queue == queue;
    RunInWaves(ids, edges, [], queue);
    hide KahnRun, LastParent, StrLe, LexLe;
    var order := KahnOrder(ids, edges);
    forall i, j | 0 <= i < j < |order| {
      StrLeIsLex(order[i], order[j]);
    }
  }

  // ----- Only one list is in this order -----

  /** In a topological order all parents of the node at `k` come before `k`. */
  lemma ParentsBefore(nodes: set<string>, edges: Edges, order: seq<string>, k: nat, e: Dependency) returns (i: nat)
    requires IsTopologicalOrder(nodes, edges, order) && EndpointsIn(edges, nodes)
    requires k < |order| && e in edges && e.to == order[k]
    ensures i < k && order[i] == e.from
  {
    assert e.from in Elements(order);
    i :| 0 <= i < |order| && order[i] == e.from;
  }

  lemma SamePrefix(a: seq<string>, b: seq<string>, k: nat)
    requires k <= |a| && k <= |b| && a[..k] == b[..k]
    ensures forall i :: 0 <= i < k ==> a[i] == b[i]
  {
    forall i | 0 <= i < k ensures a[i] == b[i] {
      assert a[..k][i] == b[..k][i];
    }
  }

  /** The last parent of a node all of whose parents lie in a common prefix is the same in both lists. */
  lemma SameLastParent(edges: Edges, a: seq<string>, b: seq<string>, k: nat, node: string)
    requires k <= |a| && k <= |b| && a[..k] == b[..k]
    requires forall i :: k <= i < |a| ==> Dependency(a[i], node) !in edges
    requires forall i :: k <= i < |b| ==> Dependency(b[i], node) !in edges
    ensures LastParent(edges, a, node) == LastParent(edges, b, node)
  {
    var p := LastParent(edges, a, node);
    SamePrefix(a, b, k);
    LastParentIs(edges, b, node, p);
  }

  lemma NoLaterParent(nodes: set<string>, edges: Edges, a: seq<string>, b: seq<string>, k: nat, node: string)
    requires IsTopologicalOrder(nodes, edges, a) && EndpointsIn(edges, nodes) && k < |a| && a[k] == node
    requires IsTopologicalOrder(nodes, edges, b) && k <= |b| && a[..k] == b[..k]
    ensures forall i :: k <= i < |a| ==> Dependency(a[i], node) !in edges
    ensures forall i :: k <= i < |b| ==> Dependency(b[i], node) !in edges
  {
    SamePrefix(a, b, k);
    forall i | k <= i < |b| ensures Dependency(b[i], node) !in edges {
      if Dependency(b[i], node) in edges {
        var j := ParentsBefore(nodes, edges, a, k, Dependency(b[i], node));
      }
    }
  }

  lemma NextIsSame(nodes: set<string>, edges: Edges, a: seq<string>, b: seq<string>, k: nat)
    requires EndpointsIn(edges, nodes) && k < |a| && k < |b| && a[..k] == b[..k]
    requires IsTopologicalOrder(nodes, edges, a) && InReleaseOrder(edges, a)
    requires IsTopologicalOrder(nodes, edges, b) && InReleaseOrder(edges, b)
    ensures a[k] == b[k]
  {
    if a[k] != b[k] {
      var x, y := a[k], b[k];
      NoLaterParent(nodes, edges, a, b, k, x);
      NoLaterParent(nodes, edges, b, a, k, y);
      SameLastParent(edges, a, b, k, x);
      SameLastParent(edges, a, b, k, y);
      var i := LaterAt(nodes, edges, a, b, k);
      var j := LaterAt(nodes, edges, b, a, k);
      hide LastParent, IsTopologicalOrder, LexLe;
      assert LastParent(edges, a, x) <= LastParent(edges, a, y);
      assert LastParent(edges, b, y) <= LastParent(edges, b, x);
      StrLeIsLex(x, y);
      StrLeIsLex(y, x);
      StrLeAntisymmetric(x, y);
    }
  }

  /** The node that `b` puts at `k` comes later in `a`. */
  lemma LaterAt(nodes: set<string>, edges: Edges, a: seq<string>, b: seq<string>, k: nat) returns (i: nat)
    requires IsTopologicalOrder(nodes, edges, a) && IsTopologicalOrder(nodes, edges, b)
    requires k < |a| && k < |b| && a[..k] == b[..k] && a[k] != b[k]
    ensures k < i < |a| && a[i] == b[k]
  {
    SamePrefix(a, b, k);
    assert b[k] in Elements(a);
    i :| 0 <= i < |a| && a[i] == b[k];
  }

  lemma OrderLength(nodes: set<string>, edges: Edges, order: seq<string>)
    requires IsTopologicalOrder(nodes, edges, order)
    ensures |order| == |nodes|
  {
    LengthOfDistinct(order);
  }

  lemma OnlyOneOrder(nodes: set<string>, edges: Edges, a: seq<string>, b: seq<string>)
    requires EndpointsIn(edges, nodes)
    requires IsTopologicalOrder(nodes, edges, a) && InReleaseOrder(edges, a)
    requires IsTopologicalOrder(nodes, edges, b) && InReleaseOrder(edges, b)
    ensures a == b
  {
    hide InReleaseOrder, IsTopologicalOrder, EndpointsIn;
    OrderLength(nodes, edges, a);
    OrderLength(nodes, edges, b);
    for k := 0 to |a|
      invariant a[..k] == b[..k]
    {
      NextIsSame(nodes, edges, a, b, k);
      assert a[..k + 1] == a[..k] + [a[k]] && b[..k + 1] == b[..k] + [b[k]];
    }
    assert a[..|a|] == a && b[..|b|] == b;
  }

  /** The returned list is the one topological order in which jobs follow their last parents. */
  lemma ReturnedOrderIff(spec: DagSpec, order: seq<string>)
    requires V.Validation(spec).Ok?
    ensures V.Validation(spec) == Ok(order) <==>
            IsTopologicalOrder(JobIds(spec), EdgeSet(spec), order) && InReleaseOrder(EdgeSet(spec), order)
  {
    hide InReleaseOrder, WellFormed, HasCycle, KahnOrder, IsTopologicalOrder;
    AcceptedIff(spec);
    AcceptedOrder(spec);
    EndpointsOfWellFormed(spec);
    KahnInReleaseOrder(JobIds(spec), EdgeSet(spec));
    if IsTopologicalOrder(JobIds(spec), EdgeSet(spec), order) && InReleaseOrder(EdgeSet(spec), order) {
      OnlyOneOrder(JobIds(spec), EdgeSet(spec), order, V.Validation(spec).value);
    }
  }

  // ----- The complaint -----

  /** The job at `i` breaks a rule of its own or repeats an earlier id. */
  ghost predicate BadJob(jobs: seq<JobSpec>, i: int)
    requires 0 <= i < |jobs|
  {
    JobError(jobs[i]) != None || exists k :: 0 <= k < i && jobs[k].id == jobs[i].id
  }

  lemma {:induction false} FirstBadJob(jobs: seq<JobSpec>, seen: set<string>, i: nat)
    requires i < |jobs|
    requires forall k :: 0 <= k < i ==> JobError(jobs[k]) == None && jobs[k].id !in seen
    requires forall k, l :: 0 <= k < l < i ==> jobs[k].id != jobs[l].id
    requires JobError(jobs[i]) != None || jobs[i].id in seen || exists k :: 0 <= k < i && jobs[k].id == jobs[i].id
    ensures FirstJobError(jobs, seen) ==
            if JobError(jobs[i]) != None then JobError(jobs[i]) else Some(DuplicateJob(jobs[i].id))
    decreases i
  {
    hide JobError;
    if i > 0 {
      var rest := jobs[1..];
      if exists k :: 0 <= k < i && jobs[k].id == jobs[i].id {
        var k :| 0 <= k < i && jobs[k].id == jobs[i].id;
        assert k == 0 || rest[k - 1].id == rest[i - 1].id;
      }
      FirstBadJob(rest, seen + {jobs[0].id}, i - 1);
    }
  }

  lemma {:induction false} FirstBadEdge(deps: seq<Dependency>, ids: set<string>, i: nat)
    requires i < |deps|
    requires forall k :: 0 <= k < i ==> deps[k].from != deps[k].to && deps[k].from in ids && deps[k].to in ids
    requires deps[i].from == deps[i].to || deps[i].from !in ids || deps[i].to !in ids
    ensures FirstEdgeError(deps, ids) ==
            Some(if deps[i].from == deps[i].to then Cycle
                 else if deps[i].from !in ids then UnknownJob(deps[i].from) else UnknownJob(deps[i].to))
    decreases i
  {
    if i > 0 {
      FirstBadEdge(deps[1..], ids, i - 1);
    }
  }

  /** The limits on the graph as a whole come first, in this order. */
  lemma HeaderComplaint(spec: DagSpec)
    ensures !ValidIdentifier(spec.id, 64) ==> V.Validation(spec) == Err(InvalidIdentifier(spec.id))
    ensures ValidIdentifier(spec.id, 64) && !(1 <= |spec.jobs| <= 1_000) ==> V.Validation(spec) == Err(InvalidJobCount)
    ensures ValidIdentifier(spec.id, 64) && 1 <= |spec.jobs| <= 1_000 && |spec.dependencies| > 10_000 ==>
              V.Validation(spec) == Err(InvalidDependencyCount)
  {
    hide ValidIdentifier, HasCycle;
  }

  ghost predicate HeaderOk(spec: DagSpec) {
    ValidIdentifier(spec.id, 64) && 1 <= |spec.jobs| <= 1_000 && |spec.dependencies| <= 10_000
  }

  /** Then the first bad job, with its own complaint before a duplicate. */
  lemma JobComplaint(spec: DagSpec, i: nat)
    requires HeaderOk(spec) && i < |spec.jobs| && BadJob(spec.jobs, i) && forall k :: 0 <= k < i ==> !BadJob(spec.jobs, k)
    ensures var job := spec.jobs[i];
            V.Validation(spec) == Err(
              if !ValidIdentifier(job.id, 64) then InvalidIdentifier(job.id)
              else if |job.payload| > 4_096 then PayloadTooLarge
              else if job.kind == Delay && !ValidDelay(job.payload) then InvalidDelay
              else if !(1 <= job.maxAttempts <= 20 && -100 <= job.priority <= 100) then InvalidPolicy
              else DuplicateJob(job.id))
  {
    forall k, l | 0 <= k < l < i ensures spec.jobs[k].id != spec.jobs[l].id {
      assert !BadJob(spec.jobs, l);
    }
    forall k | 0 <= k < i ensures JobError(spec.jobs[k]) == None {
      assert !BadJob(spec.jobs, k);
    }
    FirstBadJob(spec.jobs, {}, i);
    hide ValidIdentifier, HasCycle, FirstJobError, ValidDelay;
  }

  /** Then the first bad edge; a cycle is the last complaint. */
  lemma EdgeComplaint(spec: DagSpec, i: nat)
    requires HeaderOk(spec) && (forall k :: 0 <= k < |spec.jobs| ==> !BadJob(spec.jobs, k)) && i < |spec.dependencies|
    requires var ids, e := V.JobIds(spec), spec.dependencies[i]; e.from == e.to || e.from !in ids || e.to !in ids
    requires forall k :: 0 <= k < i ==>
               var ids, e := V.JobIds(spec), spec.dependencies[k]; e.from != e.to && e.from in ids && e.to in ids
    ensures var e := spec.dependencies[i];
            V.Validation(spec) == Err(
              if e.from == e.to then Cycle else if e.from !in V.JobIds(spec) then UnknownJob(e.from) else UnknownJob(e.to))
  {
    hide ValidIdentifier, HasCycle, JobError;
    NoBadJob(spec.jobs);
    FirstBadEdge(spec.dependencies, V.JobIds(spec), i);
    hide FirstJobError, FirstEdgeError;
  }

  lemma NoBadJob(jobs: seq<JobSpec>)
    requires forall k :: 0 <= k < |jobs| ==> !BadJob(jobs, k)
    ensures FirstJobError(jobs, {}) == None
  {
    hide JobError, FirstJobError;
    forall k, l | 0 <= k < l < |jobs| ensures jobs[k].id != jobs[l].id {
      assert !BadJob(jobs, l);
    }
    forall job | job in jobs ensures JobError(job) == None {
      var k :| 0 <= k < |jobs| && jobs[k] == job;
      assert !BadJob(jobs, k);
    }
    NoJobErrorIff(jobs, {});
  }

  lemma CycleComplaint(spec: DagSpec)
    requires V.WellFormed(spec) && HasCycle(V.EdgeSet(spec))
    ensures V.Validation(spec) == Err(Cycle)
  {
    hide HasCycle, V.WellFormed;
    StaticErrorIff(spec);
  }
}
