/** Finite directed graphs given by a set of edges: paths, cycles, and the two arguments that connect
    acyclicity to orders and to predecessor-closed sets. */
module Graphs {
  import opened Collections
  import opened Domain

  type Edges = set<Dependency>

  /** A walk along the edges, given by the vertices it visits. */
  ghost predicate IsPath(edges: Edges, path: seq<string>) {
    |path| > 0 && forall i :: 0 <= i < |path| - 1 ==> Dependency(path[i], path[i + 1]) in edges
  }

  /** A walk of at least one edge that returns to its start. */
  ghost predicate IsCycle(edges: Edges, path: seq<string>) {
    |path| > 1 && IsPath(edges, path) && path[0] == path[|path| - 1]
  }

  ghost predicate HasCycle(edges: Edges) {
    exists path :: IsCycle(edges, path)
  }

  /** `ancestor` reaches `node` along zero or more edges. */
  ghost predicate Reaches(edges: Edges, ancestor: string, node: string) {
    exists path :: IsPath(edges, path) && path[0] == ancestor && path[|path| - 1] == node
  }

  lemma ReachesSelf(edges: Edges, node: string)
    ensures Reaches(edges, node, node)
  {
    assert IsPath(edges, [node]);
  }

  lemma PathCons(edges: Edges, parent: string, path: seq<string>)
    requires IsPath(edges, path) && Dependency(parent, path[0]) in edges
    ensures IsPath(edges, [parent] + path)
  {
    var longer := [parent] + path;
    forall i | 0 <= i < |longer| - 1 ensures Dependency(longer[i], longer[i + 1]) in edges {
      if i > 0 {
        assert longer[i] == path[i - 1] && longer[i + 1] == path[i - 1 + 1];
      }
    }
  }

  lemma LoopOfRepeat(edges: Edges, path: seq<string>, i: nat, j: nat)
    requires IsPath(edges, path) && i < j < |path| && path[i] == path[j]
    ensures IsCycle(edges, path[i..j + 1])
  {
    var loop := path[i..j + 1];
    forall k | 0 <= k < |loop| - 1 ensures Dependency(loop[k], loop[k + 1]) in edges {
      assert loop[k] == path[i + k] && loop[k + 1] == path[i + k + 1];
    }
  }

  lemma ReachesBackwards(edges: Edges, parent: string, ancestor: string, node: string)
    requires Dependency(parent, ancestor) in edges && Reaches(edges, ancestor, node)
    ensures Reaches(edges, parent, node)
  {
    var path :| IsPath(edges, path) && path[0] == ancestor && path[|path| - 1] == node;
    var longer := [parent] + path;
    PathCons(edges, parent, path);
    assert longer[0] == parent && longer[|longer| - 1] == node;
  }

  ghost predicate HasPredecessorIn(edges: Edges, nodes: set<string>, node: string) {
    exists p :: p in nodes && Dependency(p, node) in edges
  }

  /** Every member has a predecessor that is also a member. */
  ghost predicate PredecessorClosed(edges: Edges, nodes: set<string>) {
    forall n :: n in nodes ==> HasPredecessorIn(edges, nodes, n)
  }

  /** A non-empty finite set in which everyone has a predecessor contains a cycle. */
  lemma ClosedSetHasCycle(edges: Edges, nodes: set<string>)
    requires nodes != {} && PredecessorClosed(edges, nodes)
    ensures HasCycle(edges)
  {
    var start :| start in nodes;
    var path := WalkBack(edges, nodes, start, |nodes|);
    if NoDuplicates(path) {
      LengthOfDistinct(path);
      SubsetSize(Elements(path), nodes);
      assert false;
    }
    var i, j :| 0 <= i < j < |path| && path[i] == path[j];
    LoopOfRepeat(edges, path, i, j);
  }

  /** In a predecessor-closed set a member has a path of any length leading to it. */
  lemma {:induction false} WalkBack(edges: Edges, nodes: set<string>, start: string, length: nat)
    returns (path: seq<string>)
    requires PredecessorClosed(edges, nodes) && start in nodes
    ensures IsPath(edges, path) && Elements(path) <= nodes && |path| == length + 1
  {
    if length == 0 {
      path := [start];
    } else {
      var shorter := WalkBack(edges, nodes, start, length - 1);
      assert shorter[0] in Elements(shorter);
      assert HasPredecessorIn(edges, nodes, shorter[0]);
      var p :| p in nodes && Dependency(p, shorter[0]) in edges;
      PathCons(edges, p, shorter);
      path := [p] + shorter;
      assert Elements(path) == {p} + Elements(shorter);
    }
  }

  lemma {:induction false} SubsetSize<T>(small: set<T>, big: set<T>)
    requires small <= big
    ensures |small| <= |big|
  {
    if small != {} {
      var x :| x in small;
      SubsetSize(small - {x}, big - {x});
      assert |small| == |small - {x}| + 1 && |big| == |big - {x}| + 1;
    }
  }

  /** `order` lists exactly `nodes`, once each, and every edge points from an earlier to a later place. */
  ghost predicate IsTopologicalOrder(nodes: set<string>, edges: Edges, order: seq<string>) {
    && NoDuplicates(order)
    && Elements(order) == nodes
    && (forall e, i, j ::
          e in edges && 0 <= i < |order| && 0 <= j < |order| && order[i] == e.from && order[j] == e.to ==> i < j)
  }

  ghost predicate EndpointsIn(edges: Edges, nodes: set<string>) {
    forall e :: e in edges ==> e.from in nodes && e.to in nodes
  }

  /** A graph with a topological order has no cycle. */
  lemma OrderExcludesCycle(nodes: set<string>, edges: Edges, order: seq<string>)
    requires EndpointsIn(edges, nodes) && IsTopologicalOrder(nodes, edges, order)
    ensures !HasCycle(edges)
  {
    forall path | IsCycle(edges, path) ensures false {
      var last := Position(nodes, edges, order, path, |path| - 1);
      assert false;
    }
  }

  /** Following a path from its start advances at least one place in the order per edge. */
  lemma {:induction false} Position(nodes: set<string>, edges: Edges, order: seq<string>, path: seq<string>, k: nat)
    returns (place: nat)
    requires EndpointsIn(edges, nodes) && IsTopologicalOrder(nodes, edges, order)
    requires |path| > 1 && IsPath(edges, path) && k < |path|
    ensures place < |order| && order[place] == path[k]
    ensures exists first :: 0 <= first < |order| && order[first] == path[0] && first + k <= place
  {
    if k == 0 {
      assert Dependency(path[0], path[1]) in edges;
      assert path[0] in Elements(order);
      place :| 0 <= place < |order| && order[place] == path[0];
    } else {
      var before := Position(nodes, edges, order, path, k - 1);
      var first :| 0 <= first < |order| && order[first] == path[0] && first + (k - 1) <= before;
      var e := Dependency(path[k - 1], path[k]);
      assert e in edges by { assert path[k] == path[(k - 1) + 1]; }
      assert path[k] in Elements(order);
      place :| 0 <= place < |order| && order[place] == path[k];
      assert order[before] == e.from && order[place] == e.to;
      assert before < place;
      assert first + k <= place;
    }
  }
}
