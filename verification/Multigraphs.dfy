/** Edge lists with repetitions: adjacency lists, and the counter of edges whose source is not done yet
    that both the validator and the scheduler decrement. */
module Multigraphs {
  import opened Collections
  import opened Domain
  import opened Graphs

  /** The targets of the edges leaving `from`, one per edge, in list order. */
  function Children(deps: seq<Dependency>, from: string): seq<string> {
    if deps == [] then []
    else (if deps[0].from == from then [deps[0].to] else []) + Children(deps[1..], from)
  }

  /** The number of edges into `to` whose source is not in `done`, counting repetitions. */
  ghost function Unmet(deps: seq<Dependency>, done: set<string>, to: string): nat {
    if deps == [] then 0
    else (if deps[0].to == to && deps[0].from !in done then 1 else 0) + Unmet(deps[1..], done, to)
  }

  /** Every edge into `node` comes from `done`. */
  ghost predicate ParentsIn(edges: Edges, done: set<string>, node: string) {
    forall e :: e in edges && e.to == node ==> e.from in done
  }

  lemma {:induction false} ChildrenAppend(deps: seq<Dependency>, more: seq<Dependency>, from: string)
    ensures Children(deps + more, from) == Children(deps, from) + Children(more, from)
  {
    if deps == [] {
      assert deps + more == more;
    } else {
      assert (deps + more)[1..] == deps[1..] + more;
      ChildrenAppend(deps[1..], more, from);
    }
  }

  lemma {:induction false} UnmetAppend(deps: seq<Dependency>, more: seq<Dependency>, done: set<string>, to: string)
    ensures Unmet(deps + more, done, to) == Unmet(deps, done, to) + Unmet(more, done, to)
  {
    if deps == [] {
      assert deps + more == more;
    } else {
      assert (deps + more)[1..] == deps[1..] + more;
      UnmetAppend(deps[1..], more, done, to);
    }
  }

  lemma UnmetNone(done: set<string>)
    ensures forall c :: Unmet([], done, c) == 0
  {
  }

  /** One more edge: the counter of its target grows by one. */
  lemma UnmetSnoc(deps: seq<Dependency>, i: nat)
    requires i < |deps|
    ensures forall c :: Unmet(deps[..i + 1], {}, c) == Unmet(deps[..i], {}, c) + if c == deps[i].to then 1 else 0
  {
    assert deps[..i + 1] == deps[..i] + [deps[i]];
    forall c ensures Unmet(deps[..i + 1], {}, c) == Unmet(deps[..i], {}, c) + if c == deps[i].to then 1 else 0 {
      UnmetAppend(deps[..i], [deps[i]], {}, c);
    }
  }

  lemma {:induction false} ChildIffEdge(deps: seq<Dependency>, from: string, to: string)
    ensures to in Children(deps, from) <==> Dependency(from, to) in Elements(deps)
  {
    if deps != [] {
      ChildIffEdge(deps[1..], from, to);
      assert deps == [deps[0]] + deps[1..];
      assert Dependency(from, to) in Elements(deps) <==>
             deps[0] == Dependency(from, to) || Dependency(from, to) in Elements(deps[1..]);
    }
  }

  /** Finishing `node` lowers the counter of `to` by exactly the number of edges from `node` to `to`. */
  lemma {:induction false} UnmetAfter(deps: seq<Dependency>, done: set<string>, node: string, to: string)
    requires node !in done
    ensures Unmet(deps, done, to) == Unmet(deps, done + {node}, to) + multiset(Children(deps, node))[to]
  {
    if deps != [] {
      UnmetAfter(deps[1..], done, node, to);
    }
  }

  /** The counter is zero exactly when all parents are done. */
  lemma {:induction false} UnmetZero(deps: seq<Dependency>, done: set<string>, to: string)
    ensures Unmet(deps, done, to) == 0 <==> ParentsIn(Elements(deps), done, to)
  {
    if deps == [] {
      assert Elements(deps) == {};
    } else {
      UnmetZero(deps[1..], done, to);
      assert deps == [deps[0]] + deps[1..];
      assert Elements(deps) == {deps[0]} + Elements(deps[1..]);
      if ParentsIn(Elements(deps), done, to) {
        assert forall e :: e in Elements(deps[1..]) ==> e in Elements(deps);
        assert deps[0] in Elements(deps);
      }
    }
  }

  /** A list in which everyone follows all its parents is a topological order. */
  lemma PrecedenceIsTopological(nodes: set<string>, edges: Edges, order: seq<string>)
    requires NoDuplicates(order) && Elements(order) == nodes
    requires forall k :: 0 <= k < |order| ==> ParentsIn(edges, Elements(order[..k]), order[k])
    ensures IsTopologicalOrder(nodes, edges, order)
  {
    forall e, i, j | e in edges && 0 <= i < |order| && 0 <= j < |order| && order[i] == e.from && order[j] == e.to
      ensures i < j
    {
      assert ParentsIn(edges, Elements(order[..j]), order[j]);
      var k :| 0 <= k < j && order[k] == e.from;
      assert order[i] == order[k];
    }
  }
}
