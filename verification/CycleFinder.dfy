/**
 * The depth-first search for a dependency cycle: visited, active and stack updated in place, over a
 * graph whose edges may name nodes that are not in it.
 */
module CycleFinder {
  import opened Collections

  type Id = string
  type Graph = map<Id, seq<Id>>

  function Next(graph: Graph, id: Id): seq<Id> {
    if id in graph then graph[id] else []
  }

  predicate Edge(graph: Graph, a: Id, b: Id) {
    b in Next(graph, a)
  }

  predicate EdgeAt(graph: Graph, path: seq<Id>, i: nat) {
    i + 1 < |path| ==> Edge(graph, path[i], path[i + 1])
  }

  predicate Walk(graph: Graph, path: seq<Id>) {
    forall i: nat :: i < |path| ==> EdgeAt(graph, path, i)
  }

  /** A real cycle: at least one edge, and back where it began. */
  predicate ClosedWalk(graph: Graph, path: seq<Id>) {
    |path| >= 2 && path[0] == path[|path| - 1] && Walk(graph, path)
  }

  predicate NoRepeats(path: seq<Id>) {
    forall i, j :: 0 <= i < j < |path| ==> path[i] != path[j]
  }

  /** And no node is passed twice on the way round. */
  predicate SimpleCycle(graph: Graph, path: seq<Id>) {
    ClosedWalk(graph, path) && forall i, j :: 0 <= i < j < |path| - 1 ==> path[i] != path[j]
  }

  ghost predicate Acyclic(graph: Graph) {
    forall path :: !ClosedWalk(graph, path)
  }

  // ----- what a finishing order proves ---------------------------------------------------------

  /** Every edge out of the order leads to an earlier place in it. */
  ghost predicate Topological(graph: Graph, order: seq<Id>) {
    order == [] ||
    var last := |order| - 1;
    Topological(graph, order[..last]) && forall b :: Edge(graph, order[last], b) ==> b in order[..last]
  }

  lemma {:induction false} EdgesLeadEarlier(graph: Graph, order: seq<Id>, at: nat, b: Id) returns (earlier: nat)
    requires Topological(graph, order) && at < |order| && Edge(graph, order[at], b)
    ensures earlier < at && order[earlier] == b
  {
    var last := |order| - 1;
    if at < last {
      earlier := EdgesLeadEarlier(graph, order[..last], at, b);
    } else {
      earlier :| earlier < last && order[..last][earlier] == b;
    }
  }

  /** Walking from a place in the order only ever goes further down it. */
  lemma {:induction false} WalksDescend(graph: Graph, order: seq<Id>, path: seq<Id>, at: nat) returns (end: nat)
    requires Topological(graph, order) && Walk(graph, path) && path != []
    requires at < |order| && order[at] == path[0]
    ensures end < |order| && order[end] == path[|path| - 1] && end + |path| <= at + 1
    decreases |path|
  {
    if |path| == 1 {
      end := at;
    } else {
      assert EdgeAt(graph, path, 0);
      var next := EdgesLeadEarlier(graph, order, at, path[1]);
      var rest := path[1..];
      forall i: nat | i < |rest| ensures EdgeAt(graph, rest, i) {
        assert EdgeAt(graph, path, i + 1);
      }
      end := WalksDescend(graph, order, rest, next);
    }
  }

  /** A cycle through a place in the order would pass again through an earlier place, and so on below. */
  lemma {:induction false} NoCycleThrough(graph: Graph, order: seq<Id>, path: seq<Id>, at: nat)
    requires Topological(graph, order) && path != [] && at < |order| && order[at] == path[0]
    ensures !ClosedWalk(graph, path)
    decreases at
  {
    if ClosedWalk(graph, path) {
      var end := WalksDescend(graph, order, path, at);
      NoCycleThrough(graph, order, path, end);
    }
  }

  lemma OrderedGraphsAreAcyclic(graph: Graph, order: seq<Id>)
    requires Topological(graph, order) && forall id :: id in graph ==> id in order
    ensures Acyclic(graph)
  {
    forall path ensures !ClosedWalk(graph, path) {
      if path != [] && path[0] in graph {
        var at: nat :| at < |order| && order[at] == path[0];
        NoCycleThrough(graph, order, path, at);
      } else if |path| >= 2 {
        assert !EdgeAt(graph, path, 0);
      }
    }
  }

  // ----- the search ----------------------------------------------------------------------------

  ghost function Reached(graph: Graph): set<Id> {
    graph.Keys + set a, b | a in graph && b in graph[a] :: b
  }

  lemma DependenciesAreReached(graph: Graph, id: Id, i: nat)
    requires i < |Next(graph, id)|
    ensures Next(graph, id)[i] in Reached(graph) && Edge(graph, id, Next(graph, id)[i])
  {
    assert Next(graph, id)[i] in graph[id];
  }

  predicate AllLeft(ids: seq<Id>, finished: seq<Id>) {
    forall id :: id in ids ==> id in finished
  }

  lemma OneMoreLeft(ids: seq<Id>, i: nat, before: seq<Id>, after: seq<Id>)
    requires i < |ids| && AllLeft(ids[..i], before) && before <= after && ids[i] in after
    ensures AllLeft(ids[..i + 1], after)
  {
    NextPrefix(ids, i);
  }

  lemma NextWay(graph: Graph, finished: seq<Id>, id: Id, i: nat)
    requires i < |Next(graph, id)| && AllLeft(Next(graph, id)[..i], finished)
    ensures FirstWay(graph, finished, id, Next(graph, id)[i])
  {
    forall q | 0 <= q < i ensures Next(graph, id)[q] in finished {
      assert Next(graph, id)[q] in Next(graph, id)[..i];
    }
    assert WayIs(graph, finished, id, Next(graph, id)[i], i);
  }

  lemma FewerLeft(all: set<Id>, before: set<Id>, after: set<Id>, id: Id)
    requires before <= after && id in all && id !in before && id in after
    ensures |all - after| < |all - before|
  {
    assert all - after <= all - before - {id};
    Subsets(all - after, all - before - {id});
  }

  /** The step from `a` to `b` is the first out of `a`, in the order listed, to a node not left behind before. */
  ghost predicate FirstWay(graph: Graph, finished: seq<Id>, a: Id, b: Id) {
    exists p: nat :: WayIs(graph, finished, a, b, p)
  }

  ghost predicate WayIs(graph: Graph, finished: seq<Id>, a: Id, b: Id, p: nat) {
    p < |Next(graph, a)| && Next(graph, a)[p] == b && forall q :: 0 <= q < p ==> Next(graph, a)[q] in finished
  }

  ghost predicate FirstWayAt(graph: Graph, finished: seq<Id>, stack: seq<Id>, i: nat) {
    i + 1 < |stack| ==> FirstWay(graph, finished, stack[i], stack[i + 1])
  }

  /** At every node of the stack the search took the first way it could. */
  ghost predicate Leftmost(graph: Graph, finished: seq<Id>, stack: seq<Id>) {
    forall i: nat :: i < |stack| ==> FirstWayAt(graph, finished, stack, i)
  }

  /** Everything visited is on the stack, a walk that passes no node twice, or left behind. */
  ghost predicate Consistent(graph: Graph, visited: set<Id>, stack: seq<Id>, active: set<Id>, finished: seq<Id>) {
    && (forall id :: id in active <==> id in stack)
    && Walk(graph, stack) && NoRepeats(stack) && Leftmost(graph, finished, stack)
    && (forall id :: id in visited <==> id in active || id in finished)
    && (forall id :: id in active ==> id !in finished)
    && Topological(graph, finished)
  }

  lemma EnteringIsConsistent(
      graph: Graph, visited: set<Id>, stack: seq<Id>, active: set<Id>, finished: seq<Id>, id: Id)
    requires Consistent(graph, visited, stack, active, finished) && id !in visited
    requires stack != [] ==> FirstWay(graph, finished, stack[|stack| - 1], id)
    ensures Consistent(graph, visited + {id}, stack + [id], active + {id}, finished)
  {
    forall i: nat | i < |stack| + 1
      ensures EdgeAt(graph, stack + [id], i) && FirstWayAt(graph, finished, stack + [id], i)
    {
      assert EdgeAt(graph, stack, i) && FirstWayAt(graph, finished, stack, i);
    }
  }

  /** Leaving more nodes behind never changes which way was first. */
  lemma StaysFirst(graph: Graph, finished: seq<Id>, more: seq<Id>, a: Id, b: Id)
    requires finished <= more && FirstWay(graph, finished, a, b)
    ensures FirstWay(graph, more, a, b)
  {
    var p: nat :| WayIs(graph, finished, a, b, p);
    assert WayIs(graph, more, a, b, p);
  }

  lemma LeavingIsConsistent(
      graph: Graph, visited: set<Id>, stack: seq<Id>, active: set<Id>, finished: seq<Id>, id: Id)
    requires Consistent(graph, visited, stack + [id], active + {id}, finished)
    requires id !in active && forall other :: other in active <==> other in stack
    requires forall b :: Edge(graph, id, b) ==> b in finished
    ensures Consistent(graph, visited, stack, active, finished + [id])
    ensures id in finished + [id] && finished <= finished + [id]
  {
    var entered, order := stack + [id], finished + [id];
    assert entered[|stack|] == id && entered[..|stack|] == stack;
    forall i: nat | i < |stack| ensures EdgeAt(graph, stack, i) && FirstWayAt(graph, order, stack, i) {
      assert EdgeAt(graph, entered, i) && FirstWayAt(graph, finished, entered, i);
      if i + 1 < |stack| {
        StaysFirst(graph, finished, order, stack[i], stack[i + 1]);
      }
    }
    assert order[..|finished|] == finished;
  }

  lemma StackTailClosesACycle(graph: Graph, stack: seq<Id>, start: nat)
    requires Walk(graph, stack) && NoRepeats(stack) && start < |stack|
    requires Edge(graph, stack[|stack| - 1], stack[start])
    ensures SimpleCycle(graph, stack[start..] + [stack[start]])
  {
    var cycle := stack[start..] + [stack[start]];
    forall i: nat | i < |cycle| ensures EdgeAt(graph, cycle, i) {
      assert EdgeAt(graph, stack, start + i);
    }
  }

  /** The cycle is the tail of the stack, closed by the first way on from its last node. */
  ghost predicate Closes(graph: Graph, finished: seq<Id>, stack: seq<Id>, cycle: seq<Id>) {
    && stack != [] && 2 <= |cycle| <= |stack| + 1
    && cycle == stack[|stack| + 1 - |cycle|..] + [cycle[0]]
    && FirstWay(graph, finished, stack[|stack| - 1], cycle[0])
  }

  class Finder {
    const graph: Graph
    var visited: set<Id>
    var stack: seq<Id>
    var active: set<Id>
    /** Nodes left behind, in the order they were left. */
    ghost var finished: seq<Id>

    ghost predicate Valid() reads this {
      Consistent(graph, visited, stack, active, finished)
    }

    constructor (graph: Graph)
      ensures this.graph == graph && Valid() && stack == [] && visited == {} && finished == []
    {
      this.graph := graph;
      visited, stack, active, finished := {}, [], {}, [];
    }

    /** Python's `list.index`: the first place an element occurs. */
    method StackIndex(id: Id) returns (start: nat)
      requires id in stack
      ensures start < |stack| && stack[start] == id && id !in stack[..start]
    {
      start := 0;
      while stack[start] != id
        invariant start < |stack| && id !in stack[..start]
        decreases |stack| - start
      {
        start := start + 1;
      }
    }

    /** Either a cycle through the current stack, or the node and all it leads to are left behind. */
    method Visit(id: Id) returns (cycle: seq<Id>)
      requires Valid() && id in Reached(graph)
      requires |stack| > 0 ==> FirstWay(graph, finished, stack[|stack| - 1], id)
      modifies this
      ensures Valid() && old(visited) <= visited && old(finished) <= finished
      ensures |cycle| > 0 ==>
        && SimpleCycle(graph, cycle) && Closes(graph, finished, stack, cycle)
        && old(stack) <= stack && (stack == old(stack) || old(stack) + [id] <= stack)
      ensures |cycle| == 0 ==> stack == old(stack) && active == old(active) && id in finished
      decreases |Reached(graph) - visited|, 1
    {
      if id in active {
        var start := StackIndex(id);
        StackTailClosesACycle(graph, stack, start);
        return stack[start..] + [id];
      }
      if id in visited {
        return [];
      }
      cycle := Expand(id);
    }

    /** Push an unseen node, follow its dependencies, and pop it when none of them closed a cycle. */
    method Expand(id: Id) returns (cycle: seq<Id>)
      requires Valid() && id in Reached(graph) && id !in visited
      requires |stack| > 0 ==> FirstWay(graph, finished, stack[|stack| - 1], id)
      modifies this
      ensures Valid() && old(visited) <= visited && old(finished) <= finished
      ensures |cycle| > 0 ==>
        SimpleCycle(graph, cycle) && Closes(graph, finished, stack, cycle) && old(stack) + [id] <= stack
      ensures |cycle| == 0 ==> stack == old(stack) && active == old(active) && id in finished
      decreases |Reached(graph) - visited|, 0
    {
      ghost var before, wasActive := stack, active;
      FewerLeft(Reached(graph), visited, visited + {id}, id);
      Push(id);
      cycle := VisitDependencies(id);
      if |cycle| == 0 {
        Pop(id, before, wasActive);
      }
    }

    method Push(id: Id)
      requires Valid() && id !in visited
      requires |stack| > 0 ==> FirstWay(graph, finished, stack[|stack| - 1], id)
      modifies this
      ensures Valid() && id !in old(active) && finished == old(finished)
      ensures visited == old(visited) + {id} && active == old(active) + {id} && stack == old(stack) + [id]
    {
      EnteringIsConsistent(graph, visited, stack, active, finished, id);
      visited, active, stack := visited + {id}, active + {id}, stack + [id];
    }

    method Pop(id: Id, ghost before: seq<Id>, ghost wasActive: set<Id>)
      requires Valid() && stack == before + [id] && active == wasActive + {id}
      requires id !in wasActive && forall other :: other in wasActive <==> other in before
      requires forall b :: Edge(graph, id, b) ==> b in finished
      modifies this
      ensures Valid() && stack == before && active == wasActive
      ensures visited == old(visited) && finished == old(finished) + [id] && id in finished
    {
      LeavingIsConsistent(graph, visited, before, wasActive, finished, id);
      stack, active, finished := stack[..|stack| - 1], active - {id}, finished + [id];
      assert stack == before && active == wasActive;
    }

    /** The loop over one node's dependencies. */
    method VisitDependencies(id: Id) returns (cycle: seq<Id>)
      requires Valid() && |stack| > 0 && stack[|stack| - 1] == id
      modifies this
      ensures Valid() && old(visited) <= visited && old(finished) <= finished
      ensures |cycle| > 0 ==>
        SimpleCycle(graph, cycle) && Closes(graph, finished, stack, cycle) && old(stack) <= stack
      ensures |cycle| == 0 ==>
        stack == old(stack) && active == old(active) && forall b :: Edge(graph, id, b) ==> b in finished
      decreases |Reached(graph) - visited|, 2
    {
      var dependencies := Next(graph, id);
      var i := 0;
      while i < |dependencies|
        invariant 0 <= i <= |dependencies| && Valid() && stack == old(stack) && active == old(active)
        invariant old(visited) <= visited && old(finished) <= finished
        invariant AllLeft(dependencies[..i], finished)
      {
        DependenciesAreReached(graph, id, i);
        NextWay(graph, finished, id, i);
        Subsets(Reached(graph) - visited, Reached(graph) - old(visited));
        ghost var before := finished;
        cycle := Visit(dependencies[i]);
        if |cycle| > 0 {
          return;
        }
        OneMoreLeft(dependencies, i, before, finished);
        i := i + 1;
      }
      WholeSlice(dependencies);
      cycle := [];
    }

    /**
     * The empty list exactly when the graph is acyclic, and otherwise the first cycle the search meets: a
     * closed path without repeats, reached from the first node that leads to one by the first ways on. The
     * nodes left behind lead to none.
     */
    method Find(order: seq<Id>) returns (cycle: seq<Id>)
      requires Valid() && stack == [] && forall id :: id in graph <==> id in order
      modifies this
      ensures cycle == [] <==> Acyclic(graph)
      ensures |cycle| > 0 ==>
        && SimpleCycle(graph, cycle) && Closes(graph, finished, stack, cycle) && Leftmost(graph, finished, stack)
        && Topological(graph, finished)
        && exists r: nat :: r < |order| && stack[0] == order[r] && forall k :: 0 <= k < r ==> order[k] in finished
    {
      var i := 0;
      while i < |order|
        invariant 0 <= i <= |order| && Valid() && stack == []
        invariant forall k :: 0 <= k < i ==> order[k] in finished
      {
        cycle := Visit(order[i]);
        if |cycle| > 0 {
          return;
        }
        i := i + 1;
      }
      OrderedGraphsAreAcyclic(graph, finished);
      cycle := [];
    }
  }

  /** A fresh search over a graph whose nodes come in this order. */
  method FirstCycle(graph: Graph, order: seq<Id>) returns (cycle: seq<Id>)
    requires forall id :: id in graph <==> id in order
    ensures cycle == [] <==> Acyclic(graph)
    ensures |cycle| > 0 ==> SimpleCycle(graph, cycle)
    ensures |cycle| > 0 ==> |cycle| >= 2 && cycle[0] == cycle[|cycle| - 1] && NoRepeats(cycle[1..])
    ensures forall i :: 0 <= i < |cycle| - 1 ==> cycle[i] in graph && cycle[i + 1] in graph[cycle[i]]
  {
    var finder := new Finder(graph);
    cycle := finder.Find(order);
    forall i: nat | i < |cycle| - 1 ensures cycle[i] in graph && cycle[i + 1] in graph[cycle[i]] {
      assert EdgeAt(graph, cycle, i);
    }
  }
}
