/// Task graphs and their topological order (TaskGraph in engine/core/src/jobs.cpp). A node is its
/// number; names, functions and priorities do not matter here.
module TaskGraphs {
  import opened Options
  import opened OrderedSets

  type NodeId = nat

  /// The successors of each node, in the order their edges were added.
  type Graph = seq<seq<NodeId>>

  predicate Edge(g: Graph, u: NodeId, v: NodeId) {
    u < |g| && v in g[u]
  }

  /// What addNode and addEdge maintain: successors are nodes, none listed twice, no self-edge.
  predicate GraphOk(g: Graph) {
    forall u :: 0 <= u < |g| ==> NoRepeats(g[u]) && u !in g[u] && forall v :: v in g[u] ==> v < |g|
  }

  function Predecessors(g: Graph, v: NodeId): set<NodeId> {
    set u | 0 <= u < |g| && v in g[u]
  }

  // -- Orders and cycles ---------------------------------------------------------------------

  /// No edge leads from a later element, or from the element itself, to an earlier one.
  predicate RespectsEdges(g: Graph, order: seq<NodeId>) {
    forall i, j :: 0 <= i <= j < |order| ==> !Edge(g, order[j], order[i])
  }

  /// Every node exactly once, no node before one it depends on.
  ghost predicate IsTopological(g: Graph, order: seq<NodeId>) {
    NoRepeats(order) && (forall v: NodeId :: v in order <==> v < |g|) && RespectsEdges(g, order)
  }

  predicate StepOfWalk(g: Graph, p: seq<NodeId>, i: nat)
    requires i + 1 < |p|
  {
    Edge(g, p[i], p[i + 1])
  }

  predicate Walk(g: Graph, p: seq<NodeId>) {
    forall i :: 0 <= i < |p| - 1 ==> StepOfWalk(g, p, i)
  }

  predicate IsCycle(g: Graph, p: seq<NodeId>) {
    p != [] && Walk(g, p) && Edge(g, p[|p| - 1], p[0])
  }

  ghost predicate LexLessOrEqual(a: seq<NodeId>, b: seq<NodeId>) {
    a == b || exists i: nat :: FirstDifference(a, b, i) && a[i] < b[i]
  }

  predicate FirstDifference(a: seq<NodeId>, b: seq<NodeId>, i: nat) {
    i < |a| && i < |b| && a[..i] == b[..i] && a[i] != b[i]
  }

  // -- The algorithm on values ---------------------------------------------------------------

  /// The nodes that are not ordered yet and depend on ordered nodes only.
  function Ready(g: Graph, done: seq<NodeId>): set<NodeId> {
    set v | 0 <= v < |g| && v !in done && Waits(g, done, v) == {}
  }

  function Waits(g: Graph, done: seq<NodeId>, v: NodeId): set<NodeId> {
    set u | u in Predecessors(g, v) && u !in done
  }

  /// Kahn's algorithm with a min-heap: append the least ready node until none is ready.
  function Kahn(g: Graph, done: seq<NodeId>): (order: seq<NodeId>)
    decreases |Left(g, done)|
  {
    if Ready(g, done) == {} then done
    else
      var v := Least(Ready(g, done));
      LeftShrinks(g, done, v);
      Kahn(g, done + [v])
  }

  function Left(g: Graph, done: seq<NodeId>): set<NodeId> {
    set v | 0 <= v < |g| && v !in done
  }

  lemma LeftShrinks(g: Graph, done: seq<NodeId>, v: NodeId)
    requires v in Left(g, done)
    ensures |Left(g, done + [v])| < |Left(g, done)|
  {
    assert Left(g, done + [v]) == Left(g, done) - {v};
  }

  /// A beginning of an order: what each element depends on comes before it.
  predicate IsPrefix(g: Graph, done: seq<NodeId>) {
    NoRepeats(done) && RespectsEdges(g, done) && (forall v :: v in done ==> v < |g|)
    && forall v :: v in done ==> Waits(g, done, v) == {}
  }

  lemma PrefixGrows(g: Graph, done: seq<NodeId>, v: NodeId)
    requires GraphOk(g) && IsPrefix(g, done) && v in Ready(g, done)
    ensures IsPrefix(g, done + [v])
  {
    var more := done + [v];
    assert Waits(g, done, v) == {};
    forall i, j | 0 <= i <= j < |more| ensures !Edge(g, more[j], more[i]) {
      if j == |done| && i < j {
        assert more[i] in done && v !in Waits(g, done, more[i]);
      }
    }
    forall x | x in more ensures Waits(g, more, x) == {} {
      assert Waits(g, more, x) <= Waits(g, done, x);
    }
  }

  /// The result is a prefix that extends what was done and cannot be extended further.
  lemma {:induction false} KahnStops(g: Graph, done: seq<NodeId>)
    requires GraphOk(g) && IsPrefix(g, done)
    ensures var order := Kahn(g, done);
            IsPrefix(g, order) && Ready(g, order) == {} && done <= order
    decreases |Left(g, done)|
  {
    if Ready(g, done) != {} {
      var v := Least(Ready(g, done));
      PrefixGrows(g, done, v);
      LeftShrinks(g, done, v);
      KahnStops(g, done + [v]);
    }
  }

  lemma EdgesGoForward(g: Graph, order: seq<NodeId>, i: nat, j: nat)
    requires RespectsEdges(g, order) && i < |order| && j < |order| && Edge(g, order[i], order[j])
    ensures i < j
  {
  }

  /// A node of a topological order is ready when exactly the nodes before it are done.
  lemma NextIsReady(g: Graph, order: seq<NodeId>, i: nat)
    requires GraphOk(g) && IsTopological(g, order) && i < |order|
    ensures order[i] in Ready(g, order[..i])
  {
    var v := order[i];
    assert v in order;
    forall u | u in Predecessors(g, v) ensures u in order[..i] {
      assert u in order;
      var j :| 0 <= j < |order| && order[j] == u;
      EdgesGoForward(g, order, j, i);
      assert order[..i][j] == u;
    }
    assert Waits(g, order[..i], v) == {};
    assert forall j :: 0 <= j < i ==> order[..i][j] != v;
  }

  /// Kahn's order is no later, lexicographically, than any topological order that starts alike.
  lemma {:induction false} KahnIsLeast(g: Graph, done: seq<NodeId>, other: seq<NodeId>)
    requires GraphOk(g) && IsPrefix(g, done) && IsTopological(g, other) && done <= other
    ensures LexLessOrEqual(Kahn(g, done), other)
    decreases |Left(g, done)|
  {
    var order := Kahn(g, done);
    KahnStops(g, done);
    if |done| == |other| {
      assert done == other;
      assert forall v :: 0 <= v < |g| ==> v in other;
      assert Ready(g, done) == {};
    } else {
      var i := |done|;
      NextIsReady(g, other, i);
      assert other[..i] == done;
      var v := Least(Ready(g, done));
      PrefixGrows(g, done, v);
      LeftShrinks(g, done, v);
      if v == other[i] {
        assert other[..i + 1] == done + [v];
        KahnIsLeast(g, done + [v], other);
      } else {
        KahnStops(g, done + [v]);
        assert order[..i] == done && order[i] == v;
        assert FirstDifference(order, other, i);
      }
    }
  }

  // -- Cycles --------------------------------------------------------------------------------

  ghost predicate DependsOn(g: Graph, stuck: set<NodeId>, v: NodeId) {
    exists u :: u in stuck && Edge(g, u, v)
  }

  /// Each of the nodes depends on one of them.
  ghost predicate AllDepend(g: Graph, stuck: set<NodeId>) {
    forall v {:trigger DependsOn(g, stuck, v)} :: v in stuck ==> DependsOn(g, stuck, v)
  }

  lemma {:induction false} WalkBack(g: Graph, stuck: set<NodeId>, n: nat) returns (p: seq<NodeId>)
    requires stuck != {} && AllDepend(g, stuck)
    ensures |p| == n + 1 && Walk(g, p) && forall i :: 0 <= i < |p| ==> p[i] in stuck
  {
    if n == 0 {
      var v :| v in stuck;
      p := [v];
    } else {
      var q := WalkBack(g, stuck, n - 1);
      assert DependsOn(g, stuck, q[0]);
      var u :| u in stuck && Edge(g, u, q[0]);
      p := [u] + q;
      forall i | 0 <= i < |p| - 1 ensures StepOfWalk(g, p, i) {
        if i > 0 { assert StepOfWalk(g, q, i - 1); }
      }
    }
  }

  lemma {:induction false} Repeats(p: seq<NodeId>, s: set<NodeId>)
    requires |p| > |s| && forall i :: 0 <= i < |p| ==> p[i] in s
    ensures !NoRepeats(p)
  {
    var elements := Elements(p);
    SubsetIsSmaller(elements, s);
    if NoRepeats(p) {
      Distinct(p);
    }
  }

  /// Nodes that each depend on one of them contain a cycle.
  lemma StuckHaveCycle(g: Graph, stuck: set<NodeId>) returns (c: seq<NodeId>)
    requires stuck != {} && AllDepend(g, stuck)
    ensures IsCycle(g, c) && forall i :: 0 <= i < |c| ==> c[i] in stuck
  {
    var p := WalkBack(g, stuck, |stuck|);
    Repeats(p, stuck);
    var i, j :| 0 <= i < j < |p| && p[i] == p[j];
    c := p[i..j];
    forall k | 0 <= k < |c| - 1 ensures StepOfWalk(g, c, k) {
      assert StepOfWalk(g, p, i + k);
    }
    assert StepOfWalk(g, p, j - 1);
  }

  /// Along a cycle the positions in a topological order would only grow.
  lemma {:induction false} CycleAdvances(g: Graph, c: seq<NodeId>, order: seq<NodeId>, k: nat)
      returns (first: nat, last: nat)
    requires GraphOk(g) && IsCycle(g, c) && IsTopological(g, order) && k < |c|
    ensures first <= last < |order| && order[first] == c[0] && order[last] == c[k]
  {
    var next := if k + 1 < |c| then c[k + 1] else c[0];
    assert k + 1 < |c| ==> StepOfWalk(g, c, k);
    assert Edge(g, c[k], next);
    assert c[k] in order;
    if k == 0 {
      first :| 0 <= first < |order| && order[first] == c[0];
      last := first;
    } else {
      var before: nat;
      first, before := CycleAdvances(g, c, order, k - 1);
      assert StepOfWalk(g, c, k - 1);
      last :| 0 <= last < |order| && order[last] == c[k];
      EdgesGoForward(g, order, before, last);
    }
  }

  /// A cycle excludes every topological order.
  lemma CycleForbidsOrder(g: Graph, c: seq<NodeId>, order: seq<NodeId>)
    requires GraphOk(g) && IsCycle(g, c)
    ensures !IsTopological(g, order)
  {
    if IsTopological(g, order) {
      var first, last := CycleAdvances(g, c, order, |c| - 1);
      assert false;
    }
  }

  /// An incomplete order leaves nodes that depend on one another.
  lemma LeftDepend(g: Graph, order: seq<NodeId>)
    requires Ready(g, order) == {}
    ensures AllDepend(g, Left(g, order))
  {
    forall v | v in Left(g, order) ensures DependsOn(g, Left(g, order), v) {
      assert v !in Ready(g, order);
      var u :| u in Waits(g, order, v);
      assert u in Left(g, order) && Edge(g, u, v);
    }
  }

  lemma CompleteIffNothingLeft(g: Graph, order: seq<NodeId>)
    requires IsPrefix(g, order)
    ensures |order| == |g| <==> Left(g, order) == {}
    ensures Left(g, order) == {} ==> IsTopological(g, order)
  {
    var all, left := Elements(order), Left(g, order);
    Distinct(order);
    Numbers(|g|);
    assert all + left == UpTo(|g|) && all * left == {};
    assert |all + left| == |all| + |left|;
    if left == {} { NothingLeft(g, order); }
  }

  lemma NothingLeft(g: Graph, order: seq<NodeId>)
    requires IsPrefix(g, order) && Left(g, order) == {}
    ensures IsTopological(g, order)
  {
    forall v: NodeId | v < |g| ensures v in order { assert v !in Left(g, order); }
  }

  /// Kahn's algorithm orders every node exactly when the graph has no cycle.
  lemma KahnCompletesIffAcyclic(g: Graph)
    requires GraphOk(g)
    ensures |Kahn(g, [])| == |g| <==> Acyclic(g)
    ensures |Kahn(g, [])| == |g| <==> IsTopological(g, Kahn(g, []))
  {
    var order := Kahn(g, []);
    KahnStops(g, []);
    CompleteIffNothingLeft(g, order);
    if Left(g, order) == {} {
      forall c: seq<NodeId> ensures !IsCycle(g, c) {
        if IsCycle(g, c) { CycleForbidsOrder(g, c, order); }
      }
    } else {
      LeftDepend(g, order);
      var c := StuckHaveCycle(g, Left(g, order));
    }
  }

  ghost predicate Acyclic(g: Graph) {
    forall c: seq<NodeId> :: !IsCycle(g, c)
  }

  // -- The graph object ----------------------------------------------------------------------

  /// The in-degrees while the successors in `rest` of the node ordered last are still to be counted down.
  predicate CountsWaiting(g: Graph, done: seq<NodeId>, indegree: seq<nat>, rest: seq<NodeId>) {
    |indegree| == |g| && forall v :: 0 <= v < |g| ==> indegree[v] == |Waits(g, done, v)| + if v in rest then 1 else 0
  }

  /// The ready nodes that are known while the successors in `rest` are still to be counted down.
  function ReadyBut(g: Graph, done: seq<NodeId>, rest: seq<NodeId>): set<NodeId> {
    set v | v in Ready(g, done) && v !in rest
  }

  lemma WaitsForOneLess(g: Graph, done: seq<NodeId>, id: NodeId, v: NodeId)
    requires GraphOk(g) && IsPrefix(g, done) && id in Ready(g, done) && v < |g|
    ensures Waits(g, done, v) == Waits(g, done + [id], v) + if v in g[id] then {id} else {}
    ensures id !in Waits(g, done + [id], v)
  {
  }

  lemma OrderOneMore(g: Graph, done: seq<NodeId>, indegree: seq<nat>, id: NodeId)
    requires GraphOk(g) && IsPrefix(g, done) && CountsWaiting(g, done, indegree, []) && id in Ready(g, done)
    ensures CountsWaiting(g, done + [id], indegree, g[id])
    ensures ReadyBut(g, done + [id], g[id]) == Ready(g, done) - {id}
  {
    var more := done + [id];
    forall v | 0 <= v < |g| ensures Waits(g, done, v) == Waits(g, more, v) + if v in g[id] then {id} else {} {
      WaitsForOneLess(g, done, id, v);
    }
    hide Waits;
    forall v | v in ReadyBut(g, more, g[id]) ensures v in Ready(g, done) - {id} {
      assert Waits(g, more, v) == {};
    }
    forall v | v in Ready(g, done) - {id} ensures v in ReadyBut(g, more, g[id]) {
      assert Waits(g, done, v) == {};
      assert v !in g[id];
    }
  }

  /// A successor of an ordered node is not ordered yet.
  lemma SuccessorComesLater(g: Graph, done: seq<NodeId>, id: NodeId, s: NodeId)
    requires GraphOk(g) && IsPrefix(g, done + [id]) && id < |g| && s in g[id]
    ensures s !in done + [id]
  {
    var more := done + [id];
    assert forall i :: 0 <= i < |more| ==> !Edge(g, more[|done|], more[i]);
  }

  lemma EdgeAdded(g: Graph, before: NodeId, after: NodeId)
    requires GraphOk(g) && before < |g| && after < |g| && before != after && after !in g[before]
    ensures var h := g[before := g[before] + [after]];
            && GraphOk(h)
            && (forall u: NodeId, v: NodeId :: Edge(h, u, v) <==> Edge(g, u, v) || (u == before && v == after))
            && (forall v :: 0 <= v < |g| ==>
                  |Predecessors(h, v)| == |Predecessors(g, v)| + if v == after then 1 else 0)
  {
    var h := g[before := g[before] + [after]];
    EdgeKeepsGraph(g, before, after);
    hide GraphOk;
    forall v | 0 <= v < |g|
      ensures |Predecessors(h, v)| == |Predecessors(g, v)| + if v == after then 1 else 0
    {
      PredecessorAdded(g, before, after, v);
    }
  }

  lemma EdgeKeepsGraph(g: Graph, before: NodeId, after: NodeId)
    requires GraphOk(g) && before < |g| && after < |g| && before != after && after !in g[before]
    ensures GraphOk(g[before := g[before] + [after]])
  {
  }

  lemma PredecessorAdded(g: Graph, before: NodeId, after: NodeId, v: NodeId)
    requires before < |g| && after !in g[before] && v < |g|
    ensures |Predecessors(g[before := g[before] + [after]], v)| == |Predecessors(g, v)| + if v == after then 1 else 0
  {
    var h := g[before := g[before] + [after]];
    assert Predecessors(h, v) == Predecessors(g, v) + if v == after then {before} else {};
    assert before !in Predecessors(g, after);
  }

  class TaskGraph {
    var m_successors: Graph
    var m_predecessorCount: seq<nat>

    ghost predicate Valid()
      reads this
    {
      && GraphOk(m_successors) && |m_predecessorCount| == |m_successors|
      && forall v :: 0 <= v < |m_successors| ==> m_predecessorCount[v] == |Predecessors(m_successors, v)|
    }

    constructor ()
      ensures Valid() && m_successors == []
    {
      m_successors, m_predecessorCount := [], [];
    }

    method AddNode() returns (id: NodeId)
      requires Valid()
      modifies this
      ensures Valid() && id == old(|m_successors|) && m_successors == old(m_successors) + [[]]
    {
      id := |m_successors|;
      ghost var g := m_successors;
      m_successors := m_successors + [[]];
      m_predecessorCount := m_predecessorCount + [0];
      forall v | 0 <= v <= |g| ensures Predecessors(m_successors, v) == if v < |g| then Predecessors(g, v) else {} {
      }
    }

    /// Adds an edge once; an edge between unknown nodes or to the node itself is refused.
    method AddEdge(before: NodeId, after: NodeId) returns (ok: bool)
      requires Valid()
      modifies this
      ensures Valid() && |m_successors| == |old(m_successors)|
      ensures ok <==> before < |m_successors| && after < |m_successors| && before != after
      ensures !ok ==> m_successors == old(m_successors)
      ensures ok ==> forall u: NodeId, v: NodeId ::
                Edge(m_successors, u, v) <==> Edge(old(m_successors), u, v) || (u == before && v == after)
    {
      if before >= |m_successors| || after >= |m_successors| {
        return false;
      }
      if before == after {
        return false;
      }
      ok := true;
      var successors := m_successors[before];
      if after in successors {
        return;
      }
      EdgeAdded(m_successors, before, after);
      hide GraphOk, Predecessors, Edge;
      m_successors := m_successors[before := successors + [after]];
      m_predecessorCount := m_predecessorCount[after := m_predecessorCount[after] + 1];
    }

    /// An order that respects every edge, or None when the graph has a cycle.
    method TopologicalOrder() returns (result: Option<seq<NodeId>>)
      requires Valid()
      ensures result.Some? <==> Acyclic(m_successors)
      ensures result.Some? ==> IsTopological(m_successors, result.value)
      ensures result.Some? ==>
                forall other :: IsTopological(m_successors, other) ==> LexLessOrEqual(result.value, other)
    {
      var g := m_successors;
      var indegree := m_predecessorCount;
      var ready: set<NodeId> := {};
      for i := 0 to |g|
        invariant forall v :: v in ready <==> 0 <= v < i && indegree[v] == 0
      {
        if indegree[i] == 0 {
          ready := ready + {i};
        }
      }
      var order: seq<NodeId> := [];
      StartWaiting(g, indegree);
      assert ready == Ready(g, []);
      while ready != {}
        invariant IsPrefix(g, order) && ready == Ready(g, order) && CountsWaiting(g, order, indegree, [])
        invariant Kahn(g, order) == Kahn(g, [])
        decreases |Left(g, order)|
      {
        var id := Least(ready);
        LeftShrinks(g, order, id);
        PrefixGrows(g, order, id);
        indegree, ready := CountDown(g, order, id, indegree, ready - {id});
        order := order + [id];
      }
      KahnCompletesIffAcyclic(g);
      forall other | IsTopological(g, other) ensures LexLessOrEqual(Kahn(g, []), other) {
        KahnIsLeast(g, [], other);
      }
      result := if |order| != |g| then None else Some(order);
    }

    static method CountDown(g: Graph, ghost done: seq<NodeId>, id: NodeId, degrees: seq<nat>, waiting: set<NodeId>)
        returns (indegree: seq<nat>, ready: set<NodeId>)
      requires GraphOk(g) && IsPrefix(g, done) && CountsWaiting(g, done, degrees, [])
      requires id in Ready(g, done) && waiting == Ready(g, done) - {id}
      ensures CountsWaiting(g, done + [id], indegree, []) && ready == Ready(g, done + [id])
    {
      indegree, ready := degrees, waiting;
      PrefixGrows(g, done, id);
      OrderOneMore(g, done, degrees, id);
      for k := 0 to |g[id]|
        invariant CountsWaiting(g, done + [id], indegree, g[id][k..])
        invariant ready == ReadyBut(g, done + [id], g[id][k..])
      {
        var s := g[id][k];
        assert g[id][k..] == [s] + g[id][k + 1..];
        assert s !in g[id][k + 1..];
        SuccessorComesLater(g, done, id, s);
        indegree := indegree[s := indegree[s] - 1];
        if indegree[s] == 0 {
          ready := ready + {s};
        }
      }
    }
  }

  lemma StartWaiting(g: Graph, indegree: seq<nat>)
    requires |indegree| == |g| && forall v :: 0 <= v < |g| ==> indegree[v] == |Predecessors(g, v)|
    ensures CountsWaiting(g, [], indegree, [])
    ensures forall v :: v in Ready(g, []) <==> 0 <= v < |g| && indegree[v] == 0
  {
    forall v | 0 <= v < |g| ensures Waits(g, [], v) == Predecessors(g, v) {
    }
  }
}
