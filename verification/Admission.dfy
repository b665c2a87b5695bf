/**
 The admission webhook's view of a dependency plan: a queue-based Kahn sort over the reversed
 edges, and the duplicate-name check. It accepts exactly what module Planner can plan.
 */
module Admission {
  import opened Graphs
  import Planner

  datatype AdmissionError =
    | UnknownFrom(index: nat)
    | UnknownTo(index: nat)
    | SelfDependency(index: nat)
    | DependencyCycle
    | DuplicateTarget(index: nat, previous: nat)

  /** The error a single dependency earns; the first failing test wins. */
  function DependencyErrors(names: set<string>, d: Dependency, index: nat): seq<AdmissionError> {
    if d.from !in names then [UnknownFrom(index)]
    else if d.to !in names then [UnknownTo(index)]
    else if d.from == d.to then [SelfDependency(index)]
    else []
  }

  function AllDependencyErrors(names: set<string>, deps: seq<Dependency>): seq<AdmissionError> {
    if deps == [] then []
    else
      var n := |deps| - 1;
      AllDependencyErrors(names, deps[..n]) + DependencyErrors(names, deps[n], n)
  }

  lemma {:induction false} NoDependencyErrors(names: set<string>, deps: seq<Dependency>)
    ensures AllDependencyErrors(names, deps) == [] <==>
      KnownEndpoints(names, deps) && forall d :: d in deps ==> d.from != d.to
  {
    if deps != [] {
      var n := |deps| - 1;
      NoDependencyErrors(names, deps[..n]);
      assert deps == deps[..n] + [deps[n]];
    }
  }

  /** Which errors a scan reports: for each dependency the first of its faults, in the order of the list. */
  ghost predicate ErrorsAre(names: set<string>, deps: seq<Dependency>, errs: seq<AdmissionError>) {
    && (forall i: nat :: UnknownFrom(i) in errs <==> i < |deps| && deps[i].from !in names)
    && (forall i: nat :: UnknownTo(i) in errs <==> i < |deps| && deps[i].from in names && deps[i].to !in names)
    && (forall i: nat :: SelfDependency(i) in errs <==>
          i < |deps| && deps[i].from in names && deps[i].to in names && deps[i].from == deps[i].to)
    && (forall e :: e in errs ==> e.UnknownFrom? || e.UnknownTo? || e.SelfDependency?)
    && (forall j, k :: 0 <= j < k < |errs| && errs[j] != DependencyCycle && errs[k] != DependencyCycle ==>
          errs[j].index < errs[k].index)
  }

  lemma {:induction false} DependencyErrorsTell(names: set<string>, deps: seq<Dependency>)
    ensures ErrorsAre(names, deps, AllDependencyErrors(names, deps))
  {
    if deps != [] {
      var n := |deps| - 1;
      var front := AllDependencyErrors(names, deps[..n]);
      DependencyErrorsTell(names, deps[..n]);
      assert forall e :: e in front ==> e.index < n by {
        forall e | e in front
          ensures e.index < n
        {
          assert e == UnknownFrom(e.index) || e == UnknownTo(e.index) || e == SelfDependency(e.index);
        }
      }
      ErrorsStep(names, deps, front);
    }
  }

  lemma {:induction false} ErrorsStep(names: set<string>, deps: seq<Dependency>, front: seq<AdmissionError>)
    requires deps != [] && ErrorsAre(names, deps[..|deps| - 1], front)
    requires forall e :: e in front ==> e != DependencyCycle && e.index < |deps| - 1
    ensures ErrorsAre(names, deps, front + DependencyErrors(names, deps[|deps| - 1], |deps| - 1))
  {
    var n := |deps| - 1;
    var more := DependencyErrors(names, deps[n], n);
    assert forall e :: e in front + more <==> e in front || e in more;
    assert forall k :: 0 <= k < |front| ==> front[k] in front;
  }

  lemma {:induction false} SelfEdgeIsCycle(deps: seq<Dependency>, d: Dependency)
    requires d in deps && d.from == d.to
    ensures Cyclic(deps)
  {
    assert ClosedWalk(deps, [d.from, d.to]);
  }

  // ----- The queue

  /** Sound counters for the reversed graph once `taken` has left the queue. */
  ghost predicate Counts(m: map<string, int>, rdeps: seq<Dependency>, names: set<string>, taken: set<string>) {
    && m.Keys == names
    && forall x :: x in m ==> m[x] == Planner.InCount(rdeps, x, taken)
  }

  /** Exactly the names of `seen` have reached degree zero. */
  ghost predicate ZeroExactly(m: map<string, int>, seen: set<string>) {
    forall x :: x in m ==> (m[x] == 0 <==> x in seen)
  }

  /** After releasing `gone`, the start of the list of neighbours. */
  ghost predicate Releasing(
    m: map<string, int>, queue: seq<string>, r: map<string, int>, q: seq<string>, gone: seq<string>, seen: set<string>)
  {
    && r.Keys == m.Keys
    && (forall x :: x in m ==> r[x] == m[x] - multiset(gone)[x])
    && Distinct(q) && Names(q) >= Names(queue) && Names(q) <= m.Keys
    && (Names(q) - Names(queue)) !! seen && ZeroExactly(r, seen + Names(q))
  }

  lemma {:induction false} ReleaseStarts(m: map<string, int>, queue: seq<string>, seen: set<string>)
    requires ZeroExactly(m, seen) && Distinct(queue) && Names(queue) <= seen <= m.Keys
    ensures Releasing(m, queue, m, queue, [], seen)
  {
    assert seen + Names(queue) == seen;
  }

  lemma {:induction false} ReleaseStep(
    m: map<string, int>, queue: seq<string>, r: map<string, int>, q: seq<string>, gone: seq<string>,
    seen: set<string>, x: string)
    requires Releasing(m, queue, r, q, gone, seen) && Names(queue) <= seen
    requires x in m && m[x] > multiset(gone)[x]
    ensures
      var r' := r[x := r[x] - 1];
      Releasing(m, queue, r', if r'[x] == 0 then q + [x] else q, gone + [x], seen)
  {
    assert x !in seen + Names(q);
    assert Names(q + [x]) == Names(q) + {x};
  }

  lemma {:induction false} OccursBefore(s: seq<string>, j: nat)
    requires j < |s|
    ensures multiset(s[..j])[s[j]] < multiset(s)[s[j]]
  {
    assert s == s[..j] + [s[j]] + s[j + 1..];
  }

  /** No name occurs among the neighbours more often than its degree allows. */
  ghost predicate Affordable(m: map<string, int>, neighbours: seq<string>) {
    && (forall x :: x in neighbours ==> x in m)
    && (forall x :: x in m ==> m[x] >= multiset(neighbours)[x])
  }

  lemma {:induction false} AffordableNext(m: map<string, int>, neighbours: seq<string>, j: nat)
    requires Affordable(m, neighbours) && j < |neighbours|
    ensures neighbours[j] in m && m[neighbours[j]] > multiset(neighbours[..j])[neighbours[j]]
    ensures neighbours[..j + 1] == neighbours[..j] + [neighbours[j]]
  {
    assert neighbours[j] in neighbours;
    OccursBefore(neighbours, j);
  }

  /** Lowers each neighbour and queues it when its degree reaches zero. */
  method Release(m: map<string, int>, queue: seq<string>, neighbours: seq<string>, ghost seen: set<string>)
    returns (r: map<string, int>, q: seq<string>)
    requires Affordable(m, neighbours)
    requires ZeroExactly(m, seen) && Distinct(queue) && Names(queue) <= seen <= m.Keys
    ensures Releasing(m, queue, r, q, neighbours, seen)
  {
    r, q := m, queue;
    ReleaseStarts(m, queue, seen);
    for j := 0 to |neighbours|
      invariant Releasing(m, queue, r, q, neighbours[..j], seen)
    {
      AffordableNext(m, neighbours, j);
      r, q := ReleaseOne(r, q, neighbours[j], m, queue, neighbours[..j], seen);
    }
    assert neighbours[..|neighbours|] == neighbours;
  }

  method ReleaseOne(
    r0: map<string, int>, q0: seq<string>, x: string,
    ghost m: map<string, int>, ghost queue: seq<string>, ghost gone: seq<string>, ghost seen: set<string>)
    returns (r: map<string, int>, q: seq<string>)
    requires Releasing(m, queue, r0, q0, gone, seen) && Names(queue) <= seen
    requires x in m && m[x] > multiset(gone)[x]
    ensures Releasing(m, queue, r, q, gone + [x], seen)
  {
    ReleaseStep(m, queue, r0, q0, gone, seen, x);
    r, q := r0[x := r0[x] - 1], q0;
    if r[x] == 0 {
      q := q + [x];
    }
  }

  /** Names in the order they left the queue: everything that points at one came before it. */
  ghost predicate Ordered(rdeps: seq<Dependency>, order: seq<string>) {
    && Distinct(order)
    && forall i, u :: 0 <= i < |order| && Edge(rdeps, u, order[i]) ==> u in order[..i]
  }

  lemma {:induction false} OrderedIsAcyclic(rdeps: seq<Dependency>, order: seq<string>, names: set<string>)
    requires Ordered(rdeps, order) && Names(order) == names && KnownEndpoints(names, rdeps)
    ensures !Cyclic(rdeps)
  {
    var stages := seq(|order|, i requires 0 <= i < |order| => [order[i]]);
    forall t | t in names
      ensures exists i :: 0 <= i < |stages| && t in stages[i]
    {
      var i :| 0 <= i < |order| && order[i] == t;
      assert t in stages[i];
    }
    forall i, t, u | 0 <= i < |stages| && t in stages[i] && Edge(rdeps, u, t)
      ensures exists j :: 0 <= j < i && u in stages[j]
    {
      assert u in order[..i];
      var j :| 0 <= j < i && order[j] == u;
      assert u in stages[j];
    }
    LayeredIsAcyclic(rdeps, stages, names);
  }

  lemma {:induction false} AcyclicBothWays(deps: seq<Dependency>)
    ensures Cyclic(Reversed(deps)) <==> Cyclic(deps)
  {
    assert Reversed(Reversed(deps)) == deps;
    if Cyclic(deps) {
      ReversedCycle(Reversed(deps));
    }
    if Cyclic(Reversed(deps)) {
      ReversedCycle(deps);
    }
  }

  lemma {:induction false} LeftoverIsCyclic(
    rdeps: seq<Dependency>, m: map<string, int>, names: set<string>, taken: set<string>)
    requires KnownEndpoints(names, rdeps) && Counts(m, rdeps, names, taken)
    requires ZeroExactly(m, taken) && taken < names
    ensures Cyclic(rdeps)
  {
    var rest := names - taken;
    var x :| x in names && x !in taken;
    assert x in rest;
    forall v | v in rest
      ensures HasPredecessor(rdeps, rest, v)
    {
      Planner.InCountZero(rdeps, v, taken);
      assert m[v] != 0;
      var u :| Edge(rdeps, u, v) && u !in taken;
      assert u in rest;
    }
    NoSourceMeansCycle(rdeps, rest);
  }

  /** Extending the order by a name whose degree is zero. */
  lemma {:induction false} OrderStep(rdeps: seq<Dependency>, order: seq<string>, node: string)
    requires Ordered(rdeps, order) && node !in order
    requires Planner.InCount(rdeps, node, Names(order)) == 0
    ensures Ordered(rdeps, order + [node]) && Names(order + [node]) == Names(order) + {node}
  {
    Planner.InCountZero(rdeps, node, Names(order));
    var after := order + [node];
    forall i, u | 0 <= i < |after| && Edge(rdeps, u, after[i])
      ensures u in after[..i]
    {
      if i < |order| {
        assert after[i] == order[i] && after[..i] == order[..i];
      } else {
        assert after[..i] == order;
      }
    }
  }

  ghost predicate QueueState(
    m: map<string, int>, queue: seq<string>, order: seq<string>, rdeps: seq<Dependency>, names: set<string>)
  {
    && Counts(m, rdeps, names, Names(order))
    && Distinct(queue)
    && Names(queue) !! Names(order)
    && Names(queue) + Names(order) <= names
    && ZeroExactly(m, Names(queue) + Names(order))
  }

  /** What removing `node` does to the counters of its neighbours. */
  lemma {:induction false} NodeLeaves(
    m: map<string, int>, neighbours: seq<string>, rdeps: seq<Dependency>, names: set<string>, taken: set<string>,
    node: string)
    requires KnownEndpoints(names, rdeps) && Counts(m, rdeps, names, taken) && node !in taken
    requires neighbours == Planner.Successors(rdeps, node)
    ensures forall x :: x in neighbours ==> x in m
    ensures forall x :: x in m ==> m[x] - multiset(neighbours)[x] == Planner.InCount(rdeps, x, taken + {node})
  {
    forall x | x in m
      ensures m[x] - multiset(neighbours)[x] == Planner.InCount(rdeps, x, taken + {node})
    {
      Planner.InCountRemove(rdeps, x, taken, node);
    }
    forall x | x in neighbours
      ensures x in m
    {
      Planner.SuccessorEdge(rdeps, node, x);
    }
  }

  lemma {:induction false} QueueHead(queue: seq<string>)
    requires Distinct(queue) && queue != []
    ensures Names(queue) == Names(queue[1..]) + {queue[0]} && queue[0] !in Names(queue[1..]) && Distinct(queue[1..])
  {
    assert queue == [queue[0]] + queue[1..];
  }

  /** One turn of the queue loop. */
  method Turn(
    m: map<string, int>, queue: seq<string>, graph: map<string, seq<string>>,
    ghost order: seq<string>, ghost rdeps: seq<Dependency>, ghost names: set<string>)
    returns (r: map<string, int>, q: seq<string>)
    requires KnownEndpoints(names, rdeps) && Planner.Adjacency(graph, rdeps, names)
    requires QueueState(m, queue, order, rdeps, names) && queue != []
    ensures QueueState(r, q, order + [queue[0]], rdeps, names)
  {
    var node := queue[0];
    QueueHead(queue);
    ghost var taken := Names(order);
    assert Names(order + [node]) == taken + {node};
    NodeLeaves(m, graph[node], rdeps, names, taken, node);
    r, q := Release(m, queue[1..], graph[node], Names(queue) + taken);
    assert Names(queue) + taken + Names(q) == Names(q) + (taken + {node});
  }

  method DrainQueue(
    degrees: map<string, int>, graph: map<string, seq<string>>, ghost rdeps: seq<Dependency>, ghost names: set<string>)
    returns (visited: nat)
    requires KnownEndpoints(names, rdeps) && Planner.Adjacency(graph, rdeps, names)
    requires Counts(degrees, rdeps, names, {})
    ensures visited == |names| <==> !Cyclic(rdeps)
  {
    var m := degrees;
    var queue := InitialQueue(m);
    ghost var order: seq<string> := [];
    assert Names(order) == {};
    visited := 0;
    while |queue| > 0
      invariant QueueState(m, queue, order, rdeps, names) && Ordered(rdeps, order)
      invariant visited == |Names(order)|
      decreases |names| - visited
    {
      ghost var node := queue[0];
      QueueStep(m, queue, order, rdeps, names);
      m, queue := Turn(m, queue, graph, order, rdeps, names);
      order := order + [node];
      visited := visited + 1;
    }
    QueueDrained(m, queue, order, rdeps, names);
  }

  method InitialQueue(m: map<string, int>) returns (queue: seq<string>)
    ensures Distinct(queue) && Names(queue) <= m.Keys && ZeroExactly(m, Names(queue))
  {
    queue := Planner.SortNames(set x | x in m && m[x] == 0);
    forall i, j | 0 <= i < j < |queue|
      ensures queue[i] != queue[j]
    {
      Planner.BeforeTotal(queue[i], queue[j]);
    }
  }

  lemma {:induction false} QueueStep(
    m: map<string, int>, queue: seq<string>, order: seq<string>, rdeps: seq<Dependency>, names: set<string>)
    requires QueueState(m, queue, order, rdeps, names) && Ordered(rdeps, order) && queue != []
    ensures Ordered(rdeps, order + [queue[0]])
    ensures |Names(order + [queue[0]])| == |Names(order)| + 1 <= |names|
  {
    var node := queue[0];
    assert node in Names(queue) && node !in Names(order) && m[node] == 0;
    OrderStep(rdeps, order, node);
    SubsetCardinality(Names(order + [node]), names);
  }

  lemma {:induction false} QueueDrained(
    m: map<string, int>, queue: seq<string>, order: seq<string>, rdeps: seq<Dependency>, names: set<string>)
    requires KnownEndpoints(names, rdeps)
    requires QueueState(m, queue, order, rdeps, names) && Ordered(rdeps, order) && queue == []
    ensures |Names(order)| == |names| <==> !Cyclic(rdeps)
  {
    assert Names(queue) + Names(order) == Names(order);
    if Names(order) == names {
      OrderedIsAcyclic(rdeps, order, names);
    } else {
      LeftoverIsCyclic(rdeps, m, names, Names(order));
      if |Names(order)| == |names| {
        Planner.SameCardinality(Names(order), names);
      }
    }
  }

  /** What the scan has recorded after the dependencies `deps`. */
  ghost predicate Scanned(
    errs: seq<AdmissionError>, graph: map<string, seq<string>>, inDegree: map<string, int>,
    names: set<string>, deps: seq<Dependency>)
  {
    && errs == AllDependencyErrors(names, deps)
    && graph.Keys == inDegree.Keys == names
    && (errs == [] ==> Planner.Adjacency(graph, Reversed(deps), names) && Counts(inDegree, Reversed(deps), names, {}))
  }

  lemma {:induction false} ScanStep(
    errs: seq<AdmissionError>, graph: map<string, seq<string>>, inDegree: map<string, int>,
    names: set<string>, deps: seq<Dependency>, d: Dependency)
    requires Scanned(errs, graph, inDegree, names, deps)
    ensures DependencyErrors(names, d, |deps|) != [] ==>
      Scanned(errs + DependencyErrors(names, d, |deps|), graph, inDegree, names, deps + [d])
    ensures DependencyErrors(names, d, |deps|) == [] ==>
      Scanned(errs, graph[d.to := graph[d.to] + [d.from]], inDegree[d.from := inDegree[d.from] + 1], names, deps + [d])
  {
    assert (deps + [d])[..|deps|] == deps;
    assert Reversed(deps + [d])[..|deps|] == Reversed(deps);
  }

  /** The scan over the dependencies: errors, reversed adjacency and its in-degrees. */
  method ScanDependencies(names: set<string>, deps: seq<Dependency>)
    returns (errs: seq<AdmissionError>, graph: map<string, seq<string>>, inDegree: map<string, int>)
    ensures Scanned(errs, graph, inDegree, names, deps)
  {
    graph := map name | name in names :: [];
    inDegree := map name | name in names :: 0;
    errs := [];
    for i := 0 to |deps|
      invariant Scanned(errs, graph, inDegree, names, deps[..i])
    {
      var d := deps[i];
      ScanStep(errs, graph, inDegree, names, deps[..i], d);
      assert deps[..i + 1] == deps[..i] + [d];
      if d.from !in names {
        errs := errs + [UnknownFrom(i)];
        continue;
      }
      if d.to !in names {
        errs := errs + [UnknownTo(i)];
        continue;
      }
      if d.from == d.to {
        errs := errs + [SelfDependency(i)];
        continue;
      }
      graph := graph[d.to := graph[d.to] + [d.from]];
      inDegree := inDegree[d.from := inDegree[d.from] + 1];
    }
    assert deps[..|deps|] == deps;
  }

  /**
   Validates the dependencies of a plan. The errors are those of the single dependencies, in
   order, or a lone cycle error when none of them is at fault.
   */
  method ValidateDAG(names: set<string>, deps: seq<Dependency>) returns (errs: seq<AdmissionError>)
    ensures AllDependencyErrors(names, deps) != [] ==> errs == AllDependencyErrors(names, deps)
    ensures AllDependencyErrors(names, deps) == [] ==> errs == if Cyclic(deps) then [DependencyCycle] else []
    ensures errs == [] <==> KnownEndpoints(names, deps) && !Cyclic(deps)
    ensures errs != [DependencyCycle] ==> ErrorsAre(names, deps, errs)
    ensures errs == [DependencyCycle] <==> Cyclic(deps) && ErrorsAre(names, deps, [])
  {
    DependencyErrorsTell(names, deps);
    var graph, inDegree;
    errs, graph, inDegree := ScanDependencies(names, deps);
    NoDependencyErrors(names, deps);
    if errs == [] {
      AcyclicBothWays(deps);
      var visited := DrainQueue(inDegree, graph, Reversed(deps), names);
      if visited != |names| {
        errs := [DependencyCycle];
      }
    } else if KnownEndpoints(names, deps) {
      ghost var d :| d in deps && d.from == d.to;
      SelfEdgeIsCycle(deps, d);
    }
  }

  /** The last position of `t`. */
  function LastIndex(s: seq<string>, t: string): (i: nat)
    requires t in s
    ensures i < |s| && s[i] == t && t !in s[i + 1..]
  {
    var n := |s| - 1;
    if s[n] == t then n
    else
      assert s == s[..n] + [s[n]];
      var i := LastIndex(s[..n], t);
      assert s[i + 1..] == s[..n][i + 1..] + [s[n]];
      i
  }

  /** Each repeated name is reported against its latest earlier index. */
  function DuplicateErrors(targets: seq<string>): seq<AdmissionError> {
    if targets == [] then []
    else
      var n := |targets| - 1;
      DuplicateErrors(targets[..n]) +
      if targets[n] in targets[..n] then [DuplicateTarget(n, LastIndex(targets[..n], targets[n]))] else []
  }

  lemma {:induction false} NoDuplicateErrors(targets: seq<string>)
    ensures DuplicateErrors(targets) == [] <==> Distinct(targets)
  {
    if targets != [] {
      var n := |targets| - 1;
      NoDuplicateErrors(targets[..n]);
      assert targets == targets[..n] + [targets[n]];
      DistinctStep(targets[..n], targets[n]);
    }
  }

  lemma {:induction false} DistinctStep(s: seq<string>, t: string)
    ensures Distinct(s + [t]) <==> Distinct(s) && t !in s
  {
    var after := s + [t];
    if Distinct(after) {
      assert forall i :: 0 <= i < |s| ==> after[i] == s[i] && after[i] != after[|s|];
    }
  }

  /** Position `i` repeats the name last seen at position `p`. */
  ghost predicate Repeats(targets: seq<string>, i: nat, p: nat) {
    p < i < |targets| && targets[p] == targets[i] && forall k :: p < k < i ==> targets[k] != targets[i]
  }

  /** A repeated name is reported with the latest position before it. */
  ghost predicate DuplicatesAre(targets: seq<string>, errs: seq<AdmissionError>) {
    && (forall i: nat, p: nat :: DuplicateTarget(i, p) in errs <==> Repeats(targets, i, p))
    && (forall e :: e in errs ==> e.DuplicateTarget?)
    && (forall j, k :: 0 <= j < k < |errs| && errs[j].DuplicateTarget? && errs[k].DuplicateTarget? ==>
          errs[j].index < errs[k].index)
  }

  lemma {:induction false} DuplicateErrorsTell(targets: seq<string>)
    ensures DuplicatesAre(targets, DuplicateErrors(targets))
  {
    if targets != [] {
      var n := |targets| - 1;
      var front, t := targets[..n], targets[n];
      DuplicateErrorsTell(front);
      var more := if t in front then [DuplicateTarget(n, LastIndex(front, t))] else [];
      assert DuplicateErrors(targets) == DuplicateErrors(front) + more;
      assert targets == front + [t];
      assert forall e :: e in DuplicateErrors(front) ==> e.index < n by {
        forall e | e in DuplicateErrors(front)
          ensures e.index < n
        {
          assert e == DuplicateTarget(e.index, e.previous) && Repeats(front, e.index, e.previous);
        }
      }
      forall i: nat, p: nat
        ensures Repeats(targets, i, p) <==>
          if i == n then t in front && p == LastIndex(front, t) else Repeats(front, i, p)
      {
        RepeatsStep(front, t, i, p);
      }
    }
  }

  lemma {:induction false} RepeatsStep(front: seq<string>, t: string, i: nat, p: nat)
    ensures Repeats(front + [t], i, p) <==>
      if i == |front| then t in front && p == LastIndex(front, t) else Repeats(front, i, p)
  {
    var after := front + [t];
    if i < |front| {
      assert forall k :: 0 <= k <= i ==> after[k] == front[k];
    } else if i == |front| {
      assert forall k :: 0 <= k < i ==> after[k] == front[k];
      LatestIsLast(front, t, p);
    }
  }

  lemma {:induction false} LatestIsLast(s: seq<string>, t: string, p: nat)
    ensures t in s && p == LastIndex(s, t) <==> p < |s| && s[p] == t && forall k :: p < k < |s| ==> s[k] != t
  {
    if t in s {
      var l := LastIndex(s, t);
      assert forall k :: l < k < |s| ==> s[k] == s[l + 1..][k - l - 1];
    }
  }

  /** `seen` holds the last position of every name of `s`. */
  ghost predicate SeenLast(seen: map<string, nat>, s: seq<string>) {
    && (forall t :: t in seen <==> t in s)
    && forall t :: t in seen ==> seen[t] == LastIndex(s, t)
  }

  lemma {:induction false} SeenStep(seen: map<string, nat>, s: seq<string>, t: string)
    requires SeenLast(seen, s)
    ensures SeenLast(seen[t := |s|], s + [t])
    ensures DuplicateErrors(s + [t]) ==
      DuplicateErrors(s) + if t in seen then [DuplicateTarget(|s|, seen[t])] else []
  {
    assert (s + [t])[..|s|] == s;
  }

  method ValidateTargetNames(targets: seq<string>) returns (errs: seq<AdmissionError>)
    ensures errs == DuplicateErrors(targets)
    ensures errs == [] <==> Distinct(targets)
    ensures DuplicatesAre(targets, errs)
  {
    DuplicateErrorsTell(targets);
    errs := [];
    var seen: map<string, nat> := map[];
    for i := 0 to |targets|
      invariant SeenLast(seen, targets[..i]) && errs == DuplicateErrors(targets[..i])
    {
      var t := targets[i];
      SeenStep(seen, targets[..i], t);
      assert targets[..i + 1] == targets[..i] + [t];
      if t in seen {
        errs := errs + [DuplicateTarget(i, seen[t])];
      }
      seen := seen[t := i];
    }
    assert targets[..|targets|] == targets;
    NoDuplicateErrors(targets);
  }

  /** Admission of a dependency plan: both checks, as the webhook runs them. */
  method Admit(targets: seq<string>, deps: seq<Dependency>) returns (errs: seq<AdmissionError>)
    ensures errs == [] <==> Plannable(targets, deps)
    ensures exists k ::
      0 <= k <= |errs| && DuplicatesAre(targets, errs[..k]) && GraphErrorsAre(Names(targets), deps, errs[k..])
  {
    var nameErrs := ValidateTargetNames(targets);
    var dagErrs := ValidateDAG(Names(targets), deps);
    errs := nameErrs + dagErrs;
    assert errs[..|nameErrs|] == nameErrs && errs[|nameErrs|..] == dagErrs;
  }

  /** A lone cycle error, or the errors of the single dependencies. */
  ghost predicate GraphErrorsAre(names: set<string>, deps: seq<Dependency>, errs: seq<AdmissionError>) {
    if Cyclic(deps) && ErrorsAre(names, deps, []) then errs == [DependencyCycle] else ErrorsAre(names, deps, errs)
  }

  /** The two sorts agree on every input: whatever is admitted gets a plan, and nothing else does. */
  method AdmitAndPlan(targets: seq<string>, deps: seq<Dependency>, maxConcurrency: int)
    returns (errs: seq<AdmissionError>, plan: Planner.PlanResult)
    ensures errs == [] <==> plan.Plan?
    ensures plan.Plan? <==> Plannable(targets, deps)
  {
    errs := Admit(targets, deps);
    plan := Planner.PlanDAG(targets, deps, maxConcurrency);
  }
}
