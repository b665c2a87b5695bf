/**
 The execution planner: Kahn's algorithm, level by level.

 `PlanDAG` keeps the in-degree map, the adjacency map and the list of stages as variables that
 its loops update; the contract is stated with the walks of module Graphs.
 */
module Planner {
  import opened Wrappers
  import opened Graphs

  datatype ExecutionStage = ExecutionStage(targets: seq<string>, maxConcurrency: int)

  datatype PlanResult =
    | Plan(stages: seq<ExecutionStage>)
    | TargetNotFound(name: string)
    | CycleDetected

  // ----- Sorting names

  /** Strict lexicographic order. */
  predicate Before(a: string, b: string) {
    b != [] && (a == [] || a[0] < b[0] || (a[0] == b[0] && Before(a[1..], b[1..])))
  }

  predicate Sorted(s: seq<string>) {
    forall i, j :: 0 <= i < j < |s| ==> Before(s[i], s[j])
  }

  /** At the first place where two names differ, the smaller character or the end of the name comes first. */
  lemma {:induction false} BeforeIsLexicographic(a: string, b: string)
    ensures Before(a, b) <==> exists k: nat :: DiffersAt(a, b, k)
  {
    if a != [] && b != [] && a[0] == b[0] {
      BeforeIsLexicographic(a[1..], b[1..]);
      if k: nat :| DiffersAt(a[1..], b[1..], k) {
        assert a[..k + 1] == [a[0]] + a[1..][..k] && b[..k + 1] == [b[0]] + b[1..][..k];
        assert DiffersAt(a, b, k + 1);
      }
      if k: nat :| DiffersAt(a, b, k) {
        assert k != 0;
        assert a[1..][..k - 1] == a[..k][1..] && b[1..][..k - 1] == b[..k][1..];
        assert DiffersAt(a[1..], b[1..], k - 1);
      }
    } else {
      assert DiffersAt(a, b, 0) <==> Before(a, b);
      assert forall k: nat :: DiffersAt(a, b, k) && k > 0 ==> a[..k][0] == b[..k][0];
    }
  }

  ghost predicate DiffersAt(a: string, b: string, k: nat) {
    k <= |a| && k < |b| && a[..k] == b[..k] && (k == |a| || a[k] < b[k])
  }

  lemma {:induction false} BeforeTransitive(a: string, b: string, c: string)
    requires Before(a, b) && Before(b, c)
    ensures Before(a, c)
  {
    if a != [] && a[0] == b[0] == c[0] {
      BeforeTransitive(a[1..], b[1..], c[1..]);
    }
  }

  lemma {:induction false} BeforeTotal(a: string, b: string)
    ensures a == b || Before(a, b) || Before(b, a)
    ensures !(Before(a, b) && Before(b, a)) && !Before(a, a)
  {
    if a != [] && b != [] {
      BeforeTotal(a[1..], b[1..]);
      assert a == [a[0]] + a[1..] && b == [b[0]] + b[1..];
    }
    if a != [] {
      BeforeTotal(a[1..], a[1..]);
    }
  }

  method InsertSorted(s: seq<string>, t: string) returns (r: seq<string>)
    requires Sorted(s) && t !in s
    ensures Sorted(r) && Names(r) == Names(s) + {t} && |r| == |s| + 1
  {
    var k := 0;
    while k < |s| && Before(s[k], t)
      invariant 0 <= k <= |s|
      invariant forall i :: 0 <= i < k ==> Before(s[i], t)
    {
      k := k + 1;
    }
    forall i | k <= i < |s|
      ensures Before(t, s[i])
    {
      BeforeTotal(s[k], t);
      if k < i {
        BeforeTransitive(t, s[k], s[i]);
      }
    }
    r := s[..k] + [t] + s[k..];
    assert s == s[..k] + s[k..];
  }

  /** Lists a set of names in lexicographic order. */
  method SortNames(names: set<string>) returns (r: seq<string>)
    ensures Sorted(r) && Names(r) == names && |r| == |names|
  {
    r := [];
    var rest := names;
    while rest != {}
      invariant rest <= names && Names(r) == names - rest
      invariant Sorted(r) && |r| == |names| - |rest|
    {
      var t :| t in rest;
      r := InsertSorted(r, t);
      rest := rest - {t};
    }
  }

  // ----- In-degrees

  /** How many dependencies on `v` come from outside `done`. */
  ghost function InCount(deps: seq<Dependency>, v: string, done: set<string>): nat {
    if deps == [] then 0
    else
      var n := |deps| - 1;
      InCount(deps[..n], v, done) + (if deps[n].to == v && deps[n].from !in done then 1 else 0)
  }

  /** The heads of the edges leaving `t`, in input order. */
  ghost function Successors(deps: seq<Dependency>, t: string): seq<string> {
    if deps == [] then []
    else
      var n := |deps| - 1;
      Successors(deps[..n], t) + (if deps[n].from == t then [deps[n].to] else [])
  }

  lemma {:induction false} InCountZero(deps: seq<Dependency>, v: string, done: set<string>)
    ensures InCount(deps, v, done) == 0 <==> forall u :: Edge(deps, u, v) ==> u in done
  {
    if deps != [] {
      var n := |deps| - 1;
      InCountZero(deps[..n], v, done);
      assert deps == deps[..n] + [deps[n]];
      assert forall u :: Edge(deps, u, v) <==> Edge(deps[..n], u, v) || deps[n] == Dependency(u, v);
      assert deps[n].to == v ==> Edge(deps, deps[n].from, v);
    }
  }

  lemma {:induction false} InCountRemove(deps: seq<Dependency>, v: string, done: set<string>, t: string)
    requires t !in done
    ensures InCount(deps, v, done + {t}) == InCount(deps, v, done) - multiset(Successors(deps, t))[v]
  {
    if deps != [] {
      InCountRemove(deps[..|deps| - 1], v, done, t);
    }
  }

  lemma {:induction false} SuccessorEdge(deps: seq<Dependency>, t: string, v: string)
    ensures v in Successors(deps, t) <==> Edge(deps, t, v)
  {
    if deps != [] {
      var n := |deps| - 1;
      SuccessorEdge(deps[..n], t, v);
      assert deps == deps[..n] + [deps[n]];
    }
  }

  /** Reading an absent key of an integer map yields zero. */
  function Degree(m: map<string, int>, k: string): int {
    if k in m then m[k] else 0
  }

  /** `r` is `m` with each degree lowered once per occurrence in `gone`. */
  ghost predicate Lowered(m: map<string, int>, r: map<string, int>, gone: seq<string>) {
    && r.Keys == m.Keys + Names(gone)
    && forall v :: v in r ==> r[v] == Degree(m, v) - multiset(gone)[v]
  }

  lemma {:induction false} LoweredStep(m: map<string, int>, r: map<string, int>, gone: seq<string>, x: string)
    requires Lowered(m, r, gone)
    ensures Lowered(m, r[x := Degree(r, x) - 1], gone + [x])
  {
    assert Names(gone + [x]) == Names(gone) + {x};
    if x !in r {
      assert x !in gone;
    }
  }

  /** Lowers the degree of every neighbour in the list, once per occurrence. */
  method LowerDegrees(m: map<string, int>, neighbours: seq<string>) returns (r: map<string, int>)
    ensures Lowered(m, r, neighbours)
  {
    r := m;
    assert Names(neighbours[..0]) == {};
    for i := 0 to |neighbours|
      invariant Lowered(m, r, neighbours[..i])
    {
      var name := neighbours[i];
      LoweredStep(m, r, neighbours[..i], name);
      r := r[name := Degree(r, name) - 1];
      assert neighbours[..i + 1] == neighbours[..i] + [name];
    }
    assert neighbours[..|neighbours|] == neighbours;
  }

  /** The in-degree map when exactly `done` has been taken out. */
  ghost predicate Tracks(m: map<string, int>, deps: seq<Dependency>, names: set<string>, done: set<string>) {
    && m.Keys == names - done
    && forall v :: v in m ==> m[v] == InCount(deps, v, done)
  }

  ghost predicate Adjacency(adj: map<string, seq<string>>, deps: seq<Dependency>, names: set<string>) {
    && adj.Keys == names
    && forall t :: t in adj ==> adj[t] == Successors(deps, t)
  }

  method BuildGraph(targets: seq<string>, deps: seq<Dependency>)
    returns (adj: map<string, seq<string>>, inDegree: map<string, int>)
    requires KnownEndpoints(Names(targets), deps)
    ensures Adjacency(adj, deps, Names(targets))
    ensures Tracks(inDegree, deps, Names(targets), {})
  {
    adj, inDegree := EmptyGraph(targets);
    for i := 0 to |deps|
      invariant Adjacency(adj, deps[..i], Names(targets))
      invariant Tracks(inDegree, deps[..i], Names(targets), {})
    {
      var d := deps[i];
      assert deps[..i + 1] == deps[..i] + [d];
      GraphStep(adj, inDegree, deps[..i], Names(targets), d);
      adj := adj[d.from := adj[d.from] + [d.to]];
      inDegree := inDegree[d.to := inDegree[d.to] + 1];
    }
    assert deps[..|deps|] == deps;
  }

  method EmptyGraph(targets: seq<string>) returns (adj: map<string, seq<string>>, inDegree: map<string, int>)
    ensures Adjacency(adj, [], Names(targets))
    ensures Tracks(inDegree, [], Names(targets), {})
  {
    adj, inDegree := map[], map[];
    for i := 0 to |targets|
      invariant adj.Keys == inDegree.Keys == Names(targets[..i])
      invariant forall t :: t in adj ==> adj[t] == [] && inDegree[t] == 0
    {
      assert targets[..i + 1] == targets[..i] + [targets[i]];
      adj := adj[targets[i] := []];
      inDegree := inDegree[targets[i] := 0];
    }
    assert targets[..|targets|] == targets;
  }

  lemma {:induction false} GraphStep(
    adj: map<string, seq<string>>, inDegree: map<string, int>, deps: seq<Dependency>, names: set<string>, d: Dependency)
    requires Adjacency(adj, deps, names) && Tracks(inDegree, deps, names, {}) && d.from in names && d.to in names
    ensures Adjacency(adj[d.from := adj[d.from] + [d.to]], deps + [d], names)
    ensures Tracks(inDegree[d.to := inDegree[d.to] + 1], deps + [d], names, {})
  {
    assert (deps + [d])[..|deps|] == deps;
  }

  /** What has been taken out so far has no dependency left outside. */
  ghost predicate Closed(deps: seq<Dependency>, done: set<string>) {
    forall u, v :: Edge(deps, u, v) && v in done ==> u in done
  }

  /** Takes out every ready name and lowers the degrees of what waited for it. */
  method TakeReady(
    m: map<string, int>, adj: map<string, seq<string>>, ready: seq<string>,
    ghost deps: seq<Dependency>, ghost names: set<string>, ghost done: set<string>)
    returns (r: map<string, int>)
    requires KnownEndpoints(names, deps) && Adjacency(adj, deps, names)
    requires Tracks(m, deps, names, done) && Closed(deps, done)
    requires Distinct(ready) && Names(ready) <= m.Keys
    requires forall t :: t in ready ==> m[t] == 0
    ensures Tracks(r, deps, names, done + Names(ready))
  {
    r := m;
    assert done + Names(ready[..0]) == done;
    for i := 0 to |ready|
      invariant Tracks(r, deps, names, done + Names(ready[..i]))
    {
      var t := ready[i];
      ghost var before := done + Names(ready[..i]);
      assert ready[..i + 1] == ready[..i] + [t];
      assert done + Names(ready[..i + 1]) == before + {t};
      assert t in Names(ready);
      ghost var lowered := r - {t};
      r := LowerDegrees(r - {t}, adj[t]);
      forall v | v in r
        ensures v in lowered && r[v] == InCount(deps, v, before + {t})
      {
        InCountRemove(deps, v, before, t);
        if v in adj[t] {
          SuccessorEdge(deps, t, v);
          NeighbourStays(m, ready, deps, names, done, t, v);
        }
      }
    }
    assert ready[..|ready|] == ready;
  }

  /** A neighbour of a ready name is neither taken out already nor ready itself. */
  lemma {:induction false} NeighbourStays(
    m: map<string, int>, ready: seq<string>, deps: seq<Dependency>, names: set<string>, done: set<string>,
    t: string, v: string)
    requires KnownEndpoints(names, deps) && Tracks(m, deps, names, done) && Closed(deps, done)
    requires Names(ready) <= m.Keys && forall x :: x in ready ==> m[x] == 0
    requires t in ready && Edge(deps, t, v)
    ensures v in names - done - Names(ready)
  {
    assert t in Names(ready);
    if v in Names(ready) {
      assert v in ready;
      InCountZero(deps, v, done);
    }
  }

  // ----- The planner

  function StageTargets(stages: seq<ExecutionStage>): seq<seq<string>> {
    seq(|stages|, i requires 0 <= i < |stages| => stages[i].targets)
  }

  ghost predicate StageShape(stages: seq<ExecutionStage>, maxConcurrency: int) {
    forall i :: 0 <= i < |stages| ==>
      && stages[i].targets != []
      && Sorted(stages[i].targets)
      && stages[i].maxConcurrency == (if maxConcurrency <= 0 then |stages[i].targets| else maxConcurrency)
  }

  /** The first endpoint, scanning the dependencies in order, that is no target. */
  ghost predicate FirstUnknown(names: set<string>, deps: seq<Dependency>, i: nat, name: string) {
    && i < |deps|
    && KnownEndpoints(names, deps[..i])
    && (if deps[i].from in names then name == deps[i].to else name == deps[i].from)
    && name !in names
  }

  method FindUnknown(names: set<string>, deps: seq<Dependency>) returns (r: Option<string>)
    ensures r.None? <==> KnownEndpoints(names, deps)
    ensures r.Some? ==> exists i :: FirstUnknown(names, deps, i, r.value)
  {
    for i := 0 to |deps|
      invariant KnownEndpoints(names, deps[..i])
    {
      if deps[i].from !in names {
        assert FirstUnknown(names, deps, i, deps[i].from);
        return Some(deps[i].from);
      }
      if deps[i].to !in names {
        assert FirstUnknown(names, deps, i, deps[i].to);
        return Some(deps[i].to);
      }
      assert deps[..i + 1] == deps[..i] + [deps[i]];
    }
    assert deps[..|deps|] == deps;
    return None;
  }

  /** The state of the main loop: `done` is staged, properly and as early as possible. */
  ghost predicate Layered(deps: seq<Dependency>, stages: seq<seq<string>>, done: set<string>) {
    && ExactlyOnce(stages, done)
    && PredecessorsEarlier(deps, stages)
    && HeldBack(deps, stages)
    && Closed(deps, done)
  }

  /** The names that can run next: nothing they wait for is outside `done`. */
  ghost predicate IsReadySet(deps: seq<Dependency>, names: set<string>, done: set<string>, ready: seq<string>) {
    && Distinct(ready)
    && forall t :: t in ready <==> t in names - done && (forall u :: Edge(deps, u, t) ==> u in done)
  }

  /** Adding the ready names as a new stage keeps the layering. */
  lemma {:induction false} AddStage(
    deps: seq<Dependency>, stages: seq<seq<string>>, names: set<string>, done: set<string>, ready: seq<string>)
    requires KnownEndpoints(names, deps) && done <= names
    requires Layered(deps, stages, done) && IsReadySet(deps, names, done, ready)
    requires stages != [] ==> WaitedOnLast(deps, stages, done, names)
    ensures Layered(deps, stages + [ready], done + Names(ready))
    ensures WaitedOnLast(deps, stages + [ready], done + Names(ready), names)
  {
    AddStageOnce(stages, done, ready, names);
    AddStageEarlier(deps, stages, done, ready);
    AddStageHeldBack(deps, stages, names, done, ready);
    var s := stages + [ready];
    forall t | t in names - (done + Names(ready)) && (forall u :: Edge(deps, u, t) ==> u in done + Names(ready))
      ensures Waits(deps, s[|s| - 1], t)
    {
      assert t !in ready;
      var u :| Edge(deps, u, t) && u !in done;
      assert u in Names(ready);
    }
  }

  lemma {:induction false} AddStageEarlier(
    deps: seq<Dependency>, stages: seq<seq<string>>, done: set<string>, ready: seq<string>)
    requires PredecessorsEarlier(deps, stages) && ExactlyOnce(stages, done)
    requires forall t, u :: t in ready && Edge(deps, u, t) ==> u in done
    ensures PredecessorsEarlier(deps, stages + [ready])
  {
    var s, n := stages + [ready], |stages|;
    forall i, t, u | 0 <= i < |s| && t in s[i] && Edge(deps, u, t)
      ensures exists j :: 0 <= j < i && u in s[j]
    {
      if i < n {
        assert t in stages[i];
        var j :| 0 <= j < i && u in stages[j];
        assert u in s[j];
      } else {
        assert u in done;
        var j :| 0 <= j < |stages| && u in stages[j];
        assert u in s[j];
      }
    }
  }

  lemma {:induction false} AddStageHeldBack(
    deps: seq<Dependency>, stages: seq<seq<string>>, names: set<string>, done: set<string>, ready: seq<string>)
    requires HeldBack(deps, stages) && IsReadySet(deps, names, done, ready)
    requires stages != [] ==> WaitedOnLast(deps, stages, done, names)
    ensures HeldBack(deps, stages + [ready])
  {
    var s, n := stages + [ready], |stages|;
    forall i, k, t | 0 <= k && i == k + 1 && i < |s| && t in s[i]
      ensures Waits(deps, s[k], t)
    {
      assert s[k] == stages[k];
      if i == n {
        assert k == |stages| - 1 && t in ready;
        assert Waits(deps, stages[|stages| - 1], t);
      } else {
        assert t in stages[i];
      }
      assert Waits(deps, stages[k], t);
    }
  }

  lemma {:induction false} AddStageOnce(
    stages: seq<seq<string>>, done: set<string>, ready: seq<string>, names: set<string>)
    requires ExactlyOnce(stages, done) && Distinct(ready) && forall t :: t in ready ==> t in names - done
    ensures ExactlyOnce(stages + [ready], done + Names(ready))
  {
    var s, n := stages + [ready], |stages|;
    assert s[n] == ready && forall i :: 0 <= i < n ==> s[i] == stages[i];
    forall t | t in done + Names(ready)
      ensures exists i :: 0 <= i < |s| && t in s[i]
    {
      if t in done {
        var i :| 0 <= i < |stages| && t in stages[i];
        assert t in s[i];
      } else {
        assert t in s[n];
      }
    }
    forall i, t | 0 <= i < n && t in stages[i]
      ensures t in done
    {
      var j :| 0 <= j < |stages[i]| && stages[i][j] == t;
    }
  }

  /** Whatever becomes ready next waits for something in the last stage. */
  ghost predicate WaitedOnLast(deps: seq<Dependency>, stages: seq<seq<string>>, done: set<string>, names: set<string>)
    requires stages != []
  {
    forall t {:trigger Waits(deps, stages[|stages| - 1], t)} ::
      t in names - done && (forall u :: Edge(deps, u, t) ==> u in done) ==>
        Waits(deps, stages[|stages| - 1], t)
  }

  /** No ready name although some are left: the rest has no source, hence a cycle. */
  lemma {:induction false} StuckIsCyclic(deps: seq<Dependency>, names: set<string>, done: set<string>)
    requires KnownEndpoints(names, deps) && done < names && Closed(deps, done)
    requires forall t :: t in names - done ==> !(forall u :: Edge(deps, u, t) ==> u in done)
    ensures Cyclic(deps)
  {
    var rest := names - done;
    var x :| x in names && x !in done;
    assert x in rest;
    forall v | v in rest
      ensures HasPredecessor(deps, rest, v)
    {
      var u :| Edge(deps, u, v) && u !in done;
      assert u in rest;
    }
    NoSourceMeansCycle(deps, rest);
  }

  method ReadyNames(
    inDegree: map<string, int>, ghost deps: seq<Dependency>, ghost names: set<string>, ghost done: set<string>)
    returns (ready: seq<string>)
    requires Tracks(inDegree, deps, names, done)
    ensures Sorted(ready) && IsReadySet(deps, names, done, ready)
    ensures forall t :: t in ready ==> t in inDegree && inDegree[t] == 0
  {
    var zero := set t | t in inDegree && inDegree[t] == 0;
    ready := SortNames(zero);
    forall t
      ensures t in ready <==> t in zero
      ensures t in ready <==> t in names - done && (forall u :: Edge(deps, u, t) ==> u in done)
    {
      assert t in ready <==> t in Names(ready);
      InCountZero(deps, t, done);
    }
    forall i, j | 0 <= i < j < |ready|
      ensures ready[i] != ready[j]
    {
      BeforeTotal(ready[i], ready[j]);
    }
  }

  /** What the main loop has established once `done` is staged. */
  ghost predicate Staged(
    stages: seq<ExecutionStage>, deps: seq<Dependency>, names: set<string>, done: set<string>, maxConcurrency: int)
  {
    && done <= names
    && Layered(deps, StageTargets(stages), done)
    && (stages != [] ==> WaitedOnLast(deps, StageTargets(stages), done, names))
    && StageShape(stages, maxConcurrency)
  }

  lemma {:induction false} StagedStep(
    stages: seq<ExecutionStage>, deps: seq<Dependency>, names: set<string>, done: set<string>, maxConcurrency: int,
    stage: ExecutionStage)
    requires KnownEndpoints(names, deps) && Staged(stages, deps, names, done, maxConcurrency)
    requires StageShape([stage], maxConcurrency) && IsReadySet(deps, names, done, stage.targets)
    ensures Staged(stages + [stage], deps, names, done + Names(stage.targets), maxConcurrency)
    ensures |done + Names(stage.targets)| == |done| + |stage.targets|
  {
    assert StageTargets(stages + [stage]) == StageTargets(stages) + [stage.targets];
    AddStage(deps, StageTargets(stages), names, done, stage.targets);
    ShapeStep(stages, stage, maxConcurrency);
    ReadyCount(deps, names, done, stage.targets);
  }

  lemma {:induction false} ShapeStep(stages: seq<ExecutionStage>, stage: ExecutionStage, maxConcurrency: int)
    requires StageShape(stages, maxConcurrency) && StageShape([stage], maxConcurrency)
    ensures StageShape(stages + [stage], maxConcurrency)
  {
    assert [stage][0] == stage;
  }

  lemma {:induction false} ReadyCount(deps: seq<Dependency>, names: set<string>, done: set<string>, ready: seq<string>)
    requires done <= names && IsReadySet(deps, names, done, ready)
    ensures |done + Names(ready)| == |done| + |ready| && done + Names(ready) <= names
  {
    DistinctCardinality(ready);
    assert done !! Names(ready);
  }

  /** A closed set that holds every name is all of them. */
  lemma {:induction false} SameCardinality(a: set<string>, b: set<string>)
    requires a <= b && |a| == |b|
    ensures a == b
  {
    assert b == a + (b - a);
  }

  /** One round: the ready names as a stage, and the degrees after taking them out. */
  method NextStage(
    degrees: map<string, int>, adj: map<string, seq<string>>, maxConcurrency: int,
    ghost deps: seq<Dependency>, ghost names: set<string>, ghost done: set<string>)
    returns (stage: ExecutionStage, rest: map<string, int>)
    requires KnownEndpoints(names, deps) && Adjacency(adj, deps, names)
    requires Tracks(degrees, deps, names, done) && done <= names && Closed(deps, done)
    ensures stage.targets == [] ==> done == names || Cyclic(deps)
    ensures stage.targets != [] ==> StageShape([stage], maxConcurrency)
    ensures IsReadySet(deps, names, done, stage.targets)
    ensures Tracks(rest, deps, names, done + Names(stage.targets))
  {
    var ready := ReadyNames(degrees, deps, names, done);
    if |ready| == 0 && done != names {
      StuckIsCyclic(deps, names, done);
    }
    rest := TakeReady(degrees, adj, ready, deps, names, done);
    stage := ExecutionStage(ready, if maxConcurrency <= 0 then |ready| else maxConcurrency);
  }

  /** The level loop: `count` is the length of the target list. */
  method Stratify(
    count: nat, deps: seq<Dependency>, names: set<string>,
    adj: map<string, seq<string>>, degrees: map<string, int>, maxConcurrency: int)
    returns (ok: bool, stages: seq<ExecutionStage>)
    requires KnownEndpoints(names, deps) && Adjacency(adj, deps, names)
    requires Tracks(degrees, deps, names, {}) && |names| <= count
    ensures ok ==> |names| == count && Staged(stages, deps, names, names, maxConcurrency)
    ensures !ok ==> |names| < count || Cyclic(deps)
  {
    stages := [];
    var inDegree := degrees;
    var processed := 0;
    ghost var done: set<string> := {};
    while processed < count
      invariant Staged(stages, deps, names, done, maxConcurrency)
      invariant Tracks(inDegree, deps, names, done) && processed == |done|
      decreases count - processed
    {
      var stage, rest := NextStage(inDegree, adj, maxConcurrency, deps, names, done);
      if |stage.targets| == 0 {
        return false, [];
      }
      StagedStep(stages, deps, names, done, maxConcurrency, stage);
      stages := stages + [stage];
      inDegree := rest;
      done := done + Names(stage.targets);
      processed := processed + |stage.targets|;
    }
    SubsetCardinality(done, names);
    SameCardinality(done, names);
    return true, stages;
  }

  /**
   Plans from dependencies. A plan comes back exactly when the targets are distinct, every
   endpoint is a target and the edges have no cycle; duplicated targets end in the cycle error,
   because the loop counts list positions while the degree map counts names.
   */
  method PlanDAG(targets: seq<string>, deps: seq<Dependency>, maxConcurrency: int) returns (r: PlanResult)
    ensures r.Plan? <==> Plannable(targets, deps)
    ensures r.TargetNotFound? <==> !KnownEndpoints(Names(targets), deps)
    ensures r.TargetNotFound? ==> exists i :: FirstUnknown(Names(targets), deps, i, r.name)
    ensures r.Plan? ==> StageShape(r.stages, maxConcurrency)
    ensures r.Plan? ==> forall i :: 0 <= i < |r.stages| ==>
      r.stages[i].maxConcurrency == if maxConcurrency > 0 then maxConcurrency else |r.stages[i].targets|
    ensures r.Plan? ==> ExactlyOnce(StageTargets(r.stages), Names(targets))
    ensures r.Plan? ==> forall i, t :: 0 <= i < |r.stages| && t in r.stages[i].targets ==> LongestChain(deps, t, i)
    ensures r.Plan? ==> PredecessorsEarlier(deps, StageTargets(r.stages))
  {
    var names := Names(targets);
    var unknown := FindUnknown(names, deps);
    if unknown.Some? { return TargetNotFound(unknown.value); }

    DistinctCardinality(targets);
    var adj, inDegree := BuildGraph(targets, deps);
    var ok, stages := Stratify(|targets|, deps, names, adj, inDegree, maxConcurrency);
    if !ok { return CycleDetected; }
    LayeredIsAcyclic(deps, StageTargets(stages), names);
    forall i, t | 0 <= i < |stages| && t in stages[i].targets
      ensures LongestChain(deps, t, i)
    {
      StageIsLongestChain(deps, StageTargets(stages), i, t);
    }
    r := Plan(stages);
  }
}
