/**
 Dependency graphs over target names.

 A dependency `from -> to` says that `to` must wait for `from`. Everything here is stated
 through walks, without reference to any sorting algorithm: a graph is cyclic when some walk
 of at least one edge returns to where it began, and a layering assigns every name a stage.
 */
module Graphs {

  datatype Dependency = Dependency(from: string, to: string)

  predicate Edge(deps: seq<Dependency>, u: string, v: string) {
    Dependency(u, v) in deps
  }

  /** Consecutive names of `p` are joined by edges. */
  ghost predicate Walk(deps: seq<Dependency>, p: seq<string>) {
    forall i, j :: 0 <= i && j == i + 1 && j < |p| ==> Edge(deps, p[i], p[j])
  }

  ghost predicate ClosedWalk(deps: seq<Dependency>, p: seq<string>) {
    && |p| >= 2
    && Walk(deps, p)
    && p[0] == p[|p| - 1]
  }

  ghost predicate Cyclic(deps: seq<Dependency>) {
    exists p :: ClosedWalk(deps, p)
  }

  ghost predicate Distinct<T>(s: seq<T>) {
    forall i, j :: 0 <= i < j < |s| ==> s[i] != s[j]
  }

  predicate KnownEndpoints(names: set<string>, deps: seq<Dependency>) {
    forall d :: d in deps ==> d.from in names && d.to in names
  }

  function Names(targets: seq<string>): set<string> {
    set t | t in targets
  }

  /** What an execution plan needs: distinct targets, known endpoints and no cycle. */
  ghost predicate Plannable(targets: seq<string>, deps: seq<Dependency>) {
    && Distinct(targets)
    && KnownEndpoints(Names(targets), deps)
    && !Cyclic(deps)
  }

  // ----- Distinctness and cardinality

  lemma {:induction false} DistinctCardinality(s: seq<string>)
    ensures |Names(s)| <= |s|
    ensures |Names(s)| == |s| <==> Distinct(s)
  {
    if s != [] {
      var n := |s| - 1;
      var front := s[..n];
      DistinctCardinality(front);
      assert s == front + [s[n]];
      assert Names(s) == Names(front) + {s[n]};
      if s[n] in front {
        assert Names(s) == Names(front);
      }
    }
  }

  lemma {:induction false} Pigeonhole(p: seq<string>, s: set<string>)
    requires forall x :: x in p ==> x in s
    requires |p| > |s|
    ensures !Distinct(p)
  {
    if Distinct(p) {
      DistinctCardinality(p);
      assert Names(p) <= s;
      SubsetCardinality(Names(p), s);
    }
  }

  lemma {:induction false} SubsetCardinality(a: set<string>, b: set<string>)
    requires a <= b
    ensures |a| <= |b|
  {
    assert b == a + (b - a);
  }

  // ----- Cycles

  ghost predicate HasPredecessor(deps: seq<Dependency>, s: set<string>, v: string) {
    exists u :: u in s && Edge(deps, u, v)
  }

  /** Everything in `s` has a predecessor in `s`. */
  ghost predicate NoSource(deps: seq<Dependency>, s: set<string>) {
    forall v {:trigger HasPredecessor(deps, s, v)} :: v in s ==> HasPredecessor(deps, s, v)
  }

  /** A walk of `n` edges inside `s`, when every member of `s` has a predecessor in `s`. */
  lemma {:induction false} BackwardWalk(deps: seq<Dependency>, s: set<string>, n: nat) returns (p: seq<string>)
    requires s != {}
    requires NoSource(deps, s)
    ensures |p| == n + 1 && Walk(deps, p)
    ensures forall x :: x in p ==> x in s
  {
    if n == 0 {
      var v :| v in s;
      p := [v];
    } else {
      var q := BackwardWalk(deps, s, n - 1);
      assert HasPredecessor(deps, s, q[0]);
      var u :| u in s && Edge(deps, u, q[0]);
      p := [u] + q;
    }
  }

  /** A finite non-empty set in which everything has a predecessor contains a cycle. */
  lemma {:induction false} NoSourceMeansCycle(deps: seq<Dependency>, s: set<string>)
    requires s != {}
    requires NoSource(deps, s)
    ensures Cyclic(deps)
  {
    var p := BackwardWalk(deps, s, |s|);
    Pigeonhole(p, s);
    var i, j :| 0 <= i < j < |p| && p[i] == p[j];
    assert ClosedWalk(deps, p[i..j + 1]);
  }

  /** Along a walk, a rank that grows over every edge grows by at least the walk's length. */
  lemma {:induction false} RankGrows(deps: seq<Dependency>, rank: map<string, int>, p: seq<string>)
    requires forall d :: d in deps ==> d.from in rank && d.to in rank && rank[d.from] < rank[d.to]
    requires Walk(deps, p) && |p| >= 1 && p[0] in rank
    ensures p[|p| - 1] in rank && rank[p[|p| - 1]] >= rank[p[0]] + |p| - 1
  {
    if |p| > 1 {
      var q := p[..|p| - 1];
      RankGrows(deps, rank, q);
      assert Edge(deps, p[|p| - 2], p[|p| - 1]);
    }
  }

  lemma {:induction false} RankedIsAcyclic(deps: seq<Dependency>, rank: map<string, int>)
    requires forall d :: d in deps ==> d.from in rank && d.to in rank && rank[d.from] < rank[d.to]
    ensures !Cyclic(deps)
  {
    if Cyclic(deps) {
      var p :| ClosedWalk(deps, p);
      assert Edge(deps, p[0], p[1]);
      RankGrows(deps, rank, p);
    }
  }

  // ----- Reversal

  ghost function Reversed(deps: seq<Dependency>): (r: seq<Dependency>)
    ensures |r| == |deps|
    ensures forall i :: 0 <= i < |deps| ==> r[i] == Dependency(deps[i].to, deps[i].from)
  {
    seq(|deps|, i requires 0 <= i < |deps| => Dependency(deps[i].to, deps[i].from))
  }

  lemma {:induction false} ReversedEdge(deps: seq<Dependency>, u: string, v: string)
    ensures Edge(Reversed(deps), u, v) <==> Edge(deps, v, u)
  {
    var r := Reversed(deps);
    if Edge(r, u, v) {
      var i :| 0 <= i < |r| && r[i] == Dependency(u, v);
      assert deps[i] == Dependency(v, u);
    }
    if Edge(deps, v, u) {
      var i :| 0 <= i < |deps| && deps[i] == Dependency(v, u);
      assert r[i] == Dependency(u, v);
    }
  }

  lemma {:induction false} ReversedCycle(deps: seq<Dependency>)
    requires Cyclic(Reversed(deps))
    ensures Cyclic(deps)
  {
    var p :| ClosedWalk(Reversed(deps), p);
    var n := |p|;
    var q := seq(n, i requires 0 <= i < n => p[n - 1 - i]);
    forall i, j | 0 <= i && j == i + 1 && j < n
      ensures Edge(deps, q[i], q[j])
    {
      assert Edge(Reversed(deps), p[n - 1 - j], p[n - 1 - i]);
      ReversedEdge(deps, q[j], q[i]);
    }
    assert ClosedWalk(deps, q);
  }

  // ----- Layerings

  /** Stages hold every member of `names` exactly once and nothing else. */
  ghost predicate ExactlyOnce(stages: seq<seq<string>>, names: set<string>) {
    && (forall i, j :: 0 <= i < |stages| && 0 <= j < |stages[i]| ==> stages[i][j] in names)
    && (forall t :: t in names ==> exists i :: 0 <= i < |stages| && t in stages[i])
    && (forall i, i', t :: 0 <= i < |stages| && 0 <= i' < |stages| && t in stages[i] && t in stages[i'] ==> i == i')
    && (forall i :: 0 <= i < |stages| ==> Distinct(stages[i]))
  }

  /** Every predecessor of a staged name sits in a strictly earlier stage. */
  ghost predicate PredecessorsEarlier(deps: seq<Dependency>, stages: seq<seq<string>>) {
    forall i, t, u :: 0 <= i < |stages| && t in stages[i] && Edge(deps, u, t) ==>
      exists j :: 0 <= j < i && u in stages[j]
  }

  /** `t` waits for something in `stage`. */
  ghost predicate Waits(deps: seq<Dependency>, stage: seq<string>, t: string) {
    exists u :: u in stage && Edge(deps, u, t)
  }

  /** Every name past the first stage is held back by something in the stage just before. */
  ghost predicate HeldBack(deps: seq<Dependency>, stages: seq<seq<string>>) {
    forall i, k, t {:trigger stages[i], Waits(deps, stages[k], t)} ::
      0 <= k && i == k + 1 && i < |stages| && t in stages[i] ==> Waits(deps, stages[k], t)
  }

  /** `t` ends a dependency chain of `n` edges, and none longer. */
  ghost predicate LongestChain(deps: seq<Dependency>, t: string, n: nat) {
    && (exists p :: Walk(deps, p) && |p| == n + 1 && p[n] == t)
    && (forall p :: Walk(deps, p) && |p| >= 1 && p[|p| - 1] == t ==> |p| <= n + 1)
  }

  lemma {:induction false} ChainOfLength(deps: seq<Dependency>, stages: seq<seq<string>>, i: nat, t: string)
    returns (p: seq<string>)
    requires HeldBack(deps, stages)
    requires i < |stages| && t in stages[i]
    ensures Walk(deps, p) && |p| == i + 1 && p[i] == t
  {
    if i == 0 {
      p := [t];
    } else {
      assert Waits(deps, stages[i - 1], t);
      var u :| u in stages[i - 1] && Edge(deps, u, t);
      var q := ChainOfLength(deps, stages, i - 1, u);
      p := q + [t];
    }
  }

  lemma {:induction false} ChainsAreShort(deps: seq<Dependency>, stages: seq<seq<string>>, i: nat, p: seq<string>)
    requires PredecessorsEarlier(deps, stages)
    requires Walk(deps, p) && |p| >= 1 && i < |stages| && p[|p| - 1] in stages[i]
    ensures |p| <= i + 1
    decreases |p|
  {
    if |p| > 1 {
      assert Edge(deps, p[|p| - 2], p[|p| - 1]);
      var j :| 0 <= j < i && p[|p| - 2] in stages[j];
      ChainsAreShort(deps, stages, j, p[..|p| - 1]);
    }
  }

  /** In such a layering a name's stage is the length of the longest chain that ends at it. */
  lemma {:induction false} StageIsLongestChain(deps: seq<Dependency>, stages: seq<seq<string>>, i: nat, t: string)
    requires PredecessorsEarlier(deps, stages) && HeldBack(deps, stages)
    requires i < |stages| && t in stages[i]
    ensures LongestChain(deps, t, i)
  {
    var p := ChainOfLength(deps, stages, i, t);
    forall q | Walk(deps, q) && |q| >= 1 && q[|q| - 1] == t
      ensures |q| <= i + 1
    {
      ChainsAreShort(deps, stages, i, q);
    }
  }

  /** No staging that respects the edges, however it was found, puts a name earlier. */
  lemma {:induction false} NoStagingIsEarlier(
    deps: seq<Dependency>, stages: seq<seq<string>>, other: seq<seq<string>>, i: nat, k: nat, t: string)
    requires HeldBack(deps, stages) && PredecessorsEarlier(deps, other)
    requires i < |stages| && t in stages[i]
    requires k < |other| && t in other[k]
    ensures i <= k
  {
    var p := ChainOfLength(deps, stages, i, t);
    ChainsAreShort(deps, other, k, p);
  }

  /** Edges between staged names run strictly forward, so staged graphs have no cycle. */
  lemma {:induction false} LayeredIsAcyclic(deps: seq<Dependency>, stages: seq<seq<string>>, names: set<string>)
    requires PredecessorsEarlier(deps, stages) && ExactlyOnce(stages, names)
    requires KnownEndpoints(names, deps)
    ensures !Cyclic(deps)
  {
    var rank: map<string, int> :=
      map t | t in names :: StageOf(stages, t, names);
    forall d | d in deps
      ensures d.from in rank && d.to in rank && rank[d.from] < rank[d.to]
    {
      assert Edge(deps, d.from, d.to);
      var j :| 0 <= j < StageOf(stages, d.to, names) && d.from in stages[j];
    }
    RankedIsAcyclic(deps, rank);
  }

  ghost function StageOf(stages: seq<seq<string>>, t: string, names: set<string>): (i: nat)
    requires ExactlyOnce(stages, names) && t in names
    ensures i < |stages| && t in stages[i]
  {
    var i :| 0 <= i < |stages| && t in stages[i];
    i
  }
}
