/**
 The Karpenter executor: NodePools deleted and recreated.

 A run visits the names it was given or discovered. A pool without a spec is an error that ends
 the run, and so does a failing call; both leave the pool in place.
 */
module KarpenterExecutor {
  import opened Wrappers
  import opened RestoreStore
  import opened RestoreRuns

  datatype Pool = Pool(spec: Option<string>, labels: map<string, string>)

  class Cluster {
    var pools: map<string, Pool>

    constructor (pools: map<string, Pool>)
      ensures this.pools == pools
    {
      this.pools := pools;
    }
  }

  datatype RunState = RunState(pools: map<string, Pool>, report: map<string, StateValue>)

  function Capture(name: string, pool: Pool): StateValue
    requires pool.spec.Some?
  {
    NodePool(name, pool.spec.value, pool.labels)
  }

  predicate Broken(pools: map<string, Pool>, name: string) {
    name in pools && pools[name].spec.None?
  }

  /** A present pool is reported and deleted; an absent one is skipped. */
  ghost function Visit(s: RunState, name: string): RunState
    requires !Broken(s.pools, name)
  {
    if name !in s.pools then s
    else RunState(s.pools - {name}, s.report[name := Capture(name, s.pools[name])])
  }

  /** A run over the names up to the first pool without a spec. */
  ghost function VisitAll(s: RunState, names: seq<string>): RunState
    decreases |names|
  {
    if names == [] || Broken(s.pools, names[0]) then s
    else VisitAll(Visit(s, names[0]), names[1..])
  }

  /** The run gets to `n`: before it, no call failed and no listed pool lacked a spec, nor does `n`. */
  ghost predicate Swept(pools: map<string, Pool>, names: seq<string>, stopAt: nat, n: string) {
    exists i :: 0 <= i < |names| && names[i] == n && SweptAt(pools, names, stopAt, i)
  }

  ghost predicate SweptAt(pools: map<string, Pool>, names: seq<string>, stopAt: nat, i: int) {
    i < stopAt && forall j :: 0 <= j <= i && j < |names| && names[j] in pools ==> pools[names[j]].spec.Some?
  }

  /** What a run does to every single pool and report. */
  ghost predicate RunDid(before: RunState, after: RunState, names: seq<string>, stopAt: nat) {
    && (forall n :: n in after.pools <==> n in before.pools && !Swept(before.pools, names, stopAt, n))
    && (forall n :: n in after.pools ==> after.pools[n] == before.pools[n])
    && (forall n :: n in after.report <==>
          n in before.report || (n in before.pools && Swept(before.pools, names, stopAt, n)))
    && (forall n :: n in after.report ==>
          if n in before.pools && Swept(before.pools, names, stopAt, n) then
            before.pools[n].spec.Some? &&
            after.report[n] == NodePool(n, before.pools[n].spec.value, before.pools[n].labels)
          else n in before.report && after.report[n] == before.report[n])
  }

  lemma {:induction false} SweptStep(pools: map<string, Pool>, names: seq<string>, n: string)
    requires names != [] && !Broken(pools, names[0])
    ensures Swept(pools, names, |names|, n) <==>
      n == names[0] || Swept(pools - {names[0]}, names[1..], |names| - 1, n)
  {
    var rest, left := names[1..], pools - {names[0]};
    if Swept(pools, names, |names|, n) && n != names[0] {
      var i :| 0 <= i < |names| && names[i] == n && SweptAt(pools, names, |names|, i);
      assert forall j :: 0 <= j <= i - 1 && j < |rest| ==> rest[j] == names[j + 1];
      assert rest[i - 1] == n && SweptAt(left, rest, |rest|, i - 1);
    }
    if Swept(left, rest, |rest|, n) {
      var i :| 0 <= i < |rest| && rest[i] == n && SweptAt(left, rest, |rest|, i);
      forall j | 0 <= j <= i + 1 && j < |names| && names[j] in pools
        ensures pools[names[j]].spec.Some?
      {
        if j > 0 && names[j] != names[0] {
          assert rest[j - 1] == names[j];
        }
      }
      assert names[i + 1] == n && SweptAt(pools, names, |names|, i + 1);
    }
    if n == names[0] {
      assert SweptAt(pools, names, |names|, 0);
    }
  }

  /** A listed pool without a spec stops the run on the spot. */
  lemma {:induction false} SweptNothing(pools: map<string, Pool>, names: seq<string>, n: string)
    requires names == [] || Broken(pools, names[0])
    ensures !Swept(pools, names, |names|, n)
  {
    if names != [] {
      assert forall i :: 0 <= i < |names| ==> !SweptAt(pools, names, |names|, i);
    }
  }

  lemma {:induction false} VisitAllDid(s: RunState, names: seq<string>)
    ensures RunDid(s, VisitAll(s, names), names, |names|)
    decreases |names|
  {
    if names == [] || Broken(s.pools, names[0]) {
      forall n
        ensures !Swept(s.pools, names, |names|, n)
      {
        SweptNothing(s.pools, names, n);
      }
    } else {
      VisitAllDid(Visit(s, names[0]), names[1..]);
      if names[0] in s.pools {
        DidStep(s, names);
      } else {
        assert s.pools - {names[0]} == s.pools;
        DidStep(s, names);
      }
    }
  }

  lemma {:induction false} DidStep(s: RunState, names: seq<string>)
    requires names != [] && !Broken(s.pools, names[0])
    requires Visit(s, names[0]).pools == s.pools - {names[0]}
    requires RunDid(Visit(s, names[0]), VisitAll(s, names), names[1..], |names| - 1)
    ensures RunDid(s, VisitAll(s, names), names, |names|)
  {
    forall n
      ensures Swept(s.pools, names, |names|, n) <==>
        n == names[0] || Swept(s.pools - {names[0]}, names[1..], |names| - 1, n)
    {
      SweptStep(s.pools, names, n);
    }
  }

  /** The names reached are those before the failing call. */
  lemma {:induction false} ReachedSwept(pools: map<string, Pool>, names: seq<string>, stopAt: nat, n: string)
    ensures Swept(pools, Reached(names, stopAt), |Reached(names, stopAt)|, n) <==> Swept(pools, names, stopAt, n)
  {
    var r := Reached(names, stopAt);
    if Swept(pools, r, |r|, n) {
      var i :| 0 <= i < |r| && r[i] == n && SweptAt(pools, r, |r|, i);
      assert forall j :: 0 <= j <= i && j < |names| ==> r[j] == names[j];
      assert names[i] == n && SweptAt(pools, names, stopAt, i);
    }
    if Swept(pools, names, stopAt, n) {
      var i :| 0 <= i < |names| && names[i] == n && SweptAt(pools, names, stopAt, i);
      assert r[i] == n && SweptAt(pools, r, |r|, i);
    }
  }

  lemma {:induction false} ReachedDid(s: RunState, names: seq<string>, stopAt: nat)
    ensures RunDid(s, VisitAll(s, Reached(names, stopAt)), names, stopAt)
  {
    VisitAllDid(s, Reached(names, stopAt));
    forall n
      ensures Swept(s.pools, Reached(names, stopAt), |Reached(names, stopAt)|, n) <==> Swept(s.pools, names, stopAt, n)
    {
      ReachedSwept(s.pools, names, stopAt, n);
    }
  }

  /** A run without failure gets to every name. */
  lemma {:induction false} CompleteSweep(pools: map<string, Pool>, names: seq<string>, stopAt: nat, n: string)
    requires n in names && |names| <= stopAt
    requires forall m :: m in names && m in pools ==> pools[m].spec.Some?
    ensures Swept(pools, names, stopAt, n)
  {
    var i :| 0 <= i < |names| && names[i] == n;
    assert SweptAt(pools, names, stopAt, i);
  }

  lemma {:induction false} CompleteSweepClears(before: RunState, after: RunState, names: seq<string>, stopAt: nat)
    requires RunDid(before, after, names, stopAt) && |names| <= stopAt
    requires forall n :: n in names && n in before.pools ==> before.pools[n].spec.Some?
    ensures forall n :: n in names ==> n !in after.pools
  {
    forall n | n in names
      ensures n !in after.pools
    {
      CompleteSweep(before.pools, names, stopAt, n);
    }
  }

  /** Reports and deletes a present pool; one without a spec is an error, an absent one is skipped. */
  method ScaleDownNodePool(cluster: Cluster, acc: Accumulator, name: string, now: Time) returns (ok: bool)
    requires acc.Valid()
    modifies cluster, acc`state, acc`reportedAt
    ensures acc.Valid()
    ensures ok <==> !Broken(old(cluster.pools), name)
    ensures cluster.pools == if ok then old(cluster.pools) - {name} else old(cluster.pools)
    ensures acc.state == if ok && name in old(cluster.pools)
                         then old(acc.state)[name := Capture(name, old(cluster.pools)[name])] else old(acc.state)
  {
    if name in cluster.pools {
      var pool := cluster.pools[name];
      if pool.spec.None? {
        return false;
      }
      cluster.pools := cluster.pools - {name};
      acc.Add(name, NodePool(name, pool.spec.value, pool.labels), now);
    }
    return true;
  }

  /**
   Visits the names in order, deleting and reporting, until a call fails or a pool lacks its spec.
   A run that succeeds leaves none of its names.
   */
  method Shutdown(cluster: Cluster, acc: Accumulator, names: seq<string>, stopAt: nat, now: Time) returns (ok: bool)
    requires acc.Valid()
    modifies cluster, acc`state, acc`reportedAt
    ensures acc.Valid()
    ensures RunState(cluster.pools, acc.state) ==
      VisitAll(RunState(old(cluster.pools), old(acc.state)), Reached(names, stopAt))
    ensures RunDid(RunState(old(cluster.pools), old(acc.state)), RunState(cluster.pools, acc.state), names, stopAt)
    ensures ok <==>
      |names| <= stopAt && forall n :: n in names && n in old(cluster.pools) ==> old(cluster.pools)[n].spec.Some?
    ensures ok ==> forall n :: n in names ==> n !in cluster.pools
  {
    ghost var before := RunState(cluster.pools, acc.state);
    ok := VisitNames(cluster, acc, names, stopAt, now);
    ReachedDid(before, names, stopAt);
    if ok {
      CompleteSweepClears(before, RunState(cluster.pools, acc.state), names, stopAt);
    }
  }

  /** The visits of a run, one by one. */
  method VisitNames(cluster: Cluster, acc: Accumulator, names: seq<string>, stopAt: nat, now: Time) returns (ok: bool)
    requires acc.Valid()
    modifies cluster, acc`state, acc`reportedAt
    ensures acc.Valid()
    ensures RunState(cluster.pools, acc.state) ==
      VisitAll(RunState(old(cluster.pools), old(acc.state)), Reached(names, stopAt))
    ensures ok <==>
      |names| <= stopAt && forall n :: n in names && n in old(cluster.pools) ==> old(cluster.pools)[n].spec.Some?
  {
    var reach := Reached(names, stopAt);
    var i := 0;
    while i < |names|
      invariant acc.Valid() && 0 <= i <= |reach|
      invariant forall n :: Broken(cluster.pools, n) <==> Broken(old(cluster.pools), n)
      invariant forall j :: 0 <= j < i ==> !Broken(old(cluster.pools), names[j])
      invariant VisitAll(RunState(cluster.pools, acc.state), reach[i..]) ==
        VisitAll(RunState(old(cluster.pools), old(acc.state)), reach)
      decreases |names| - i
    {
      if i == stopAt {
        return false;
      }
      var name := names[i];
      ghost var s := RunState(cluster.pools, acc.state);
      assert reach[i..][0] == name && reach[i..][1..] == reach[i + 1..];
      var done := ScaleDownNodePool(cluster, acc, name, now);
      if !done {
        assert name in names;
        return false;
      }
      assert RunState(cluster.pools, acc.state) == Visit(s, name);
      i := i + 1;
    }
    return true;
  }

  /** The saved pools that a wake-up has to create. */
  function ToRestore(data: map<string, StateValue>): set<string> {
    set n | n in data && data[n].NodePool?
  }

  /** The cluster once the pools `done` are created, except where the name is taken. */
  ghost function WokenOn(pools: map<string, Pool>, data: map<string, StateValue>, done: set<string>): map<string, Pool>
    requires done <= ToRestore(data)
  {
    map n | n in pools.Keys + done :: if n in pools then pools[n] else Pool(Some(data[n].spec), data[n].labels)
  }

  /** Saved pools are created unless the name is taken. */
  ghost function Woken(pools: map<string, Pool>, data: map<string, StateValue>): map<string, Pool> {
    WokenOn(pools, data, ToRestore(data))
  }

  /** The pools `done` are created, the pools `rest` are still to come. */
  ghost predicate Progress(
    before: map<string, Pool>, pools: map<string, Pool>, data: map<string, StateValue>, done: set<string>,
    rest: set<string>)
  {
    && done + rest == ToRestore(data) && done !! rest
    && pools == WokenOn(before, data, done)
  }

  lemma {:induction false} ProgressStarts(before: map<string, Pool>, data: map<string, StateValue>)
    ensures Progress(before, before, data, {}, ToRestore(data))
  {
  }

  lemma {:induction false} ProgressMade(
    before: map<string, Pool>, pools: map<string, Pool>, data: map<string, StateValue>, done: set<string>,
    rest: set<string>)
    requires Progress(before, pools, data, done, rest)
    ensures done <= ToRestore(data) && |done| + |rest| == |ToRestore(data)|
    ensures rest == {} ==> done == ToRestore(data)
  {
  }

  /** Creates a saved pool, unless the name is taken. */
  method RestoreNodePool(
    cluster: Cluster, name: string, data: map<string, StateValue>,
    ghost before: map<string, Pool>, ghost done: set<string>, ghost rest: set<string>)
    requires Progress(before, cluster.pools, data, done, rest) && name in rest
    modifies cluster
    ensures Progress(before, cluster.pools, data, done + {name}, rest - {name})
    ensures cluster.pools == if name in old(cluster.pools) then old(cluster.pools)
                             else old(cluster.pools)[name := Pool(Some(data[name].spec), data[name].labels)]
  {
    if name !in cluster.pools {
      cluster.pools := cluster.pools[name := Pool(Some(data[name].spec), data[name].labels)];
    }
  }

  /** Creates the pools in any order; the call for the one at position `stopAt`, if any, fails. */
  method WakeUp(
    cluster: Cluster, data: map<string, StateValue>, stopAt: nat)
    returns (ok: bool, ghost done: set<string>)
    modifies cluster
    ensures done <= ToRestore(data) && cluster.pools == WokenOn(old(cluster.pools), data, done)
    ensures ok <==> |ToRestore(data)| <= stopAt
    ensures ok ==> done == ToRestore(data)
    ensures !ok ==> |done| == stopAt
  {
    ghost var before := cluster.pools;
    done := {};
    var restored := 0;
    var rest := ToRestore(data);
    ProgressStarts(before, data);
    while rest != {} && restored < stopAt
      invariant Progress(before, cluster.pools, data, done, rest)
      invariant restored == |done| <= stopAt
      decreases |rest|
    {
      var name :| name in rest;
      RestoreNodePool(cluster, name, data, before, done, rest);
      rest := rest - {name};
      done := done + {name};
      restored := restored + 1;
    }
    ProgressMade(before, cluster.pools, data, done, rest);
    return rest == {}, done;
  }

  /** A wake-up repeated after one that stopped part-way ends where a single one would have. */
  lemma {:induction false} WakingAgain(pools: map<string, Pool>, data: map<string, StateValue>, done: set<string>)
    requires done <= ToRestore(data)
    ensures Woken(WokenOn(pools, data, done), data) == Woken(pools, data)
  {
  }

  // ----- A cycle of runs

  /** Each pool is either untouched and unsaved, or deleted and saved as it was. */
  ghost predicate Accounted(pools0: map<string, Pool>, pools: map<string, Pool>, saved: map<string, StateValue>) {
    && pools.Keys + saved.Keys == pools0.Keys && pools.Keys !! saved.Keys
    && (forall n :: n in pools ==> pools[n] == pools0[n])
    && (forall n :: n in saved ==> pools0[n].spec.Some? && saved[n] == Capture(n, pools0[n]))
  }

  lemma {:induction false} RunAccounts(
    pools0: map<string, Pool>, view: map<string, StateValue>, s: RunState, names: seq<string>)
    requires Accounted(pools0, s.pools, view + s.report) && view.Keys !! s.report.Keys
    ensures
      var r := VisitAll(s, names);
      Accounted(pools0, r.pools, view + r.report) && view.Keys !! r.report.Keys
    decreases |names|
  {
    if names != [] && !Broken(s.pools, names[0]) {
      RunAccounts(pools0, view, Visit(s, names[0]), names[1..]);
    }
  }

  ghost function ClusterAfter(pools: map<string, Pool>, runs: seq<seq<string>>): map<string, Pool> {
    if runs == [] then pools
    else VisitAll(RunState(ClusterAfter(pools, runs[..|runs| - 1]), map[]), runs[|runs| - 1]).pools
  }

  ghost function ViewAfter(pools: map<string, Pool>, runs: seq<seq<string>>): map<string, StateValue> {
    if runs == [] then map[]
    else
      var n := |runs| - 1;
      Absorb(ViewAfter(pools, runs[..n]), VisitAll(RunState(ClusterAfter(pools, runs[..n]), map[]), runs[n]).report)
  }

  lemma {:induction false} CycleAccounts(pools: map<string, Pool>, runs: seq<seq<string>>)
    ensures Accounted(pools, ClusterAfter(pools, runs), ViewAfter(pools, runs))
  {
    if runs != [] {
      var n := |runs| - 1;
      CycleAccounts(pools, runs[..n]);
      var view := ViewAfter(pools, runs[..n]);
      var s := RunState(ClusterAfter(pools, runs[..n]), map[]);
      assert view + s.report == view;
      RunAccounts(pools, view, s, runs[n]);
      AbsorbDisjoint(view, VisitAll(s, runs[n]).report);
    }
  }

  lemma {:induction false} AbsorbDisjoint(view: map<string, StateValue>, report: map<string, StateValue>)
    requires view.Keys !! report.Keys
    ensures Absorb(view, report) == view + report
  {
  }

  /** The run gets through its list: no call fails and no listed pool lacks a spec. */
  ghost predicate Completes(pools: map<string, Pool>, run: RunInput) {
    |run.names| <= run.stopAt && forall m :: m in run.names && m in pools ==> pools[m].spec.Some?
  }

  /** A cycle only ever deletes pools. */
  lemma {:induction false} OnlyDeletes(pools: map<string, Pool>, runs: seq<seq<string>>, n: string)
    ensures n in ClusterAfter(pools, runs) ==> n in pools && ClusterAfter(pools, runs)[n] == pools[n]
  {
    if runs != [] {
      var m := |runs| - 1;
      OnlyDeletes(pools, runs[..m], n);
      VisitAllDid(RunState(ClusterAfter(pools, runs[..m]), map[]), runs[m]);
    }
  }

  /** What a run got to is gone for the rest of the cycle. */
  lemma {:induction false} GoneAfter(pools: map<string, Pool>, runs: seq<seq<string>>, i: nat, n: string)
    requires i < |runs| && n in runs[i]
    requires forall m :: m in runs[i] && m in pools ==> pools[m].spec.Some?
    ensures n !in ClusterAfter(pools, runs)
  {
    var k := |runs| - 1;
    var s := RunState(ClusterAfter(pools, runs[..k]), map[]);
    VisitAllDid(s, runs[k]);
    if i == k {
      forall m | m in runs[k] && m in s.pools
        ensures s.pools[m].spec.Some?
      {
        OnlyDeletes(pools, runs[..k], m);
      }
      CompleteSweep(s.pools, runs[k], |runs[k]|, n);
    } else {
      assert runs[..k][i] == runs[i];
      GoneAfter(pools, runs[..k], i, n);
    }
  }

  /** Hibernating hibernates: a run that completes leaves its pools deleted and saved with spec and labels. */
  lemma {:induction false} CompleteRunClears(pools: map<string, Pool>, runs: seq<RunInput>, i: nat, n: string)
    requires i < |runs| && Completes(pools, runs[i]) && n in runs[i].names
    ensures n !in ClusterAfter(pools, ReachedAll(runs))
    ensures n in pools ==>
      && pools[n].spec.Some? && n in ViewAfter(pools, ReachedAll(runs))
      && ViewAfter(pools, ReachedAll(runs))[n] == NodePool(n, pools[n].spec.value, pools[n].labels)
  {
    var reached := ReachedAll(runs);
    assert reached[i] == runs[i].names;
    GoneAfter(pools, reached, i, n);
    CycleAccounts(pools, reached);
  }

  /**
   Any number of shutdown runs over any names, each stopped anywhere, then one wake-up: every
   NodePool is back with its spec and labels.
   */
  lemma {:induction false} ShutdownsThenWakeUp(pools: map<string, Pool>, runs: seq<seq<string>>)
    ensures Woken(ClusterAfter(pools, runs), ViewAfter(pools, runs)) == pools
  {
    CycleAccounts(pools, runs);
    var woken := Woken(ClusterAfter(pools, runs), ViewAfter(pools, runs));
    assert woken.Keys == pools.Keys;
  }

  // ----- End to end

  method ShutdownRun(cluster: Cluster, mgr: Manager, target: string, cycleID: string, run: RunInput)
    requires Sound(mgr, target)
    modifies cluster, mgr
    ensures
      var s := VisitAll(RunState(old(cluster.pools), map[]), Reached(run.names, run.stopAt));
      && cluster.pools == s.pools
      && Shows(mgr, target, cycleID, Absorb(CycleView(old(mgr.Lookup(target)), cycleID), s.report))
  {
    var acc := new Accumulator(target, "karpenter", cycleID);
    var _ := Shutdown(cluster, acc, run.names, run.stopAt, run.now);
    FlushInCycle(acc, mgr, run.now);
  }

  /** After the first `i` runs of a cycle. */
  ghost predicate InCycle(
    cluster: Cluster, mgr: Manager, target: string, cycleID: string, pools: map<string, Pool>,
    reached: seq<seq<string>>, i: nat)
    requires i <= |reached|
    reads cluster, mgr
  {
    && Sound(mgr, target)
    && cluster.pools == ClusterAfter(pools, reached[..i])
    && CycleView(mgr.Lookup(target), cycleID) == ViewAfter(pools, reached[..i])
    && (i > 0 ==> Shows(mgr, target, cycleID, ViewAfter(pools, reached[..i])))
  }

  method NextRun(
    cluster: Cluster, mgr: Manager, target: string, cycleID: string, runs: seq<RunInput>, i: nat,
    ghost pools: map<string, Pool>)
    requires i < |runs| && InCycle(cluster, mgr, target, cycleID, pools, ReachedAll(runs), i)
    modifies cluster, mgr
    ensures InCycle(cluster, mgr, target, cycleID, pools, ReachedAll(runs), i + 1)
  {
    OneMoreRun(pools, ReachedAll(runs), i);
    ShutdownRun(cluster, mgr, target, cycleID, runs[i]);
  }

  /** The shutdown runs of a cycle, at least one of them. */
  method Hibernate(cluster: Cluster, mgr: Manager, target: string, cycleID: string, runs: seq<RunInput>)
    requires runs != [] && Sound(mgr, target)
    requires mgr.Lookup(target).Some? ==> mgr.Lookup(target).value.cycleID != cycleID
    modifies cluster, mgr
    ensures cluster.pools == ClusterAfter(old(cluster.pools), ReachedAll(runs))
    ensures Shows(mgr, target, cycleID, ViewAfter(old(cluster.pools), ReachedAll(runs)))
    ensures forall i, n :: 0 <= i < |runs| && Completes(old(cluster.pools), runs[i]) && n in runs[i].names ==>
      n !in cluster.pools
  {
    ghost var pools, reached := cluster.pools, ReachedAll(runs);
    for i := 0 to |runs|
      invariant InCycle(cluster, mgr, target, cycleID, pools, reached, i)
    {
      NextRun(cluster, mgr, target, cycleID, runs, i, pools);
    }
    assert reached[..|runs|] == reached;
    forall i, n | 0 <= i < |runs| && Completes(pools, runs[i]) && n in runs[i].names
      ensures n !in cluster.pools
    {
      CompleteRunClears(pools, runs, i, n);
    }
  }

  lemma {:induction false} OneMoreRun(pools: map<string, Pool>, runs: seq<seq<string>>, i: nat)
    requires i < |runs|
    ensures
      var s := VisitAll(RunState(ClusterAfter(pools, runs[..i]), map[]), runs[i]);
      && ClusterAfter(pools, runs[..i + 1]) == s.pools
      && ViewAfter(pools, runs[..i + 1]) == Absorb(ViewAfter(pools, runs[..i]), s.report)
  {
    assert runs[..i + 1][..i] == runs[..i];
  }

  /** Failing wake-ups, as many as there are stops, and then one that succeeds. */
  method Wake(cluster: Cluster, mgr: Manager, target: string, stops: seq<nat>)
    requires mgr.Lookup(target).Some?
    modifies cluster
    ensures cluster.pools == Woken(old(cluster.pools), Visible(mgr.Lookup(target).value))
  {
    ghost var view := Visible(mgr.Lookup(target).value);
    for i := 0 to |stops|
      invariant Woken(cluster.pools, view) == Woken(old(cluster.pools), view)
    {
      var data := LoadRestoreData(mgr, target);
      ghost var before := cluster.pools;
      var ok, done := WakeUp(cluster, data.value, stops[i]);
      WakingAgain(before, view, done);
    }
    var data := LoadRestoreData(mgr, target);
    var ok, done := WakeUp(cluster, data.value, |ToRestore(data.value)|);
  }

  /** A hibernation cycle against the stored record, wake-ups failing part-way until one succeeds. */
  method HibernateAndWake(
    cluster: Cluster, mgr: Manager, target: string, cycleID: string, runs: seq<RunInput>, stops: seq<nat>)
    requires runs != [] && Sound(mgr, target)
    requires mgr.Lookup(target).Some? ==> mgr.Lookup(target).value.cycleID != cycleID
    modifies cluster, mgr
    ensures cluster.pools == old(cluster.pools)
    ensures Shows(mgr, target, cycleID, ViewAfter(old(cluster.pools), ReachedAll(runs)))
  {
    ghost var pools := cluster.pools;
    Hibernate(cluster, mgr, target, cycleID, runs);
    Wake(cluster, mgr, target, stops);
    ShutdownsThenWakeUp(pools, ReachedAll(runs));
  }

  datatype Cycle = Cycle(cycleID: string, runs: seq<RunInput>, stops: seq<nat>)

  /** Any number of cycles, each opened, run and closed as the controller does. */
  method HibernateRepeatedly(cluster: Cluster, mgr: Manager, target: string, cycles: seq<Cycle>)
    requires BetweenCycles(mgr, target)
    requires forall c :: c in cycles ==> c.cycleID != "" && c.runs != []
    modifies cluster, mgr
    ensures BetweenCycles(mgr, target) && cluster.pools == old(cluster.pools)
  {
    for i := 0 to |cycles|
      invariant BetweenCycles(mgr, target) && cluster.pools == old(cluster.pools)
    {
      var c := cycles[i];
      OpenCycle(mgr, target);
      HibernateAndWake(cluster, mgr, target, c.cycleID, c.runs, c.stops);
      CloseCycle(mgr, target);
    }
  }
}
