/**
 The EKS executor: node groups scaled to zero and back.

 Calls to the cloud may fail at any node group; a failing call changes nothing, so a failed run
 is a run that reached only the first `stopAt` names. Waiting for nodes is not modelled.
 */
module EksExecutor {
  import opened RestoreStore
  import opened RestoreRuns

  datatype Scaling = Scaling(min: int, desired: int, max: int)

  datatype Outcome = Applied | SkippedStale

  class Cloud {
    var groups: map<string, Scaling>

    constructor (groups: map<string, Scaling>)
      ensures this.groups == groups
    {
      this.groups := groups;
    }
  }

  function Capture(g: Scaling): StateValue {
    NodeGroup(g.desired, g.min, g.max, g.desired > 0)
  }

  /** Scaled down: desired and minimum go to zero, the maximum stays; an idle group is left alone. */
  function Zeroed(g: Scaling): Scaling {
    if g.desired > 0 then Scaling(0, 0, g.max) else g
  }

  /** The cloud and the reports of a run in progress. */
  datatype RunState = RunState(groups: map<string, Scaling>, report: map<string, StateValue>)

  ghost function Visit(s: RunState, name: string): RunState {
    if name !in s.groups then s
    else RunState(s.groups[name := Zeroed(s.groups[name])], s.report[name := Capture(s.groups[name])])
  }

  ghost function VisitAll(s: RunState, names: seq<string>): RunState {
    if names == [] then s
    else Visit(VisitAll(s, names[..|names| - 1]), names[|names| - 1])
  }

  method ScaleNodeGroupToZero(cloud: Cloud, acc: Accumulator, name: string, now: Time) returns (outcome: Outcome)
    requires acc.Valid()
    modifies cloud, acc`state, acc`reportedAt
    ensures acc.Valid()
    ensures RunState(cloud.groups, acc.state) == Visit(RunState(old(cloud.groups), old(acc.state)), name)
    ensures outcome == if name in old(cloud.groups) then Applied else SkippedStale
    ensures outcome.SkippedStale? ==> cloud.groups == old(cloud.groups) && acc.state == old(acc.state)
    ensures outcome.Applied? ==>
      var g := old(cloud.groups)[name];
      && cloud.groups == old(cloud.groups)[name := if g.desired > 0 then Scaling(0, 0, g.max) else g]
      && acc.state == old(acc.state)[name := NodeGroup(g.desired, g.min, g.max, g.desired > 0)]
  {
    if name !in cloud.groups {
      return SkippedStale;
    }
    var g := cloud.groups[name];
    var wasScaled := g.desired > 0;
    if wasScaled {
      cloud.groups := cloud.groups[name := Scaling(0, 0, g.max)];
    } else {
      assert cloud.groups[name := g] == cloud.groups;
    }
    acc.Add(name, NodeGroup(g.desired, g.min, g.max, wasScaled), now);
    return Applied;
  }

  method Shutdown(cloud: Cloud, acc: Accumulator, names: seq<string>, stopAt: nat, now: Time) returns (ok: bool)
    requires acc.Valid()
    modifies cloud, acc`state, acc`reportedAt
    ensures acc.Valid()
    ensures RunState(cloud.groups, acc.state) ==
      VisitAll(RunState(old(cloud.groups), old(acc.state)), Reached(names, stopAt))
    ensures RunDidAll(RunState(old(cloud.groups), old(acc.state)), RunState(cloud.groups, acc.state),
      if stopAt < |names| then names[..stopAt] else names)
    ensures ok <==> 0 < |names| <= stopAt
  {
    RunAtAll(RunState(cloud.groups, acc.state), Reached(names, stopAt));
    if |names| == 0 {
      return false;
    }
    for i := 0 to |names|
      invariant acc.Valid() && i <= stopAt
      invariant RunState(cloud.groups, acc.state) == VisitAll(RunState(old(cloud.groups), old(acc.state)), names[..i])
    {
      if i == stopAt {
        return false;
      }
      var _ := ScaleNodeGroupToZero(cloud, acc, names[i], now);
      assert names[..i + 1][..i] == names[..i];
    }
    assert names[..|names|] == names;
    return true;
  }

  /** The saved groups that a wake-up has to restore. */
  function ToRestore(data: map<string, StateValue>): set<string> {
    set n | n in data && data[n].NodeGroup? && data[n].wasScaled
  }

  /** The cloud once the saved scaling of the groups `done` is applied. */
  ghost function WokenOn(
    groups: map<string, Scaling>, data: map<string, StateValue>, done: set<string>): map<string, Scaling>
    requires done <= ToRestore(data)
  {
    map n | n in groups :: if n in done then Scaling(data[n].min, data[n].desired, data[n].max) else groups[n]
  }

  /** Every group with a saved scaling gets it back. */
  ghost function Woken(groups: map<string, Scaling>, data: map<string, StateValue>): map<string, Scaling> {
    WokenOn(groups, data, ToRestore(data))
  }

  /** The groups `done` are restored; what is left to restore is in `rest`. */
  ghost predicate Progress(
    before: map<string, Scaling>, groups: map<string, Scaling>, data: map<string, StateValue>, done: set<string>,
    rest: set<string>)
  {
    done == ToRestore(data) - rest && groups == WokenOn(before, data, done)
  }

  lemma {:induction false} ProgressStarts(before: map<string, Scaling>, data: map<string, StateValue>)
    ensures Progress(before, before, data, {}, data.Keys)
  {
  }

  lemma {:induction false} ProgressSkips(
    before: map<string, Scaling>, groups: map<string, Scaling>, data: map<string, StateValue>,
    done: set<string>, rest: set<string>, name: string)
    requires Progress(before, groups, data, done, rest) && name !in ToRestore(data)
    ensures Progress(before, groups, data, done, rest - {name})
  {
    assert ToRestore(data) - (rest - {name}) == done;
  }

  lemma {:induction false} MoreToRestore(data: map<string, StateValue>, done: set<string>, name: string)
    requires done <= ToRestore(data) && name in ToRestore(data) && name !in done
    ensures |done| < |ToRestore(data)|
  {
    assert ToRestore(data) == done + {name} + (ToRestore(data) - done - {name});
  }

  /** Applies a saved scaling; a group that no longer exists is skipped. */
  method RestoreNodeGroup(
    cloud: Cloud, name: string, data: map<string, StateValue>,
    ghost before: map<string, Scaling>, ghost done: set<string>, ghost rest: set<string>)
    returns (outcome: Outcome)
    requires Progress(before, cloud.groups, data, done, rest) && name in rest && name in ToRestore(data)
    modifies cloud
    ensures outcome == if name in old(cloud.groups) then Applied else SkippedStale
    ensures cloud.groups == if name !in old(cloud.groups) then old(cloud.groups)
                            else old(cloud.groups)[name := Scaling(data[name].min, data[name].desired, data[name].max)]
    ensures Progress(before, cloud.groups, data, done + {name}, rest - {name})
  {
    assert ToRestore(data) - (rest - {name}) == done + {name};
    if name !in cloud.groups {
      return SkippedStale;
    }
    cloud.groups := cloud.groups[name := Scaling(data[name].min, data[name].desired, data[name].max)];
    return Applied;
  }

  /** Restores the groups in any order; the call for the one at position `stopAt`, if any, fails. */
  method WakeUp(cloud: Cloud, data: map<string, StateValue>, stopAt: nat) returns (ok: bool, ghost done: set<string>)
    modifies cloud
    ensures done <= ToRestore(data) && cloud.groups == WokenOn(old(cloud.groups), data, done)
    ensures ok <==> |ToRestore(data)| <= stopAt
    ensures ok ==> done == ToRestore(data)
    ensures !ok ==> |done| == stopAt
    ensures forall n :: n in done ==> n in data && data[n].NodeGroup? && data[n].wasScaled
    ensures ok ==> forall n :: n in data && data[n].NodeGroup? && data[n].wasScaled ==> n in done
    ensures cloud.groups.Keys == old(cloud.groups).Keys
    ensures forall n :: n in cloud.groups ==>
      cloud.groups[n] == if n in done then Scaling(data[n].min, data[n].desired, data[n].max) else old(cloud.groups)[n]
  {
    ghost var before := cloud.groups;
    done := {};
    var restored := 0;
    var rest := data.Keys;
    ProgressStarts(before, data);
    while rest != {}
      invariant rest <= data.Keys && Progress(before, cloud.groups, data, done, rest)
      invariant restored == |done| <= stopAt
    {
      var name :| name in rest;
      if data[name].NodeGroup? && data[name].wasScaled {
        if restored == stopAt {
          MoreToRestore(data, done, name);
          return false, done;
        }
        var _ := RestoreNodeGroup(cloud, name, data, before, done, rest);
        done := done + {name};
        restored := restored + 1;
      } else {
        ProgressSkips(before, cloud.groups, data, done, rest, name);
      }
      rest := rest - {name};
    }
    return true, done;
  }

  /** A wake-up repeated after one that stopped part-way ends where a single one would have. */
  lemma {:induction false} WakingAgain(groups: map<string, Scaling>, data: map<string, StateValue>, done: set<string>)
    requires done <= ToRestore(data)
    ensures Woken(WokenOn(groups, data, done), data) == Woken(groups, data)
  {
  }

  // ----- One run, name by name

  /**
   What a run that reaches `n` so many times does to it: nothing if it is absent or never reached,
   else a running group goes to zero. It is reported as it was, or at zero if it was reached twice.
   */
  ghost predicate RunDid(before: RunState, after: RunState, n: string, times: nat) {
    && (n in after.groups <==> n in before.groups)
    && (n !in before.groups || times == 0 ==>
          && (n in before.groups ==> after.groups[n] == before.groups[n])
          && (n in after.report <==> n in before.report)
          && (n in before.report ==> after.report[n] == before.report[n]))
    && (n in before.groups && times > 0 ==>
          var g := before.groups[n];
          && after.groups[n] == (if g.desired > 0 then Scaling(0, 0, g.max) else g)
          && n in after.report
          && after.report[n] == if times > 1 && g.desired > 0 then NodeGroup(0, 0, g.max, false)
                                else NodeGroup(g.desired, g.min, g.max, g.desired > 0))
  }

  lemma {:induction false} RunAt(s: RunState, names: seq<string>, n: string)
    ensures RunDid(s, VisitAll(s, names), n, multiset(names)[n])
  {
    if names != [] {
      var m := |names| - 1;
      RunAt(s, names[..m], n);
      assert names == names[..m] + [names[m]];
    }
  }

  ghost predicate RunDidAll(before: RunState, after: RunState, reached: seq<string>) {
    forall n :: RunDid(before, after, n, multiset(reached)[n])
  }

  lemma {:induction false} RunAtAll(s: RunState, names: seq<string>)
    ensures RunDidAll(s, VisitAll(s, names), names)
  {
    forall n
      ensures RunDid(s, VisitAll(s, names), n, multiset(names)[n])
    {
      RunAt(s, names, n);
    }
  }

  // ----- A cycle of runs

  /** The cloud after shutdown runs that reached these names. */
  ghost function CloudAfter(groups: map<string, Scaling>, runs: seq<seq<string>>): map<string, Scaling> {
    if runs == [] then groups
    else VisitAll(RunState(CloudAfter(groups, runs[..|runs| - 1]), map[]), runs[|runs| - 1]).groups
  }

  /** What the record of the cycle shows after them. */
  ghost function ViewAfter(groups: map<string, Scaling>, runs: seq<seq<string>>): map<string, StateValue> {
    if runs == [] then map[]
    else
      var n := |runs| - 1;
      Absorb(ViewAfter(groups, runs[..n]), VisitAll(RunState(CloudAfter(groups, runs[..n]), map[]), runs[n]).report)
  }

  /** How often the first run that reaches `n` reaches it; zero if none does. */
  function FirstCount(runs: seq<seq<string>>, n: string): nat {
    if runs == [] then 0
    else
      var f := FirstCount(runs[..|runs| - 1], n);
      if f > 0 then f else multiset(runs[|runs| - 1])[n]
  }

  lemma {:induction false} CycleAt(groups: map<string, Scaling>, runs: seq<seq<string>>, n: string)
    ensures
      var cloud, view, f := CloudAfter(groups, runs), ViewAfter(groups, runs), FirstCount(runs, n);
      && (n in cloud <==> n in groups)
      && (n in view <==> n in groups && f > 0)
      && (n in groups && f == 0 ==> cloud[n] == groups[n])
      && (n in groups && f > 0 ==>
            && cloud[n] == (if groups[n].desired > 0 then Scaling(0, 0, groups[n].max) else groups[n])
            && view[n] == if f > 1 && groups[n].desired > 0 then NodeGroup(0, 0, groups[n].max, false)
                          else NodeGroup(groups[n].desired, groups[n].min, groups[n].max, groups[n].desired > 0))
  {
    if runs != [] {
      var m := |runs| - 1;
      CycleAt(groups, runs[..m], n);
      RunAt(RunState(CloudAfter(groups, runs[..m]), map[]), runs[m], n);
    }
  }

  /** A running group that the run first reaching it reaches twice. */
  predicate Lost(g: Scaling, runs: seq<seq<string>>, n: string) {
    g.desired > 0 && FirstCount(runs, n) > 1
  }

  /** No running group is reached twice by the run that first reaches it. */
  ghost predicate NoneLost(groups: map<string, Scaling>, runs: seq<seq<string>>) {
    forall n :: n in groups ==> !Lost(groups[n], runs, n)
  }

  /** The cloud after a cycle: lost groups stay at zero, all others are back. */
  ghost function AfterCycle(groups: map<string, Scaling>, runs: seq<seq<string>>): map<string, Scaling> {
    map n | n in groups :: if Lost(groups[n], runs, n) then Zeroed(groups[n]) else groups[n]
  }

  /** Any number of shutdown runs, each stopped anywhere, then one wake-up: what becomes of every group. */
  lemma {:induction false} CycleOutcome(groups: map<string, Scaling>, runs: seq<seq<string>>)
    ensures Woken(CloudAfter(groups, runs), ViewAfter(groups, runs)) == AfterCycle(groups, runs)
  {
    var woken := Woken(CloudAfter(groups, runs), ViewAfter(groups, runs));
    forall n
      ensures n in woken <==> n in groups
      ensures n in groups ==> n in woken && woken[n] == AfterCycle(groups, runs)[n]
    {
      CycleAt(groups, runs, n);
    }
  }

  /** Hibernating hibernates: what some run reached is at zero and saved. */
  lemma {:induction false} ReachedIsDown(groups: map<string, Scaling>, runs: seq<seq<string>>, i: nat, n: string)
    requires i < |runs| && n in runs[i] && n in groups
    ensures
      var cloud, view := CloudAfter(groups, runs), ViewAfter(groups, runs);
      n in cloud && n in view && cloud[n].desired <= 0 && cloud[n].max == groups[n].max
  {
    ReachedCounts(runs, i, n);
    CycleAt(groups, runs, n);
  }

  lemma {:induction false} ReachedCounts(runs: seq<seq<string>>, i: nat, n: string)
    requires i < |runs| && n in runs[i]
    ensures FirstCount(runs, n) > 0
  {
    var k := |runs| - 1;
    if i < k {
      assert runs[..k][i] == runs[i];
      ReachedCounts(runs[..k], i, n);
    }
  }

  /**
   Any number of shutdown runs, each stopped anywhere, then one wake-up: the cloud is what it was
   exactly when no running group was reached twice by the run that first reached it.
   */
  lemma {:induction false} ShutdownsThenWakeUp(groups: map<string, Scaling>, runs: seq<seq<string>>)
    ensures Woken(CloudAfter(groups, runs), ViewAfter(groups, runs)) == groups <==> NoneLost(groups, runs)
  {
    CycleOutcome(groups, runs);
    AfterCycleIsIdentity(groups, runs);
  }

  lemma {:induction false} AfterCycleIsIdentity(groups: map<string, Scaling>, runs: seq<seq<string>>)
    ensures AfterCycle(groups, runs) == groups <==> NoneLost(groups, runs)
  {
    if n :| n in groups && Lost(groups[n], runs, n) {
      assert AfterCycle(groups, runs)[n] != groups[n];
    } else {
      assert AfterCycle(groups, runs) == groups;
    }
  }

  /** Lists without repetition lose nothing. */
  lemma {:induction false} DistinctListsLoseNothing(groups: map<string, Scaling>, runs: seq<seq<string>>)
    requires forall r :: r in runs ==> forall n :: multiset(r)[n] <= 1
    ensures NoneLost(groups, runs)
  {
    forall n
      ensures FirstCount(runs, n) <= 1
    {
      FirstCountSmall(runs, n);
    }
  }

  lemma {:induction false} FirstCountSmall(runs: seq<seq<string>>, n: string)
    requires forall r :: r in runs ==> multiset(r)[n] <= 1
    ensures FirstCount(runs, n) <= 1
  {
    if runs != [] {
      FirstCountSmall(runs[..|runs| - 1], n);
      assert runs[|runs| - 1] in runs;
    }
  }

  /** A group listed twice is captured running, then captured again at zero: its size is lost. */
  lemma {:induction false} ListedTwiceIsLost()
    ensures
      var groups := map["ng" := Scaling(1, 3, 5)];
      Woken(CloudAfter(groups, [["ng", "ng"]]), ViewAfter(groups, [["ng", "ng"]])) != groups
  {
    var groups := map["ng" := Scaling(1, 3, 5)];
    var runs := [["ng", "ng"]];
    assert FirstCount(runs, "ng") == 2 by {
      assert runs[..0] == [] && multiset(runs[0])["ng"] == 2;
    }
    assert "ng" in groups && Lost(groups["ng"], runs, "ng");
    ShutdownsThenWakeUp(groups, runs);
  }

  // ----- End to end

  /** One shutdown run and its flush, the flush running whether or not the shutdown failed. */
  method ShutdownRun(cloud: Cloud, mgr: Manager, target: string, cycleID: string, run: RunInput)
    requires Sound(mgr, target)
    modifies cloud, mgr
    ensures
      var s := VisitAll(RunState(old(cloud.groups), map[]), Reached(run.names, run.stopAt));
      && cloud.groups == s.groups
      && Shows(mgr, target, cycleID, Absorb(CycleView(old(mgr.Lookup(target)), cycleID), s.report))
  {
    var acc := new Accumulator(target, "eks", cycleID);
    var _ := Shutdown(cloud, acc, run.names, run.stopAt, run.now);
    FlushInCycle(acc, mgr, run.now);
  }

  /** After the first `i` runs of a cycle. */
  ghost predicate InCycle(
    cloud: Cloud, mgr: Manager, target: string, cycleID: string, groups: map<string, Scaling>,
    reached: seq<seq<string>>, i: nat)
    requires i <= |reached|
    reads cloud, mgr
  {
    && Sound(mgr, target)
    && cloud.groups == CloudAfter(groups, reached[..i])
    && CycleView(mgr.Lookup(target), cycleID) == ViewAfter(groups, reached[..i])
    && (i > 0 ==> Shows(mgr, target, cycleID, ViewAfter(groups, reached[..i])))
  }

  method NextRun(
    cloud: Cloud, mgr: Manager, target: string, cycleID: string, runs: seq<RunInput>, i: nat,
    ghost groups: map<string, Scaling>)
    requires i < |runs| && InCycle(cloud, mgr, target, cycleID, groups, ReachedAll(runs), i)
    modifies cloud, mgr
    ensures InCycle(cloud, mgr, target, cycleID, groups, ReachedAll(runs), i + 1)
  {
    OneMoreRun(groups, ReachedAll(runs), i);
    ShutdownRun(cloud, mgr, target, cycleID, runs[i]);
  }

  /** The shutdown runs of a cycle, at least one of them. */
  method Hibernate(cloud: Cloud, mgr: Manager, target: string, cycleID: string, runs: seq<RunInput>)
    requires runs != [] && Sound(mgr, target)
    requires mgr.Lookup(target).Some? ==> mgr.Lookup(target).value.cycleID != cycleID
    modifies cloud, mgr
    ensures cloud.groups == CloudAfter(old(cloud.groups), ReachedAll(runs))
    ensures Shows(mgr, target, cycleID, ViewAfter(old(cloud.groups), ReachedAll(runs)))
    ensures forall i, n ::
      0 <= i < |runs| && |runs[i].names| <= runs[i].stopAt && n in runs[i].names && n in cloud.groups ==>
        cloud.groups[n].desired <= 0
  {
    ghost var groups, reached := cloud.groups, ReachedAll(runs);
    for i := 0 to |runs|
      invariant InCycle(cloud, mgr, target, cycleID, groups, reached, i)
    {
      NextRun(cloud, mgr, target, cycleID, runs, i, groups);
    }
    assert reached[..|runs|] == reached;
    forall i, n | 0 <= i < |runs| && |runs[i].names| <= runs[i].stopAt && n in runs[i].names && n in cloud.groups
      ensures cloud.groups[n].desired <= 0
    {
      assert reached[i] == runs[i].names;
      CycleAt(groups, reached, n);
      ReachedIsDown(groups, reached, i, n);
    }
  }

  lemma {:induction false} OneMoreRun(groups: map<string, Scaling>, runs: seq<seq<string>>, i: nat)
    requires i < |runs|
    ensures
      var s := VisitAll(RunState(CloudAfter(groups, runs[..i]), map[]), runs[i]);
      && CloudAfter(groups, runs[..i + 1]) == s.groups
      && ViewAfter(groups, runs[..i + 1]) == Absorb(ViewAfter(groups, runs[..i]), s.report)
  {
    assert runs[..i + 1][..i] == runs[..i];
  }

  /** Failing wake-ups, as many as there are stops, and then one that succeeds. */
  method Wake(cloud: Cloud, mgr: Manager, target: string, stops: seq<nat>)
    requires mgr.Lookup(target).Some?
    modifies cloud
    ensures cloud.groups == Woken(old(cloud.groups), Visible(mgr.Lookup(target).value))
  {
    ghost var view := Visible(mgr.Lookup(target).value);
    for i := 0 to |stops|
      invariant Woken(cloud.groups, view) == Woken(old(cloud.groups), view)
    {
      var data := LoadRestoreData(mgr, target);
      ghost var before := cloud.groups;
      var ok, done := WakeUp(cloud, data.value, stops[i]);
      WakingAgain(before, view, done);
    }
    var data := LoadRestoreData(mgr, target);
    var ok, done := WakeUp(cloud, data.value, |ToRestore(data.value)|);
  }

  /**
   A hibernation cycle against the stored record: shutdown runs with their flushes, then wake-ups
   that may fail part-way until one succeeds. Whatever the record held from other cycles, the
   cloud comes back.
   */
  method HibernateAndWake(
    cloud: Cloud, mgr: Manager, target: string, cycleID: string, runs: seq<RunInput>, stops: seq<nat>)
    requires runs != [] && Sound(mgr, target)
    requires mgr.Lookup(target).Some? ==> mgr.Lookup(target).value.cycleID != cycleID
    modifies cloud, mgr
    ensures cloud.groups == AfterCycle(old(cloud.groups), ReachedAll(runs))
    ensures cloud.groups == old(cloud.groups) <==> NoneLost(old(cloud.groups), ReachedAll(runs))
    ensures Shows(mgr, target, cycleID, ViewAfter(old(cloud.groups), ReachedAll(runs)))
  {
    ghost var groups := cloud.groups;
    Hibernate(cloud, mgr, target, cycleID, runs);
    Wake(cloud, mgr, target, stops);
    CycleOutcome(groups, ReachedAll(runs));
    AfterCycleIsIdentity(groups, ReachedAll(runs));
  }

  datatype Cycle = Cycle(cycleID: string, runs: seq<RunInput>, stops: seq<nat>)

  /** Some cycle loses the group. */
  ghost predicate LostInSome(g: Scaling, cycles: seq<Cycle>, n: string) {
    exists c :: c in cycles && Lost(g, ReachedAll(c.runs), n)
  }

  /** The cloud after any number of cycles: what some cycle lost stays lost. */
  ghost function AfterCycles(groups: map<string, Scaling>, cycles: seq<Cycle>): map<string, Scaling> {
    map n | n in groups :: if LostInSome(groups[n], cycles, n) then Zeroed(groups[n]) else groups[n]
  }

  lemma {:induction false} OneMoreCycle(groups: map<string, Scaling>, cycles: seq<Cycle>, c: Cycle)
    ensures AfterCycle(AfterCycles(groups, cycles), ReachedAll(c.runs)) == AfterCycles(groups, cycles + [c])
  {
    forall n | n in groups
      ensures LostInSome(groups[n], cycles + [c], n) <==>
        LostInSome(groups[n], cycles, n) || Lost(groups[n], ReachedAll(c.runs), n)
    {
      assert forall x :: x in cycles + [c] <==> x in cycles || x == c;
    }
  }

  lemma {:induction false} AfterCyclesIsIdentity(groups: map<string, Scaling>, cycles: seq<Cycle>)
    ensures AfterCycles(groups, cycles) == groups <==>
      forall c :: c in cycles ==> NoneLost(groups, ReachedAll(c.runs))
  {
    if n :| n in groups && LostInSome(groups[n], cycles, n) {
      assert AfterCycles(groups, cycles)[n] != groups[n];
    } else {
      assert AfterCycles(groups, cycles) == groups;
    }
  }

  /**
   Any number of cycles, each opened, run and closed as the controller does. A group that some cycle
   loses stays at zero ever after, so the cloud comes back exactly when no cycle loses one.
   */
  method HibernateRepeatedly(cloud: Cloud, mgr: Manager, target: string, cycles: seq<Cycle>)
    requires BetweenCycles(mgr, target)
    requires forall c :: c in cycles ==> c.cycleID != "" && c.runs != []
    modifies cloud, mgr
    ensures BetweenCycles(mgr, target)
    ensures cloud.groups == AfterCycles(old(cloud.groups), cycles)
    ensures cloud.groups == old(cloud.groups) <==>
      forall c :: c in cycles ==> NoneLost(old(cloud.groups), ReachedAll(c.runs))
  {
    ghost var groups := cloud.groups;
    assert AfterCycles(groups, cycles[..0]) == groups;
    for i := 0 to |cycles|
      invariant BetweenCycles(mgr, target)
      invariant cloud.groups == AfterCycles(groups, cycles[..i])
    {
      var c := cycles[i];
      OpenCycle(mgr, target);
      HibernateAndWake(cloud, mgr, target, c.cycleID, c.runs, c.stops);
      CloseCycle(mgr, target);
      OneMoreCycle(groups, cycles[..i], c);
      assert cycles[..i + 1] == cycles[..i] + [c];
    }
    assert cycles[..|cycles|] == cycles;
    AfterCyclesIsIdentity(groups, cycles);
  }
}
