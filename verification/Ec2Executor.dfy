/**
 The EC2 executor: instances stopped in bulk and started again.

 A run first discovers the selected instances, reports them all and then stops the running ones
 with one call. Discovery and the stop call may fail. A wake-up starts instances with one call or,
 when some have vanished since they were discovered, one by one; any of its calls may fail.
 */
module Ec2Executor {
  import opened Wrappers
  import opened RestoreStore
  import opened RestoreRuns
  import opened Ec2States

  class Cloud {
    var instances: map<string, Power>

    constructor (instances: map<string, Power>)
      ensures this.instances == instances
    {
      this.instances := instances;
    }

    /** The bulk stop call. */
    method StopInstances(ids: seq<string>)
      modifies this
      ensures instances == WithPower(old(instances), (set id | id in ids), Stopping)
    {
      instances := WithPower(instances, (set id | id in ids), Stopping);
    }

    /** The start call; naming a missing instance starts none. */
    method StartInstances(ids: seq<string>) returns (found: bool)
      modifies this
      ensures found <==> forall id :: id in ids ==> id in old(instances)
      ensures instances == if found then WithPower(old(instances), (set id | id in ids), Pending) else old(instances)
    {
      found := forall id :: id in ids ==> id in instances;
      if found {
        instances := WithPower(instances, (set id | id in ids), Pending);
      }
    }
  }

  method Shutdown(cloud: Cloud, acc: Accumulator, selected: set<string>, failure: Failure, now: Time) returns (ok: bool)
    requires acc.Valid() && acc.state == map[]
    modifies cloud, acc`state, acc`reportedAt
    ensures acc.Valid()
    ensures acc.state == if failure.DiscoveryFails? then map[] else Report(old(cloud.instances), selected)
    ensures cloud.instances ==
      if failure.NoFailure? then WithPower(old(cloud.instances), RunningSet(old(cloud.instances)) * selected, Stopping)
      else old(cloud.instances)
    ensures ok <==> failure.NoFailure? || (failure.StopFails? && RunningSet(old(cloud.instances)) * selected == {})
    ensures forall id :: id in acc.state <==> !failure.DiscoveryFails? && id in old(cloud.instances) && id in selected
    ensures forall id :: id in acc.state ==> acc.state[id] == Instance(id, old(cloud.instances)[id] == Running)
    ensures cloud.instances.Keys == old(cloud.instances).Keys
    ensures forall id :: id in cloud.instances ==>
      var was := old(cloud.instances)[id];
      cloud.instances[id] == if failure.NoFailure? && id in selected && was == Running then Stopping else was
  {
    if failure.DiscoveryFails? {
      return false;
    }
    var toStop := CaptureStates(cloud.instances, acc, selected, now);
    if |toStop| > 0 {
      assert toStop[0] in RunningSet(cloud.instances) * selected;
      if failure.StopFails? {
        return false;
      }
      cloud.StopInstances(toStop);
    } else {
      assert RunningSet(cloud.instances) * selected == {};
      assert WithPower(cloud.instances, {}, Stopping) == cloud.instances;
    }
    return true;
  }

  /** Reports every discovered instance and lists the running ones. */
  method CaptureStates(
    m: map<string, Power>, acc: Accumulator, selected: set<string>, now: Time)
    returns (toStop: seq<string>)
    requires acc.Valid() && acc.state == map[]
    modifies acc`state, acc`reportedAt
    ensures acc.Valid() && acc.state == Report(m, selected)
    ensures (set id | id in toStop) == RunningSet(m) * selected
  {
    var found := set id | id in m && id in selected;
    toStop := [];
    var rest := found;
    while rest != {}
      invariant acc.Valid() && rest <= found
      invariant acc.state == map id | id in m && id in selected && id !in rest :: Instance(id, m[id] == Running)
      invariant forall id :: id in toStop <==> id in found - rest && m[id] == Running
    {
      var id :| id in rest;
      rest := rest - {id};
      var wasRunning := m[id] == Running;
      if wasRunning {
        toStop := toStop + [id];
      }
      acc.Add(id, Instance(id, wasRunning), now);
    }
  }

  // ----- Waking up

  /** The IDs that the restore data says were running. */
  method PreviouslyRunning(data: map<string, StateValue>) returns (ids: set<string>)
    ensures forall id :: id in ids <==> WasRunning(data, id)
  {
    ids := {};
    var rest := data.Keys;
    while rest != {}
      invariant rest <= data.Keys
      invariant forall id :: id in ids <==>
        exists k :: k in data && k !in rest && data[k].Instance? && data[k].wasRunning && SavedID(k, data[k]) == id
    {
      var key :| key in rest;
      ghost var before := rest;
      rest := rest - {key};
      assert forall k :: k in data && k !in rest <==> k in data && (k !in before || k == key);
      if data[key].Instance? && data[key].wasRunning {
        ids := ids + {SavedID(key, data[key])};
      }
    }
  }

  /** The discovered instances to start. */
  method SelectToStart(
    m: map<string, Power>, selected: set<string>, data: map<string, StateValue>)
    returns (ids: seq<string>)
    ensures forall id :: id in ids <==> ToStart(m, selected, data, id)
    ensures |ids| == |ToStartSet(m, selected, data)|
  {
    var previouslyRunning := PreviouslyRunning(data);
    ids := [];
    var found := set id | id in m && id in selected;
    while found != {}
      invariant found <= m.Keys * selected
      invariant forall id :: id in ids <==> id !in found && ToStart(m, selected, data, id)
      invariant |ids| == |ToStartSet(m, selected, data) - found|
    {
      var id :| id in found;
      SelectedOneMore(ToStartSet(m, selected, data), found, id);
      found := found - {id};
      if id in previouslyRunning && Startable(m[id]) {
        ids := ids + [id];
      }
    }
  }

  /** One by one, missing instances skipped; the call at position `stopAt`, if any, fails. */
  method StartEach(cloud: Cloud, ids: seq<string>, stopAt: nat) returns (ok: bool, ghost done: set<string>)
    modifies cloud
    ensures forall id :: id in done ==> id in ids
    ensures cloud.instances == WithPower(old(cloud.instances), done, Pending)
    ensures ok <==> |ids| <= stopAt
    ensures ok ==> forall id :: id in ids ==> id in done
  {
    done := {};
    assert WithPower(cloud.instances, {}, Pending) == cloud.instances;
    for i := 0 to |ids|
      invariant i <= stopAt && done == set id | id in ids[..i]
      invariant cloud.instances == WithPower(old(cloud.instances), done, Pending)
    {
      if i == stopAt {
        return false, done;
      }
      var found := cloud.StartInstances([ids[i]]);
      StartedOneMore(old(cloud.instances), done, ids[i]);
      assert ids[..i + 1] == ids[..i] + [ids[i]];
      done := done + {ids[i]};
    }
    return true, done;
  }

  /**
   An instance of the selection that is stopped or stopping, and that some saved state marks as
   running, either by its instance ID or, if that is empty, by its key.
   */
  ghost predicate MustStart(m: map<string, Power>, selected: set<string>, data: map<string, StateValue>, id: string) {
    && id in m && id in selected && (m[id] == Stopped || m[id] == Stopping)
    && exists k :: k in data && data[k].Instance? && data[k].wasRunning &&
         ((data[k].id != "" && data[k].id == id) || (data[k].id == "" && k == id))
  }

  method WakeUp(cloud: Cloud, selected: set<string>, data: map<string, StateValue>, run: WakeRun)
    returns (ok: bool, ghost done: set<string>)
    modifies cloud
    ensures forall id :: id in done ==> ToStart(old(cloud.instances), selected, data, id)
    ensures cloud.instances == WithPower(Without(old(cloud.instances), run.gone), done, Pending)
    ensures ok ==> forall id :: ToStart(old(cloud.instances), selected, data, id) ==> id in done
    ensures ok <==> data == map[] || Succeeds(run, ToStartSet(old(cloud.instances), selected, data))
    ensures forall id :: id in done ==> MustStart(old(cloud.instances), selected, data, id)
    ensures ok ==> forall id :: MustStart(old(cloud.instances), selected, data, id) ==> id in done
    ensures cloud.instances.Keys == old(cloud.instances).Keys - run.gone
    ensures forall id :: id in cloud.instances ==>
      cloud.instances[id] == if id in done then Pending else old(cloud.instances)[id]
  {
    done := {};
    ghost var before := cloud.instances;
    if |data| == 0 || run.discoveryFails {
      cloud.instances := Without(cloud.instances, run.gone);
      assert WithPower(cloud.instances, {}, Pending) == cloud.instances;
      return |data| == 0, done;
    }
    var toStart := SelectToStart(cloud.instances, selected, data);
    cloud.instances := Without(cloud.instances, run.gone);
    assert WithPower(cloud.instances, {}, Pending) == cloud.instances;
    if |toStart| == 0 {
      return true, done;
    }
    assert ToStart(before, selected, data, toStart[0]);
    if run.bulkFails {
      return false, done;
    }
    var found := cloud.StartInstances(toStart);
    assert found <==> ToStartSet(before, selected, data) !! run.gone;
    if found {
      return true, set id | id in toStart;
    }
    ok, done := StartEach(cloud, toStart, run.stopAt);
  }

  // ----- End to end

  method ShutdownRun(cloud: Cloud, mgr: Manager, target: string, cycleID: string, selected: set<string>, run: PowerRun)
    requires Sound(mgr, target)
    modifies cloud, mgr
    ensures cloud.instances == CloudRun(old(cloud.instances), selected, run)
    ensures Shows(mgr, target, cycleID,
      Absorb(CycleView(old(mgr.Lookup(target)), cycleID), RunReport(old(cloud.instances), selected, run)))
  {
    var acc := new Accumulator(target, "ec2", cycleID);
    var _ := Shutdown(cloud, acc, selected, run.failure, run.now);
    FlushInCycle(acc, mgr, run.now);
    cloud.instances := Settle(cloud.instances, run.settling);
  }

  /** After the first `i` runs of a cycle. */
  ghost predicate InCycle(
    cloud: Cloud, mgr: Manager, target: string, cycleID: string, m: map<string, Power>, selected: set<string>,
    runs: seq<PowerRun>, i: nat)
    requires i <= |runs|
    reads cloud, mgr
  {
    && Sound(mgr, target)
    && cloud.instances == CloudAfter(m, selected, runs[..i])
    && CycleView(mgr.Lookup(target), cycleID) == ViewAfter(m, selected, runs[..i])
    && (i > 0 ==> Shows(mgr, target, cycleID, ViewAfter(m, selected, runs[..i])))
  }

  method NextRun(
    cloud: Cloud, mgr: Manager, target: string, cycleID: string, selected: set<string>, runs: seq<PowerRun>, i: nat,
    ghost m: map<string, Power>)
    requires i < |runs| && InCycle(cloud, mgr, target, cycleID, m, selected, runs, i)
    modifies cloud, mgr
    ensures InCycle(cloud, mgr, target, cycleID, m, selected, runs, i + 1)
  {
    OneMoreRun(m, selected, runs, i);
    ShutdownRun(cloud, mgr, target, cycleID, selected, runs[i]);
  }

  /** The shutdown runs of a cycle, at least one of them. */
  method Hibernate(
    cloud: Cloud, mgr: Manager, target: string, cycleID: string, selected: set<string>, runs: seq<PowerRun>)
    requires runs != [] && Sound(mgr, target)
    requires mgr.Lookup(target).Some? ==> mgr.Lookup(target).value.cycleID != cycleID
    modifies cloud, mgr
    ensures cloud.instances == CloudAfter(old(cloud.instances), selected, runs)
    ensures Shows(mgr, target, cycleID, ViewAfter(old(cloud.instances), selected, runs))
    ensures forall i, id ::
      0 <= i < |runs| && runs[i].failure.NoFailure? && id in selected && id in cloud.instances &&
      id in old(cloud.instances) && old(cloud.instances)[id] == Running ==>
        cloud.instances[id] == Stopping || cloud.instances[id] == Stopped
  {
    ghost var m := cloud.instances;
    for i := 0 to |runs|
      invariant InCycle(cloud, mgr, target, cycleID, m, selected, runs, i)
    {
      NextRun(cloud, mgr, target, cycleID, selected, runs, i, m);
    }
    assert runs[..|runs|] == runs;
    forall i, id | 0 <= i < |runs| && runs[i].failure.NoFailure? && id in selected && id in m && m[id] == Running
      ensures id in cloud.instances && (cloud.instances[id] == Stopping || cloud.instances[id] == Stopped)
    {
      StoppedStays(m, selected, runs, i, id);
    }
  }

  /** Wake-ups that may fail anywhere, and then one that meets no failure. */
  method Wake(
    cloud: Cloud, mgr: Manager, target: string, selected: set<string>, wakes: seq<WakeRun>, ghost m: map<string, Power>)
    requires mgr.Lookup(target).Some?
    requires Recoverable(m, cloud.instances, selected, Visible(mgr.Lookup(target).value), {})
    modifies cloud
    ensures Recovered(m, cloud.instances, GoneIn(wakes))
  {
    ghost var view := Visible(mgr.Lookup(target).value);
    assert wakes[..0] == [];
    for i := 0 to |wakes|
      invariant Recoverable(m, cloud.instances, selected, view, GoneIn(wakes[..i]))
    {
      WakeAttempt(cloud, mgr, target, selected, wakes[i], m, GoneIn(wakes[..i]));
      assert wakes[..i + 1][..i] == wakes[..i];
    }
    assert wakes[..|wakes|] == wakes;
    var data := LoadRestoreData(mgr, target);
    ghost var c := cloud.instances;
    var ok, done := WakeUp(cloud, selected, data.value, WakeRun(false, false, 0, {}, {}));
    assert cloud.instances == Woken(c, selected, view);
    WakingRecovers(m, c, selected, view, GoneIn(wakes));
  }

  method WakeAttempt(
    cloud: Cloud, mgr: Manager, target: string, selected: set<string>, wake: WakeRun,
    ghost m: map<string, Power>, ghost gone: set<string>)
    requires mgr.Lookup(target).Some?
    requires Recoverable(m, cloud.instances, selected, Visible(mgr.Lookup(target).value), gone)
    modifies cloud
    ensures Recoverable(m, cloud.instances, selected, Visible(mgr.Lookup(target).value), gone + wake.gone)
  {
    var data := LoadRestoreData(mgr, target);
    ghost var c := cloud.instances;
    var ok, done := WakeUp(cloud, selected, data.value, wake);
    cloud.instances := Settle(cloud.instances, wake.settling);
    WakingIsRecoverable(m, c, selected, data.value, gone, done, wake.gone, wake.settling);
  }

  /** A hibernation cycle against the stored record, wake-ups failing anywhere until one succeeds. */
  method HibernateAndWake(
    cloud: Cloud, mgr: Manager, target: string, cycleID: string, selected: set<string>, runs: seq<PowerRun>,
    wakes: seq<WakeRun>)
    requires runs != [] && Sound(mgr, target)
    requires mgr.Lookup(target).Some? ==> mgr.Lookup(target).value.cycleID != cycleID
    modifies cloud, mgr
    ensures Recovered(old(cloud.instances), cloud.instances, GoneIn(wakes))
    ensures Shows(mgr, target, cycleID, ViewAfter(old(cloud.instances), selected, runs))
  {
    ghost var m := cloud.instances;
    Hibernate(cloud, mgr, target, cycleID, selected, runs);
    ShutdownsAreRecoverable(m, selected, runs);
    Wake(cloud, mgr, target, selected, wakes, m);
  }

  /** Any number of cycles, each opened, run and closed as the controller does. */
  method HibernateRepeatedly(cloud: Cloud, mgr: Manager, target: string, cycles: seq<Cycle>)
    requires BetweenCycles(mgr, target)
    requires forall c :: c in cycles ==> c.cycleID != "" && c.runs != []
    modifies cloud, mgr
    ensures BetweenCycles(mgr, target) && Recovered(old(cloud.instances), cloud.instances, GoneInAll(cycles))
  {
    ghost var m := cloud.instances;
    assert cycles[..0] == [];
    for i := 0 to |cycles|
      invariant BetweenCycles(mgr, target) && Recovered(m, cloud.instances, GoneInAll(cycles[..i]))
    {
      var c := cycles[i];
      ghost var before := cloud.instances;
      OpenCycle(mgr, target);
      HibernateAndWake(cloud, mgr, target, c.cycleID, c.selected, c.runs, c.wakes);
      CloseCycle(mgr, target);
      RecoveredTwice(m, before, cloud.instances, GoneInAll(cycles[..i]), GoneIn(c.wakes));
      assert cycles[..i + 1][..i] == cycles[..i];
    }
    assert cycles[..|cycles|] == cycles;
  }
}
