/**
 EC2 instances through shutdown runs and wake-ups, as values.

 A stopped instance passes through `Stopping` and a started one through `Pending`; between runs the
 cloud may let any of them settle in `Stopped` or `Running`. An instance is up when it runs or is
 about to.
 */
module Ec2States {
  import opened Wrappers
  import opened RestoreStore
  import opened RestoreRuns

  datatype Power = Pending | Running | Stopping | Stopped | Terminated

  function WithPower(m: map<string, Power>, ids: set<string>, p: Power): map<string, Power> {
    map id | id in m :: if id in ids then p else m[id]
  }

  function Settled(p: Power): Power {
    if p == Stopping then Stopped else if p == Pending then Running else p
  }

  /** Instances that came to rest, or came up. */
  function Settle(m: map<string, Power>, ids: set<string>): map<string, Power> {
    map id | id in m :: if id in ids then Settled(m[id]) else m[id]
  }

  predicate Up(p: Power) {
    p == Running || p == Pending
  }

  function UpSet(m: map<string, Power>): set<string> {
    set id | id in m && Up(m[id])
  }

  function RunningSet(m: map<string, Power>): set<string> {
    set id | id in m && m[id] == Running
  }

  /** What a run reports: every selected instance, running or not. */
  ghost function Report(m: map<string, Power>, selected: set<string>): map<string, StateValue> {
    map id | id in m && id in selected :: Instance(id, m[id] == Running)
  }

  datatype Failure = NoFailure | DiscoveryFails | StopFails

  // ----- What a wake-up starts

  predicate Startable(p: Power) {
    p == Stopped || p == Stopping
  }

  /** The instances a wake-up has to start: selected, saved as running, and at rest. */
  ghost predicate ToStart(m: map<string, Power>, selected: set<string>, data: map<string, StateValue>, id: string) {
    id in m && id in selected && Startable(m[id]) && WasRunning(data, id)
  }

  ghost function ToStartSet(m: map<string, Power>, selected: set<string>, data: map<string, StateValue>): set<string> {
    set id | id in m && ToStart(m, selected, data, id)
  }

  /** Selected instances that were running and now rest are started. */
  ghost function Woken(
    m: map<string, Power>, selected: set<string>, data: map<string, StateValue>): map<string, Power>
  {
    map id | id in m :: if ToStart(m, selected, data, id) then Pending else m[id]
  }

  /** Some saved state names this instance, by its ID or else by its key, as running. */
  ghost predicate WasRunning(data: map<string, StateValue>, id: string) {
    exists k :: k in data && data[k].Instance? && data[k].wasRunning && SavedID(k, data[k]) == id
  }

  function SavedID(key: string, v: StateValue): string
    requires v.Instance?
  {
    if v.id == "" then key else v.id
  }

  lemma {:induction false} SelectedOneMore(all: set<string>, found: set<string>, id: string)
    requires id in found
    ensures |all - (found - {id})| == |all - found| + if id in all then 1 else 0
  {
    if id in all {
      assert all - (found - {id}) == (all - found) + {id};
    } else {
      assert all - (found - {id}) == all - found;
    }
  }

  lemma {:induction false} StartedOneMore(m: map<string, Power>, done: set<string>, id: string)
    ensures
      var was := WithPower(m, done, Pending);
      WithPower(m, done + {id}, Pending) ==
        if forall x :: x in [id] ==> x in was then WithPower(was, (set x | x in [id]), Pending) else was
  {
    assert id in [id];
  }

  /**
   How a wake-up goes: which of its calls fails, which instances vanish once discovered, and which
   settle afterwards.
   */
  datatype WakeRun = WakeRun(
    discoveryFails: bool,
    bulkFails: bool,
    stopAt: nat,
    gone: set<string>,
    settling: set<string>)

  /** What is left of the cloud when instances are gone. */
  function Without(m: map<string, Power>, gone: set<string>): map<string, Power> {
    map id | id in m && id !in gone :: m[id]
  }

  /** No call fails that is made. */
  predicate Succeeds(run: WakeRun, toStart: set<string>) {
    && !run.discoveryFails
    && (toStart == {} || (!run.bulkFails && (toStart !! run.gone || |toStart| <= run.stopAt)))
  }

  // ----- A cycle of runs

  /** One run: how it fails, and which instances settle before the next. */
  datatype PowerRun = PowerRun(failure: Failure, settling: set<string>, now: Time)

  ghost function CloudRun(m: map<string, Power>, selected: set<string>, run: PowerRun): map<string, Power> {
    Settle(if run.failure.NoFailure? then WithPower(m, RunningSet(m) * selected, Stopping) else m, run.settling)
  }

  ghost function RunReport(m: map<string, Power>, selected: set<string>, run: PowerRun): map<string, StateValue> {
    if run.failure.DiscoveryFails? then map[] else Report(m, selected)
  }

  ghost function CloudAfter(m: map<string, Power>, selected: set<string>, runs: seq<PowerRun>): map<string, Power> {
    if runs == [] then m
    else CloudRun(CloudAfter(m, selected, runs[..|runs| - 1]), selected, runs[|runs| - 1])
  }

  ghost function ViewAfter(m: map<string, Power>, selected: set<string>, runs: seq<PowerRun>): map<string, StateValue> {
    if runs == [] then map[]
    else
      var n := |runs| - 1;
      Absorb(ViewAfter(m, selected, runs[..n]), RunReport(CloudAfter(m, selected, runs[..n]), selected, runs[n]))
  }

  /**
   An instance that was up and no longer is rests, and the record says it was running. One that was
   not up did no more than come to rest, and the record does not say so.
   */
  ghost predicate InstanceOk(was: Power, now: Power, selected: bool, saved: Option<StateValue>, id: string) {
    && (Up(was) && !Up(now) ==> selected && Startable(now) && saved == Some(Instance(id, true)))
    && (!Up(was) ==> now == was || now == Settled(was))
    && (saved.Some? ==> saved.value.Instance? && saved.value.id == id && (!Up(was) ==> !saved.value.wasRunning))
  }

  lemma {:induction false} CycleAt(m: map<string, Power>, selected: set<string>, runs: seq<PowerRun>, id: string)
    ensures
      var cloud, view := CloudAfter(m, selected, runs), ViewAfter(m, selected, runs);
      && cloud.Keys == m.Keys
      && (id in view ==> id in m && id in selected)
      && (id in m ==> InstanceOk(m[id], cloud[id], id in selected, if id in view then Some(view[id]) else None, id))
  {
    if runs != [] {
      CycleAt(m, selected, runs[..|runs| - 1], id);
    }
  }

  lemma {:induction false} SavedRunning(m: map<string, Power>, selected: set<string>, runs: seq<PowerRun>, id: string)
    requires id in m
    ensures WasRunning(ViewAfter(m, selected, runs), id) <==>
      id in ViewAfter(m, selected, runs) && ViewAfter(m, selected, runs)[id] == Instance(id, true)
  {
    var view := ViewAfter(m, selected, runs);
    forall k | k in view
      ensures view[k].Instance? && view[k].id == k && SavedID(k, view[k]) == k
    {
      CycleAt(m, selected, runs, k);
    }
    if WasRunning(view, id) {
      var k :| k in view && view[k].Instance? && view[k].wasRunning && SavedID(k, view[k]) == id;
      assert k == id;
    }
    if id in view && view[id] == Instance(id, true) {
      assert SavedID(id, view[id]) == id;
    }
  }

  /** Hibernating hibernates: a run without failure brings what was running down for the whole cycle. */
  lemma {:induction false} StoppedStays(
    m: map<string, Power>, selected: set<string>, runs: seq<PowerRun>, i: nat, id: string)
    requires i < |runs| && runs[i].failure.NoFailure? && id in selected && id in m && m[id] == Running
    ensures
      var c := CloudAfter(m, selected, runs);
      id in c && (c[id] == Stopping || c[id] == Stopped)
  {
    var k := |runs| - 1;
    RunningOrDown(m, selected, runs[..k], id);
    if i < k {
      assert runs[..k][i] == runs[i];
      StoppedStays(m, selected, runs[..k], i, id);
    }
  }

  lemma {:induction false} RunningOrDown(m: map<string, Power>, selected: set<string>, runs: seq<PowerRun>, id: string)
    requires id in m && m[id] == Running
    ensures
      var c := CloudAfter(m, selected, runs);
      id in c && (c[id] == Running || c[id] == Stopping || c[id] == Stopped)
  {
    if runs != [] {
      RunningOrDown(m, selected, runs[..|runs| - 1], id);
    }
  }

  // ----- Getting the cloud back

  /**
   The original cloud `m` can be had back from `c`: whatever was up still is, or rests and is saved
   as running, and nothing else did more than come to rest. Instances in `gone` are lost.
   */
  ghost predicate Recoverable(
    m: map<string, Power>, c: map<string, Power>, selected: set<string>, data: map<string, StateValue>,
    gone: set<string>)
  {
    && c.Keys == m.Keys - gone
    && forall id :: id in c ==>
      if Up(m[id]) then Up(c[id]) || ToStart(c, selected, data, id)
      else !WasRunning(data, id) && (c[id] == m[id] || c[id] == Settled(m[id]))
  }

  /** Shutdown runs, with discovery or the stop call failing at will, lose nothing. */
  lemma {:induction false} ShutdownsAreRecoverable(m: map<string, Power>, selected: set<string>, runs: seq<PowerRun>)
    ensures Recoverable(m, CloudAfter(m, selected, runs), selected, ViewAfter(m, selected, runs), {})
  {
    var c, view := CloudAfter(m, selected, runs), ViewAfter(m, selected, runs);
    CycleAt(m, selected, runs, "");
    forall id | id in c
      ensures if Up(m[id]) then Up(c[id]) || ToStart(c, selected, view, id)
              else !WasRunning(view, id) && (c[id] == m[id] || c[id] == Settled(m[id]))
    {
      CycleAt(m, selected, runs, id);
      SavedRunning(m, selected, runs, id);
    }
  }

  /** Neither does a wake-up that starts only some of the instances it has to. */
  lemma {:induction false} WakingIsRecoverable(
    m: map<string, Power>, c: map<string, Power>, selected: set<string>, data: map<string, StateValue>,
    gone: set<string>,
    done: set<string>, more: set<string>, settling: set<string>)
    requires Recoverable(m, c, selected, data, gone)
    requires forall id :: id in done ==> ToStart(c, selected, data, id)
    ensures Recoverable(m, Settle(WithPower(Without(c, more), done, Pending), settling), selected, data, gone + more)
  {
    var c' := Settle(WithPower(Without(c, more), done, Pending), settling);
    forall id | id in c'
      ensures if Up(m[id]) then Up(c'[id]) || ToStart(c', selected, data, id)
              else !WasRunning(data, id) && (c'[id] == m[id] || c'[id] == Settled(m[id]))
    {
      assert id in c;
    }
  }

  /** One that starts all of them brings everything up that was. */
  lemma {:induction false} WakingRecovers(
    m: map<string, Power>, c: map<string, Power>, selected: set<string>, data: map<string, StateValue>,
    gone: set<string>)
    requires Recoverable(m, c, selected, data, gone)
    ensures Recovered(m, Woken(c, selected, data), gone)
  {
    var woken := Woken(c, selected, data);
    forall id | id in c
      ensures Up(woken[id]) <==> Up(m[id])
    {
    }
  }

  /** Up is what was up; no other instance did more than come to rest. */
  ghost predicate Recovered(m: map<string, Power>, c: map<string, Power>, gone: set<string>) {
    && c.Keys == m.Keys - gone
    && UpSet(c) == UpSet(m) - gone
    && forall id :: id in c && !Up(m[id]) ==> c[id] == m[id] || c[id] == Settled(m[id])
  }

  /** Once everything has settled, exactly the instances that were up are running. */
  lemma {:induction false} RecoveredRuns(m: map<string, Power>, c: map<string, Power>, gone: set<string>)
    requires Recovered(m, c, gone)
    ensures RunningSet(Settle(c, c.Keys)) == UpSet(m) - gone
    ensures (forall id :: id in m ==> m[id] != Pending) ==> RunningSet(Settle(c, c.Keys)) == RunningSet(m) - gone
  {
    assert RunningSet(Settle(c, c.Keys)) == UpSet(c);
    if forall id :: id in m ==> m[id] != Pending {
      assert UpSet(m) == RunningSet(m);
    }
  }

  /**
   Any number of shutdown runs, with discovery or the stop call failing at will, then one
   wake-up: the instances up are exactly those that were, and no other instance changed except by
   coming to rest.
   */
  lemma {:induction false} ShutdownsThenWakeUp(m: map<string, Power>, selected: set<string>, runs: seq<PowerRun>)
    ensures Recovered(m, Woken(CloudAfter(m, selected, runs), selected, ViewAfter(m, selected, runs)), {})
  {
    ShutdownsAreRecoverable(m, selected, runs);
    WakingRecovers(m, CloudAfter(m, selected, runs), selected, ViewAfter(m, selected, runs), {});
  }

  lemma {:induction false} OneMoreRun(m: map<string, Power>, selected: set<string>, runs: seq<PowerRun>, i: nat)
    requires i < |runs|
    ensures
      var c := CloudAfter(m, selected, runs[..i]);
      && CloudAfter(m, selected, runs[..i + 1]) == CloudRun(c, selected, runs[i])
      && ViewAfter(m, selected, runs[..i + 1]) ==
           Absorb(ViewAfter(m, selected, runs[..i]), RunReport(c, selected, runs[i]))
  {
    assert runs[..i + 1][..i] == runs[..i];
  }

  // ----- Several wake-ups, several cycles

  /** The instances that vanish during these wake-ups. */
  ghost function GoneIn(wakes: seq<WakeRun>): set<string> {
    if wakes == [] then {} else GoneIn(wakes[..|wakes| - 1]) + wakes[|wakes| - 1].gone
  }

  datatype Cycle = Cycle(cycleID: string, selected: set<string>, runs: seq<PowerRun>, wakes: seq<WakeRun>)

  ghost function GoneInAll(cycles: seq<Cycle>): set<string> {
    if cycles == [] then {} else GoneInAll(cycles[..|cycles| - 1]) + GoneIn(cycles[|cycles| - 1].wakes)
  }

  lemma {:induction false} RecoveredTwice(
    m: map<string, Power>, c: map<string, Power>, c': map<string, Power>, gone: set<string>, more: set<string>)
    requires Recovered(m, c, gone) && Recovered(c, c', more)
    ensures Recovered(m, c', gone + more)
  {
    forall id | id in c'
      ensures !Up(m[id]) ==> c'[id] == m[id] || c'[id] == Settled(m[id])
    {
      assert id in UpSet(c) <==> id in UpSet(m);
    }
  }
}
