/**
 A worker stuck on an empty queue.

 A sender stores first and signals second. If the worker drains the queue in between, re-armed by
 its own receive, the late signal wakes it for nothing: it takes the signal and then waits for a
 value that is not there, where neither its idle timer nor the pool's context reaches it.
 */
module PoolStalls {
  import opened Wrappers
  import opened WorkerPool
  import opened PoolSafety
  import opened PoolRuns

  /** Worker `j` has taken a signal and waits on an empty queue. */
  ghost predicate Stalled(s: State, j: nat) {
    && j < |s.workers| && s.workers[j].Taken? && s.workers[j].e < |s.heap|
    && s.heap[s.workers[j].e].slot.Fifo? && s.heap[s.workers[j].e].slot.queue == []
  }

  /** A step that stores a value in entry `e`. */
  ghost predicate StoresIn(s: State, a: Action, e: EntryId) {
    a.DeliverStep? && a.i < |s.deliverers| && s.deliverers[a.i].Store? && s.deliverers[a.i].e == e
  }

  lemma {:induction false} DeliverLeavesStalled(c: Config, s: State, j: nat, i: nat)
    requires Inv(s) && Stalled(s, j) && Enabled(s, DeliverStep(i)) && !StoresIn(s, DeliverStep(i), s.workers[j].e)
    ensures Stalled(Deliver(c, s, i), j)
  {
  }

  lemma {:induction false} WorkLeavesStalled(c: Config, s: State, j: nat, k: nat)
    requires Inv(s) && Stalled(s, j) && Enabled(s, WorkerStep(k))
    ensures k != j && Stalled(Work(c, s, k), j)
  {
    assert Busy(s.workers[j], s.workers[j].e);
    WorkFrame(c, s, k);
  }

  /** A step of a worker leaves the other workers and, but for its own, the entries alone. */
  lemma {:induction false} WorkFrame(c: Config, s: State, k: nat)
    requires IdsInRange(s) && Enabled(s, WorkerStep(k))
    ensures
      var s' := Work(c, s, k);
      && |s'.workers| >= |s.workers| && |s'.heap| == |s.heap|
      && (forall j :: 0 <= j < |s.workers| && j != k ==> s'.workers[j] == s.workers[j])
      && (forall e :: 0 <= e < |s.heap| && e != s.workers[k].e ==> s'.heap[e] == s.heap[e])
      && (s.workers[k].Removing? ==> s'.heap == s.heap)
  {
  }

  /** Nothing but a new value for its entry moves a stalled worker: not idleness, not Stop. */
  lemma {:induction false} OnlyAValueFrees(c: Config, s: State, j: nat, a: Action)
    requires Inv(s) && Stalled(s, j) && Enabled(s, a) && !StoresIn(s, a, s.workers[j].e)
    ensures !(a.WorkerStep? && a.j == j) && !(a.TakeSignal? && a.j == j) && !(a.Return? && a.j == j)
    ensures Stalled(Apply(c, s, a), j)
  {
    if a.DeliverStep? {
      DeliverLeavesStalled(c, s, j, a.i);
    } else if a.WorkerStep? {
      WorkLeavesStalled(c, s, j, a.j);
    }
  }

  // ----- When it cannot happen

  /** A slot that holds no queue, or a queue without room and hence never a signal. */
  ghost predicate Roomless(x: Slot) {
    x.Fifo? ==> x.capacity == 0 && x.queue == [] && !x.signal
  }

  /** Such slots everywhere, nobody about to signal a queue and nobody woken by one. */
  ghost predicate NeverWoken(s: State) {
    && (forall e :: 0 <= e < |s.heap| ==> Roomless(s.heap[e].slot))
    && (forall i :: 0 <= i < |s.deliverers| && s.deliverers[i].Signal? && s.deliverers[i].e < |s.heap| ==>
          s.heap[s.deliverers[i].e].slot.Latest?)
    && (forall j :: 0 <= j < |s.workers| && s.workers[j].Taken? && s.workers[j].e < |s.heap| ==>
          s.heap[s.workers[j].e].slot.Latest?)
  }

  /** A step on entry `e` that keeps its kind of slot, and wakes nobody on a queue. */
  lemma {:induction false} NeverWokenKept(s: State, s': State, e: EntryId)
    requires NeverWoken(s) && e < |s.heap| == |s'.heap|
    requires forall k :: 0 <= k < |s.heap| && k != e ==> s'.heap[k] == s.heap[k]
    requires Roomless(s'.heap[e].slot) && (s'.heap[e].slot.Latest? <==> s.heap[e].slot.Latest?)
    requires forall i :: 0 <= i < |s'.deliverers| && s'.deliverers[i].Signal? ==>
      i < |s.deliverers| && (s'.deliverers[i] == s.deliverers[i] || (s'.deliverers[i].e == e && s.heap[e].slot.Latest?))
    requires forall j :: 0 <= j < |s'.workers| && s'.workers[j].Taken? ==>
      j < |s.workers| && s'.workers[j] == s.workers[j]
    ensures NeverWoken(s')
  {
    forall k | 0 <= k < |s'.heap|
      ensures Roomless(s'.heap[k].slot) && (s'.heap[k].slot.Latest? <==> s.heap[k].slot.Latest?)
    {
      assert Roomless(s.heap[k].slot);
    }
  }

  lemma {:induction false} NeverWokenDeliver(c: Config, s: State, i: nat)
    requires Roomless(c.slot) && IdsInRange(s) && Enabled(s, DeliverStep(i)) && NeverWoken(s)
    ensures NeverWoken(Deliver(c, s, i))
  {
    var d := s.deliverers[i];
    assert DelivererInRange(d, |s.heap|);
    if d.Store? || d.Signal? || d.Ensure? {
      NeverWokenSend(c, s, i);
    }
  }

  lemma {:induction false} NeverWokenSend(c: Config, s: State, i: nat)
    requires IdsInRange(s) && Enabled(s, DeliverStep(i)) && NeverWoken(s)
    requires s.deliverers[i].Store? || s.deliverers[i].Signal? || s.deliverers[i].Ensure?
    ensures NeverWoken(Deliver(c, s, i))
  {
    var d := s.deliverers[i];
    assert DelivererInRange(d, |s.heap|);
    assert Roomless(s.heap[d.e].slot);
    NeverWokenKept(s, Deliver(c, s, i), d.e);
  }

  lemma {:induction false} NeverWokenWork(c: Config, s: State, j: nat)
    requires IdsInRange(s) && Enabled(s, WorkerStep(j)) && NeverWoken(s)
    ensures NeverWoken(Work(c, s, j))
  {
    var w := s.workers[j];
    assert WorkerInRange(w, |s.heap|);
    assert Roomless(s.heap[w.e].slot);
    NeverWokenKept(s, Work(c, s, j), w.e);
  }

  lemma {:induction false} NeverWokenStep(c: Config, s: State, a: Action)
    requires Roomless(c.slot) && IdsInRange(s) && Enabled(s, a) && NeverWoken(s)
    ensures NeverWoken(Apply(c, s, a))
  {
    if a.DeliverStep? {
      NeverWokenDeliver(c, s, a.i);
    } else if a.WorkerStep? {
      NeverWokenWork(c, s, a.j);
    } else if a.TakeSignal? {
      NeverWokenTake(c, s, a.j);
    } else if a.RegisterStep? {
      NeverWokenRegister(s);
    }
  }

  lemma {:induction false} NeverWokenTake(c: Config, s: State, j: nat)
    requires IdsInRange(s) && Enabled(s, TakeSignal(j)) && NeverWoken(s)
    ensures NeverWoken(Apply(c, s, TakeSignal(j)))
  {
    assert Roomless(s.heap[s.workers[j].e].slot);
  }

  lemma {:induction false} NeverWokenRegister(s: State)
    requires IdsInRange(s) && Enabled(s, RegisterStep) && NeverWoken(s)
    ensures NeverWoken(Registering(s))
  {
    if s.register.ScanEnsure? {
      assert Roomless(s.heap[s.register.e].slot);
      NeverWokenKept(s, Registering(s), s.register.e);
    }
  }

  lemma {:induction false} NeverWokenRun(c: Config, actions: seq<Action>)
    requires ValidConfig(c) && Roomless(c.slot) && Run(c, actions).Some?
    ensures NeverWoken(Run(c, actions).value)
  {
    if actions != [] {
      var n := |actions| - 1;
      NeverWokenRun(c, actions[..n]);
      NeverWokenStep(c, Run(c, actions[..n]).value, actions[n]);
    }
  }

  // ----- A run in which it happens

  /** One value accepted, the worker started on it about to receive it. */
  lemma {:induction false} AboutToReceive(c: Config) returns (s: State, x: Entry)
    requires ValidConfig(c) && c.slot.Fifo? && c.slot.capacity > 0
    ensures Reached(c, s)
    ensures s == State(map["key" := 0], [x], [Delivered], [Taken(0)], Finished, false)
    ensures x.key == "key" && x.running && x.slot == Fifo([1], c.slot.capacity, false)
  {
    s := RegisterFirst(c);
    s := DeliverFresh(c, s, "key", 1);
    x := AfterSend(Entry("key", c.slot, false, [], []), 1).(running := true);
    assert s.heap == [x] && s.workers == [Starting(0)];
    s := WakeWorker(c, s, x);
    x := s.heap[0];
  }

  /** The value is received; the worker is about to look whether to re-arm. */
  lemma {:induction false} JustReceived(c: Config) returns (s: State, x: Entry)
    requires ValidConfig(c) && c.slot.Fifo? && c.slot.capacity > 0
    ensures Reached(c, s)
    ensures s == State(map["key" := 0], [x], [Delivered], [Rearming(0)], Finished, false)
    ensures x.slot == Fifo([], c.slot.capacity, false)
  {
    s, x := AboutToReceive(c);
    s := Next(c, s, WorkerStep(0));
    x := s.heap[0];
    assert s.workers == [Rearming(0)] && s.heap == [x];
  }

  /** A second call stores its value in between, and pauses. */
  lemma {:induction false} StoredMeanwhile(c: Config) returns (s: State, x: Entry)
    requires ValidConfig(c) && c.slot.Fifo? && c.slot.capacity > 0
    ensures Reached(c, s)
    ensures s == State(map["key" := 0], [x], [Delivered, Signal(0)], [Rearming(0)], Finished, false)
    ensures x.slot == Fifo([2], c.slot.capacity, false)
  {
    s, x := JustReceived(c);
    s := Next(c, s, Begin("key", 2));
    s := Next(c, s, DeliverStep(1));
    assert s.deliverers == [Delivered, Store(0, 2)];
    s := Next(c, s, DeliverStep(1));
    assert s.deliverers == [Delivered, Signal(0)];
    x := s.heap[0];
    assert s.heap == [x];
  }

  /** The worker, re-armed, drains the queue before the call signals. */
  lemma {:induction false} DrainedBeforeSignal(c: Config) returns (s: State, x: Entry)
    requires ValidConfig(c) && c.slot.Fifo? && c.slot.capacity > 0
    ensures Reached(c, s)
    ensures s == State(map["key" := 0], [x], [Delivered, Signal(0)], [Idle(0)], Finished, false)
    ensures x.slot == Fifo([], c.slot.capacity, false)
  {
    s, x := StoredMeanwhile(c);
    s := Next(c, s, WorkerStep(0));
    assert s.workers == [Idle(0)] && s.heap[0].slot == Fifo([2], c.slot.capacity, true);
    s := Next(c, s, TakeSignal(0));
    assert s.workers == [Taken(0)] && s.heap[0].slot == Fifo([2], c.slot.capacity, false);
    s := Next(c, s, WorkerStep(0));
    assert s.workers == [Rearming(0)] && s.heap[0].slot == Fifo([], c.slot.capacity, false);
    s := Next(c, s, WorkerStep(0));
    assert s.workers == [Idle(0)];
    x := s.heap[0];
    assert s.heap == [x];
  }

  /** The late signal wakes it for nothing, and Stop does not release it. */
  lemma {:induction false} StalledAfterStop(c: Config) returns (s: State)
    requires ValidConfig(c) && c.slot.Fifo? && c.slot.capacity > 0
    ensures Reached(c, s) && s.stopped && Stalled(s, 0)
  {
    var x;
    s, x := DrainedBeforeSignal(c);
    s := Next(c, s, DeliverStep(1));
    assert s.workers == [Idle(0)] && s.heap[0].slot == Fifo([], c.slot.capacity, true);
    s := Next(c, s, TakeSignal(0));
    assert s.workers == [Taken(0)];
    s := Next(c, s, Stop);
  }

  /** A stopped pool can keep a stalled worker exactly when its slots are queues with any room. */
  lemma {:induction false} StallsIffQueueHasRoom(c: Config)
    requires ValidConfig(c)
    ensures (exists s, j :: Reached(c, s) && s.stopped && Stalled(s, j)) <==> c.slot.Fifo? && c.slot.capacity > 0
  {
    if c.slot.Fifo? && c.slot.capacity > 0 {
      var s := StalledAfterStop(c);
    } else {
      forall s, j | Reached(c, s)
        ensures !Stalled(s, j)
      {
        var actions :| Run(c, actions) == Some(s);
        NeverWokenRun(c, actions);
      }
    }
  }
}
