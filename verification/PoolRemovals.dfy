/**
 What auto-removal takes out of the map.

 A worker removes its key after it looked at its own entry once more. If that entry is an orphan, the
 key leads to another entry by then, and that one is taken out although it may be running.
 */
module PoolRemovals {
  import opened Wrappers
  import opened WorkerPool
  import opened PoolSafety
  import opened PoolRuns
  import opened PoolSteps

  /** The step takes `k` out of the map. */
  ghost predicate Removes(c: Config, s: State, a: Action, k: Key)
    requires IdsInRange(s) && Enabled(s, a)
  {
    k in s.entries && k !in Apply(c, s, a).entries
  }

  ghost predicate RestsEmpty(x: Entry) {
    !x.running && !Pending(x.slot)
  }

  /** If the key still leads to the remover's own entry, what is removed neither runs nor has values pending. */
  lemma {:induction false} OwnEntryIsSafe(c: Config, s: State, a: Action, k: Key)
    requires Inv(s) && Enabled(s, a) && Removes(c, s, a, k)
    ensures a.WorkerStep? && s.workers[a.j].Removing? && s.heap[s.workers[a.j].e].key == k
    ensures s.workers[a.j].e == s.entries[k] ==> RestsEmpty(s.heap[s.entries[k]])
  {
    if !(a.WorkerStep? && s.workers[a.j].Removing?) {
      OnlyRemovalRemoves(c, s, a, k);
    } else {
      RemovalLooksAgain(c, s, a.j, s.workers[a.j].e);
    }
  }

  // ----- A run that removes a running entry

  /** At most one value, and if there is one the signal for it. */
  ghost predicate OneAtMost(x: Slot) {
    x.Fifo? ==> x.queue == [] || (|x.queue| == 1 && x.signal)
  }

  /** Worker `j` waits on entry `e`, which holds nothing. */
  ghost predicate WaitsOnNothing(s: State, j: nat, e: EntryId) {
    && j < |s.workers| && s.workers[j] == Idle(e) && e < |s.heap| && !Pending(s.heap[e].slot)
    && s.register.Finished? && !s.stopped
  }

  /** Everything but worker `j` and entry `e` is as it was, and the entry kept its key. */
  ghost predicate ElseSame(s: State, s': State, j: nat, e: EntryId) {
    && s'.entries == s.entries && |s'.workers| == |s.workers| && |s'.heap| == |s.heap|
    && (forall k :: 0 <= k < |s.workers| && k != j ==> s'.workers[k] == s.workers[k])
    && (forall x :: 0 <= x < |s.heap| && x != e ==> s'.heap[x] == s.heap[x])
    && (e < |s.heap| ==> s'.heap[e].key == s.heap[e].key)
    && s'.register == s.register && s'.stopped == s.stopped
  }

  lemma {:induction false} ElseSameAgain(s: State, s': State, s'': State, j: nat, e: EntryId)
    requires ElseSame(s, s', j, e) && ElseSame(s', s'', j, e)
    ensures ElseSame(s, s'', j, e)
  {
  }

  /** A started worker handles the one value there may be. */
  lemma {:induction false} HandlesAll(c: Config, s0: State, j: nat, e: EntryId) returns (s: State)
    requires ValidConfig(c) && Reached(c, s0) && s0.register.Finished? && !s0.stopped
    requires j < |s0.workers| && s0.workers[j] == Starting(e) && e < |s0.heap| && OneAtMost(s0.heap[e].slot)
    ensures Reached(c, s) && WaitsOnNothing(s, j, e) && ElseSame(s0, s, j, e)
  {
    s := Next(c, s0, WorkerStep(j));
    assert ElseSame(s0, s, j, e);
    if Pending(s.heap[e].slot) {
      var before := s;
      s := TakesOne(c, s, j, e);
      ElseSameAgain(s0, before, s, j, e);
    }
  }

  lemma {:induction false} TakesOne(c: Config, s0: State, j: nat, e: EntryId) returns (s: State)
    requires ValidConfig(c) && Reached(c, s0) && s0.register.Finished? && !s0.stopped
    requires j < |s0.workers| && s0.workers[j] == Idle(e) && e < |s0.heap|
    requires OneAtMost(s0.heap[e].slot) && Pending(s0.heap[e].slot)
    ensures Reached(c, s) && WaitsOnNothing(s, j, e) && ElseSame(s0, s, j, e)
  {
    s := Next(c, s0, TakeSignal(j));
    assert ElseSame(s0, s, j, e);
    var taken := s;
    s := Receives(c, s, j, e);
    ElseSameAgain(s0, taken, s, j, e);
  }

  lemma {:induction false} Receives(c: Config, s0: State, j: nat, e: EntryId) returns (s: State)
    requires ValidConfig(c) && Reached(c, s0) && s0.register.Finished? && !s0.stopped
    requires j < |s0.workers| && s0.workers[j] == Taken(e) && e < |s0.heap| && !s0.heap[e].slot.signal
    requires s0.heap[e].slot.Fifo? ==> |s0.heap[e].slot.queue| == 1
    ensures Reached(c, s) && WaitsOnNothing(s, j, e) && ElseSame(s0, s, j, e)
  {
    s := Next(c, s0, WorkerStep(j));
    assert ElseSame(s0, s, j, e);
    if s0.heap[e].slot.Fifo? {
      var rearming := s;
      s := Next(c, s, WorkerStep(j));
      assert ElseSame(rearming, s, j, e);
      ElseSameAgain(s0, rearming, s, j, e);
    }
  }

  /** It goes idle and is about to remove its key. */
  lemma {:induction false} GoesToRemove(c: Config, s0: State, j: nat, e: EntryId) returns (s: State)
    requires ValidConfig(c) && c.autoRemove && Reached(c, s0) && WaitsOnNothing(s0, j, e)
    ensures Reached(c, s) && ElseSame(s0, s, j, e)
    ensures s.workers[j] == Removing(e) && RestsEmpty(s.heap[e])
  {
    s := Next(c, s0, Return(j));
    assert ElseSame(s0, s, j, e);
    s := Next(c, s, WorkerStep(j));
    assert ElseSame(s0, s, j, e) && s.heap == s0.heap;
    s := Next(c, s, WorkerStep(j));
    assert ElseSame(s0, s, j, e);
  }

  /** The worker on an orphan removes the key of the entry that took its place, which is running. */
  lemma {:induction false} RunningEntryIsRemoved(c: Config, key: Key) returns (s: State, a: Action)
    requires ValidConfig(c) && c.autoRemove
    ensures Reached(c, s) && Enabled(s, a) && Removes(c, s, a, key) && s.heap[s.entries[key]].running
  {
    var x;
    s, x := OrphanBesideNew(c, key);
    var start := s;
    s := HandlesAll(c, s, 1, 0);
    var idle := s;
    s := GoesToRemove(c, s, 1, 0);
    ElseSameAgain(start, idle, s, 1, 0);
    a := WorkerStep(1);
    RemovalLooksAgain(c, s, 1, 0);
  }

  /** What is removed always rests and is empty exactly when auto-removal is off, that is, never removes. */
  lemma {:induction false} RemovalIsSafeIffOff(c: Config)
    requires ValidConfig(c)
    ensures !c.autoRemove <==>
      forall s, a, k :: Reached(c, s) && Enabled(s, a) && Removes(c, s, a, k) ==> RestsEmpty(s.heap[s.entries[k]])
  {
    if c.autoRemove {
      var s, a := RunningEntryIsRemoved(c, "key");
      assert !RestsEmpty(s.heap[s.entries["key"]]);
    } else {
      forall s, a, k | Reached(c, s) && Enabled(s, a)
        ensures !Removes(c, s, a, k)
      {
        NothingIsRemoved(c, s, a, k);
      }
    }
  }

  lemma {:induction false} NothingIsRemoved(c: Config, s: State, a: Action, k: Key)
    requires ValidConfig(c) && !c.autoRemove && Reached(c, s) && Enabled(s, a)
    ensures !Removes(c, s, a, k)
  {
    var actions :| Run(c, actions) == Some(s);
    WithoutAutoRemove(c, actions);
    if k in s.entries {
      OnlyRemovalRemoves(c, s, a, k);
    }
  }
}
