/**
 What single steps of the worker pool do, spelled out on the fields they touch, and what follows
 for whole runs: which values are accepted, what a stop still lets start, and what removal removes.
 */
module PoolSteps {
  import opened Wrappers
  import opened WorkerPool
  import opened PoolSafety
  import opened PoolRuns

  // ----- Sending

  /** A queue takes a value exactly when it holds fewer than its capacity; otherwise the value is dropped. */
  lemma {:induction false} QueueTakesIffRoom(c: Config, s: State, i: nat, e: EntryId, v: Value)
    requires IdsInRange(s) && i < |s.deliverers| && s.deliverers[i] == Store(e, v) && s.heap[e].slot.Fifo?
    ensures Enabled(s, DeliverStep(i))
    ensures
      var x, s' := s.heap[e], Apply(c, s, DeliverStep(i));
      && (|x.slot.queue| < x.slot.capacity ==>
            && s'.heap == s.heap[e := Entry(x.key, Fifo(x.slot.queue + [v], x.slot.capacity, x.slot.signal),
                                            x.running, x.accepted + [v], x.received)]
            && s'.deliverers == s.deliverers[i := Signal(e)])
      && (|x.slot.queue| >= x.slot.capacity ==>
            s'.heap == s.heap && s'.deliverers == s.deliverers[i := CheckFactory(e)])
      && s'.entries == s.entries && s'.workers == s.workers
  {
  }

  /** A latest-wins cell takes every value, in place of the one before. */
  lemma {:induction false} CellTakesAll(c: Config, s: State, i: nat, e: EntryId, v: Value)
    requires IdsInRange(s) && i < |s.deliverers| && s.deliverers[i] == Store(e, v) && s.heap[e].slot.Latest?
    ensures Enabled(s, DeliverStep(i))
    ensures
      var x, s' := s.heap[e], Apply(c, s, DeliverStep(i));
      && s'.heap == s.heap[e := Entry(x.key, Latest(v, true, x.slot.signal), x.running, x.accepted + [v], x.received)]
      && s'.deliverers == s.deliverers[i := Signal(e)]
      && s'.entries == s.entries && s'.workers == s.workers
  {
  }

  /** The second half of a send only sets the signal. */
  lemma {:induction false} SignalSets(c: Config, s: State, i: nat, e: EntryId)
    requires IdsInRange(s) && i < |s.deliverers| && s.deliverers[i] == Signal(e)
    ensures Enabled(s, DeliverStep(i))
    ensures
      var x, s' := s.heap[e], Apply(c, s, DeliverStep(i));
      && s'.heap[e].slot.signal && |s'.heap| == |s.heap|
      && (x.slot.Fifo? ==> s'.heap[e] == x.(slot := Fifo(x.slot.queue, x.slot.capacity, true)))
      && (x.slot.Latest? ==> s'.heap[e] == x.(slot := Latest(x.slot.val, x.slot.unseen, true)))
      && (forall y :: 0 <= y < |s.heap| && y != e ==> s'.heap[y] == s.heap[y])
      && s'.deliverers == s.deliverers[i := CheckFactory(e)]
  {
  }

  // ----- Receiving

  /** A queue gives its oldest value, a cell the one it holds. */
  lemma {:induction false} TakenReceives(c: Config, s: State, j: nat, e: EntryId)
    requires IdsInRange(s) && j < |s.workers| && s.workers[j] == Taken(e)
    ensures Enabled(s, WorkerStep(j)) <==> s.heap[e].slot.Latest? || s.heap[e].slot.queue != []
    ensures Enabled(s, WorkerStep(j)) ==>
      var x, s' := s.heap[e], Apply(c, s, WorkerStep(j));
      && (x.slot.Fifo? ==>
            && s'.heap == s.heap[e := Entry(x.key, Fifo(x.slot.queue[1..], x.slot.capacity, x.slot.signal),
                                            x.running, x.accepted, x.received + [x.slot.queue[0]])]
            && s'.workers == s.workers[j := Rearming(e)])
      && (x.slot.Latest? ==>
            && s'.heap == s.heap[e := Entry(x.key, Latest(x.slot.val, false, x.slot.signal),
                                            x.running, x.accepted, x.received + [x.slot.val])]
            && s'.workers == s.workers[j := Idle(e)])
  {
  }

  /** After a receive the signal is set again exactly when values are left. */
  lemma {:induction false} RearmsIffLeft(c: Config, s: State, j: nat, e: EntryId)
    requires IdsInRange(s) && j < |s.workers| && s.workers[j] == Rearming(e) && s.heap[e].slot.Fifo?
    ensures Enabled(s, WorkerStep(j))
    ensures
      var q, s' := s.heap[e].slot, Apply(c, s, WorkerStep(j));
      s'.heap == s.heap[e := s.heap[e].(slot := Fifo(q.queue, q.capacity, q.signal || q.queue != []))]
  {
  }

  // ----- Who waits for what

  /** A call waits only to create an entry, and only while Register scans the map. */
  lemma {:induction false} CallsHardlyWait(s: State, i: nat)
    requires IdsInRange(s) && i < |s.deliverers| && s.deliverers[i] != Delivered
    ensures !Enabled(s, DeliverStep(i)) ==>
      s.deliverers[i].Create? && (s.register.Scanning? || s.register.ScanContext? || s.register.ScanEnsure?)
  {
  }

  /** An idle worker can always return, and can take the signal exactly when there is one. */
  lemma {:induction false} IdleMoves(s: State, j: nat, e: EntryId)
    requires IdsInRange(s) && j < |s.workers| && s.workers[j] == Idle(e)
    ensures Enabled(s, Return(j)) && (Enabled(s, TakeSignal(j)) <==> s.heap[e].slot.signal)
  {
  }

  /** Every other worker moves, but for one that waits on an empty queue or, to remove, on the scan. */
  lemma {:induction false} WorkersHardlyWait(s: State, j: nat)
    requires IdsInRange(s) && j < |s.workers| && s.workers[j] != Gone && !s.workers[j].Idle?
    ensures !Enabled(s, WorkerStep(j)) ==>
      var w := s.workers[j];
      || (w.Taken? && s.heap[w.e].slot.Fifo? && s.heap[w.e].slot.queue == [])
      || (w.Removing? && (s.register.Scanning? || s.register.ScanContext? || s.register.ScanEnsure?))
  {
  }

  /** Anybody may call Deliver at any time; Stop works once Register was called; Register goes on by itself. */
  lemma {:induction false} OutsideMoves(c: Config, s: State, key: Key, v: Value)
    requires IdsInRange(s)
    ensures Enabled(s, Begin(key, v)) && Apply(c, s, Begin(key, v)) == s.(deliverers := s.deliverers + [Lookup(key, v)])
    ensures s.register != NotCalled ==> Enabled(s, Stop) && Apply(c, s, Stop) == s.(stopped := true)
    ensures s.register != Finished ==>
      Enabled(s, RegisterStep) || (s.register.Scanning? && exists e :: e in s.register.rest && Enabled(s, ScanEntry(e)))
  {
  }

  /** While Register scans, nobody changes the map. */
  lemma {:induction false} ScanFreezesMap(c: Config, s: State, a: Action)
    requires IdsInRange(s) && Enabled(s, a)
    requires s.register.Scanning? || s.register.ScanContext? || s.register.ScanEnsure?
    ensures Apply(c, s, a).entries == s.entries
  {
  }

  // ----- Starting a worker

  /** The section of ensureRunning: nothing for a running entry, else one worker more. */
  lemma {:induction false} EnsureStarts(c: Config, s: State, i: nat, e: EntryId)
    requires IdsInRange(s) && i < |s.deliverers| && s.deliverers[i] == Ensure(e)
    ensures Enabled(s, DeliverStep(i))
    ensures
      var x, s' := s.heap[e], Apply(c, s, DeliverStep(i));
      && s'.deliverers == s.deliverers[i := Delivered]
      && (x.running ==> s'.heap == s.heap && s'.workers == s.workers)
      && (!x.running ==> s'.heap == s.heap[e := x.(running := true)] && s'.workers == s.workers + [Starting(e)])
  {
  }

  /** A call looks its entry up, or makes a new one under an unused key, empty and not running. */
  lemma {:induction false} LookupAndCreate(c: Config, s: State, i: nat, key: Key, v: Value)
    requires IdsInRange(s) && i < |s.deliverers| && Enabled(s, DeliverStep(i))
    requires s.deliverers[i] == Lookup(key, v) || s.deliverers[i] == Create(key, v)
    ensures
      var s' := Apply(c, s, DeliverStep(i));
      && (key in s.entries ==> s' == s.(deliverers := s.deliverers[i := Store(s.entries[key], v)]))
      && (key !in s.entries && s.deliverers[i].Lookup? ==> s' == s.(deliverers := s.deliverers[i := Create(key, v)]))
      && (key !in s.entries && s.deliverers[i].Create? ==>
            s' == s.(heap := s.heap + [Entry(key, c.slot, false, [], [])], entries := s.entries[key := |s.heap|],
                     deliverers := s.deliverers[i := Store(|s.heap|, v)]))
  {
  }

  /** A call starts a worker only after Register has set the factory, and not once stopped. */
  lemma {:induction false} Checks(c: Config, s: State, i: nat, e: EntryId)
    requires IdsInRange(s) && i < |s.deliverers|
    requires s.deliverers[i] == CheckFactory(e) || s.deliverers[i] == CheckContext(e)
    ensures Enabled(s, DeliverStep(i))
    ensures
      var s' := Apply(c, s, DeliverStep(i));
      && (s.deliverers[i].CheckFactory? ==> s' == s.(deliverers := s.deliverers[i :=
            if s.register.NotCalled? || s.register.ContextSet? then Delivered else CheckContext(e)]))
      && (s.deliverers[i].CheckContext? ==> s' == s.(deliverers := s.deliverers[i :=
            if s.register.NotCalled? || s.stopped then Delivered else Ensure(e)]))
  {
  }

  /** A new worker runs its body if there is a factory to make it, and is gone otherwise. */
  lemma {:induction false} StartedRuns(c: Config, s: State, j: nat, e: EntryId)
    requires IdsInRange(s) && j < |s.workers| && s.workers[j] == Starting(e)
    ensures Enabled(s, WorkerStep(j))
    ensures Apply(c, s, WorkerStep(j)) ==
      s.(workers := s.workers[j := if s.register.NotCalled? || s.register.ContextSet? then Gone else Idle(e)])
  {
  }

  /** A body takes the signal and nothing else, or returns. */
  lemma {:induction false} BodySteps(c: Config, s: State, j: nat, e: EntryId)
    requires IdsInRange(s) && j < |s.workers| && s.workers[j] == Idle(e) && Enabled(s, TakeSignal(j))
    ensures
      var x, s' := s.heap[e], Apply(c, s, TakeSignal(j));
      && s'.workers == s.workers[j := Taken(e)]
      && (x.slot.Fifo? ==> s'.heap == s.heap[e := x.(slot := Fifo(x.slot.queue, x.slot.capacity, false))])
      && (x.slot.Latest? ==> s'.heap == s.heap[e := x.(slot := Latest(x.slot.val, x.slot.unseen, false))])
    ensures Apply(c, s, Return(j)) == s.(workers := s.workers[j := Exiting(e)])
  {
  }

  // ----- Leaving

  /** A worker that has left its body notes whether the pool was still up. */
  lemma {:induction false} ExitNotes(c: Config, s: State, j: nat, e: EntryId)
    requires IdsInRange(s) && j < |s.workers| && s.workers[j] == Exiting(e)
    ensures Enabled(s, WorkerStep(j))
    ensures Apply(c, s, WorkerStep(j)) == s.(workers := s.workers[j := Leaving(e, !s.stopped)])
  {
  }

  predicate Pending(x: Slot) {
    match x
    case Fifo(queue, _, _) => queue != []
    case Latest(_, _, signal) => signal
  }

  /**
   With values pending and the pool up, a new worker takes over; otherwise the entry stops running,
   and only a worker that saw the pool up goes on to remove an empty entry.
   */
  lemma {:induction false} LeaveRestartsOrStops(c: Config, s: State, j: nat, e: EntryId, idle: bool)
    requires IdsInRange(s) && j < |s.workers| && s.workers[j] == Leaving(e, idle)
    ensures Enabled(s, WorkerStep(j))
    ensures
      var x, s' := s.heap[e], Apply(c, s, WorkerStep(j));
      var up := !s.register.NotCalled? && !s.stopped;
      && (Pending(x.slot) && up ==> s'.heap == s.heap && s'.workers == s.workers[j := Gone] + [Starting(e)])
      && (!(Pending(x.slot) && up) ==>
            && s'.heap == s.heap[e := x.(running := false)]
            && s'.workers == s.workers[j := if !Pending(x.slot) && c.autoRemove && idle then Removing(e) else Gone])
      && s'.entries == s.entries
  {
  }

  /** The removal looks again: it removes the key exactly if its own entry neither runs nor has values pending. */
  lemma {:induction false} RemovalLooksAgain(c: Config, s: State, j: nat, e: EntryId)
    requires IdsInRange(s) && j < |s.workers| && s.workers[j] == Removing(e) && Enabled(s, WorkerStep(j))
    ensures
      var x, s' := s.heap[e], Apply(c, s, WorkerStep(j));
      && s'.entries == (if x.running || Pending(x.slot) then s.entries else s.entries - {x.key})
      && s'.heap == s.heap && s'.workers == s.workers[j := Gone]
  {
  }

  /** Nothing else ever takes a key out of the map. */
  lemma {:induction false} OnlyRemovalRemoves(c: Config, s: State, a: Action, k: Key)
    requires IdsInRange(s) && Enabled(s, a) && k in s.entries
    requires !(a.WorkerStep? && s.workers[a.j].Removing?)
    ensures k in Apply(c, s, a).entries && Apply(c, s, a).entries[k] == s.entries[k]
  {
  }

  /** Register sets the context, then the factory, then looks at every entry of the map. */
  lemma {:induction false} RegisterOrder(c: Config, s: State)
    requires IdsInRange(s)
    ensures s.register.NotCalled? ==> Apply(c, s, RegisterStep) == s.(register := ContextSet)
    ensures s.register.ContextSet? ==> Apply(c, s, RegisterStep) == s.(register := FactorySet)
    ensures s.register.FactorySet? ==> Apply(c, s, RegisterStep) == s.(register := Scanning(s.entries.Values))
    ensures s.register == Scanning({}) ==> Apply(c, s, RegisterStep) == s.(register := Finished)
  {
  }

  /** It starts a worker on an entry with values pending, unless the pool was stopped meanwhile. */
  lemma {:induction false} ScanStarts(c: Config, s: State, e: EntryId, rest: set<EntryId>)
    requires IdsInRange(s)
    ensures s.register == Scanning(rest) && e in rest ==>
      && Enabled(s, ScanEntry(e))
      && Apply(c, s, ScanEntry(e)) ==
           s.(register := if Pending(s.heap[e].slot) then ScanContext(e, rest - {e}) else Scanning(rest - {e}))
    ensures s.register == ScanContext(e, rest) ==>
      && Enabled(s, RegisterStep)
      && Apply(c, s, RegisterStep) == s.(register := if s.stopped then Scanning(rest) else ScanEnsure(e, rest))
    ensures s.register == ScanEnsure(e, rest) && s.heap[e].running ==>
      && Enabled(s, RegisterStep)
      && Apply(c, s, RegisterStep) == s.(register := Scanning(rest))
    ensures s.register == ScanEnsure(e, rest) && !s.heap[e].running ==>
      && Enabled(s, RegisterStep)
      && Apply(c, s, RegisterStep) ==
           s.(register := Scanning(rest), heap := s.heap[e := s.heap[e].(running := true)],
              workers := s.workers + [Starting(e)])
  {
  }

  // ----- After Stop

  /** Nobody is past the check of the context with a worker still to start. */
  ghost predicate NobodyStarting(s: State) {
    !s.register.ScanEnsure? && forall i :: 0 <= i < |s.deliverers| ==> !s.deliverers[i].Ensure?
  }

  lemma {:induction false} StoppedStep(c: Config, s: State, a: Action)
    requires IdsInRange(s) && Enabled(s, a) && s.stopped && NobodyStarting(s)
    ensures Apply(c, s, a).stopped && NobodyStarting(Apply(c, s, a)) && |Apply(c, s, a).workers| == |s.workers|
  {
    if a.DeliverStep? {
      StoppedDeliver(c, s, a.i);
    } else if a.WorkerStep? {
      StoppedWork(c, s, a.j);
    }
  }

  lemma {:induction false} StoppedDeliver(c: Config, s: State, i: nat)
    requires IdsInRange(s) && Enabled(s, DeliverStep(i)) && s.stopped && NobodyStarting(s)
    ensures
      var s' := Deliver(c, s, i);
      s'.stopped && NobodyStarting(s') && |s'.workers| == |s.workers|
  {
  }

  lemma {:induction false} StoppedWork(c: Config, s: State, j: nat)
    requires IdsInRange(s) && Enabled(s, WorkerStep(j)) && s.stopped && NobodyStarting(s)
    ensures
      var s' := Work(c, s, j);
      s'.stopped && NobodyStarting(s') && |s'.workers| == |s.workers|
  {
  }

  ghost predicate StaysStopped(s: State, s': State) {
    s'.stopped && NobodyStarting(s') && |s'.workers| == |s.workers|
  }

  lemma {:induction false} StoppedRunStep(c: Config, actions: seq<Action>, a: Action)
    requires ValidConfig(c) && Run(c, actions + [a]).Some?
    ensures Run(c, actions).Some?
    ensures
      var s, s' := Run(c, actions).value, Run(c, actions + [a]).value;
      s.stopped && NobodyStarting(s) ==> StaysStopped(s, s')
  {
    var all := actions + [a];
    assert all[..|all| - 1] == actions && all[|all| - 1] == a;
    var s := Run(c, actions).value;
    if s.stopped && NobodyStarting(s) {
      StoppedStep(c, s, a);
    }
  }

  /** Once stopped, with nobody past the check, no worker is started ever again. */
  lemma {:induction false} StoppedStartsNothing(c: Config, actions: seq<Action>, more: seq<Action>)
    requires ValidConfig(c) && Run(c, actions).Some? && Run(c, actions + more).Some?
    requires Run(c, actions).value.stopped && NobodyStarting(Run(c, actions).value)
    ensures StaysStopped(Run(c, actions).value, Run(c, actions + more).value)
  {
    if more == [] {
      assert actions + more == actions;
    } else {
      var n := |more| - 1;
      var front := actions + more[..n];
      assert actions + more == front + [more[n]];
      StoppedRunStep(c, front, more[n]);
      StoppedStartsNothing(c, actions, more[..n]);
    }
  }

  // ----- Which values are accepted

  /** The values that calls brought to entry `e` in a run, in the order in which they came. */
  ghost function Sent(c: Config, actions: seq<Action>, e: EntryId): seq<Value> {
    if actions == [] then []
    else
      var n := |actions| - 1;
      Sent(c, actions[..n], e) + SentBy(Run(c, actions[..n]), actions[n], e)
  }

  ghost function SentBy(s: Option<State>, a: Action, e: EntryId): seq<Value> {
    if s.Some? && a.DeliverStep? && a.i < |s.value.deliverers| && s.value.deliverers[a.i].Store?
       && s.value.deliverers[a.i].e == e
    then [s.value.deliverers[a.i].v] else []
  }

  /** Those that met a full queue left out. */
  ghost function SentWithRoom(c: Config, actions: seq<Action>, e: EntryId): seq<Value> {
    if actions == [] then []
    else
      var n := |actions| - 1;
      var s := Run(c, actions[..n]);
      SentWithRoom(c, actions[..n], e) +
      if s.Some? && e < |s.value.heap| && FullQueue(s.value.heap[e].slot) then [] else SentBy(s, actions[n], e)
  }

  predicate FullQueue(x: Slot) {
    x.Fifo? && |x.queue| >= x.capacity
  }

  lemma {:induction false} AcceptedStep(c: Config, s: State, a: Action, e: EntryId)
    requires IdsInRange(s) && Enabled(s, a) && e < |s.heap|
    ensures e < |Apply(c, s, a).heap|
    ensures Apply(c, s, a).heap[e].accepted ==
      s.heap[e].accepted + if FullQueue(s.heap[e].slot) then [] else SentBy(Some(s), a, e)
  {
    if a.DeliverStep? {
      AcceptedByDeliver(c, s, a.i, e);
    } else if a.WorkerStep? {
      AcceptedByWork(c, s, a.j, e);
    }
  }

  lemma {:induction false} AcceptedByDeliver(c: Config, s: State, i: nat, e: EntryId)
    requires IdsInRange(s) && Enabled(s, DeliverStep(i)) && e < |s.heap|
    ensures e < |Deliver(c, s, i).heap|
    ensures Deliver(c, s, i).heap[e].accepted ==
      s.heap[e].accepted + if FullQueue(s.heap[e].slot) then [] else SentBy(Some(s), DeliverStep(i), e)
  {
  }

  lemma {:induction false} AcceptedByWork(c: Config, s: State, j: nat, e: EntryId)
    requires IdsInRange(s) && Enabled(s, WorkerStep(j)) && e < |s.heap|
    ensures e < |Work(c, s, j).heap| && Work(c, s, j).heap[e].accepted == s.heap[e].accepted
  {
  }

  lemma {:induction false} NewEntryIsFresh(c: Config, s: State, a: Action, e: EntryId)
    requires IdsInRange(s) && Enabled(s, a) && |s.heap| <= e < |Apply(c, s, a).heap|
    ensures Apply(c, s, a).heap[e].accepted == [] && Apply(c, s, a).heap[e].slot == c.slot
  {
  }

  /** An entry that does not exist yet was sent nothing. */
  lemma {:induction false} NothingSentBefore(c: Config, actions: seq<Action>, e: EntryId)
    requires ValidConfig(c) && Run(c, actions).Some? && e >= |Run(c, actions).value.heap|
    ensures SentWithRoom(c, actions, e) == [] && Sent(c, actions, e) == []
  {
    if actions != [] {
      var n := |actions| - 1;
      var s := Run(c, actions[..n]).value;
      HeapGrows(c, s, actions[n]);
      NothingSentBefore(c, actions[..n], e);
      RunKeeps(c, actions[..n]);
      assert SentBy(Some(s), actions[n], e) == [];
    }
  }

  lemma {:induction false} HeapGrows(c: Config, s: State, a: Action)
    requires IdsInRange(s) && Enabled(s, a)
    ensures |Apply(c, s, a).heap| >= |s.heap|
  {
  }

  /** An entry has accepted exactly the values sent to it that did not meet a full queue. */
  lemma {:induction false} AcceptedIsSentWithRoom(c: Config, actions: seq<Action>, e: EntryId)
    requires ValidConfig(c) && Run(c, actions).Some? && e < |Run(c, actions).value.heap|
    ensures Run(c, actions).value.heap[e].accepted == SentWithRoom(c, actions, e)
  {
    if actions != [] {
      var n := |actions| - 1;
      var s, a := Run(c, actions[..n]).value, actions[n];
      RunKeeps(c, actions[..n]);
      if e < |s.heap| {
        AcceptedIsSentWithRoom(c, actions[..n], e);
        AcceptedStep(c, s, a, e);
      } else {
        NothingSentBefore(c, actions[..n], e);
        NewEntryIsFresh(c, s, a, e);
        assert SentBy(Some(s), a, e) == [];
      }
    }
  }

  /** No call ever met the queue of `e` full. */
  ghost predicate NeverFull(c: Config, actions: seq<Action>, e: EntryId) {
    forall n :: 0 <= n < |actions| ==> RoomAt(Run(c, actions[..n]), actions[n], e)
  }

  ghost predicate RoomAt(s: Option<State>, a: Action, e: EntryId) {
    SentBy(s, a, e) != [] && s.Some? && e < |s.value.heap| ==> !FullQueue(s.value.heap[e].slot)
  }

  /** If no call met a full queue, every value sent is accepted; a cell is never full. */
  lemma {:induction false} NothingDropped(c: Config, actions: seq<Action>, e: EntryId)
    requires ValidConfig(c) && Run(c, actions).Some? && e < |Run(c, actions).value.heap| && NeverFull(c, actions, e)
    ensures Run(c, actions).value.heap[e].accepted == Sent(c, actions, e)
  {
    AcceptedIsSentWithRoom(c, actions, e);
    SameWhenNeverFull(c, actions, e);
  }

  lemma {:induction false} SameWhenNeverFull(c: Config, actions: seq<Action>, e: EntryId)
    requires NeverFull(c, actions, e)
    ensures SentWithRoom(c, actions, e) == Sent(c, actions, e)
  {
    if actions != [] {
      var n := |actions| - 1;
      assert forall k :: 0 <= k < n ==> actions[..n][..k] == actions[..k] && actions[..n][k] == actions[k];
      assert NeverFull(c, actions[..n], e);
      SameWhenNeverFull(c, actions[..n], e);
      assert RoomAt(Run(c, actions[..n]), actions[n], e);
    }
  }
}
