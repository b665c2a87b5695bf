/**
 The worker pool over whole runs, and what its documentation promises per key.
 */
module PoolRuns {
  import opened Wrappers
  import opened WorkerPool
  import opened PoolSafety

  /** The state after a sequence of steps, if each of them was enabled in its turn. */
  ghost function Run(c: Config, actions: seq<Action>): Option<State> {
    if actions == [] then Some(INITIAL)
    else
      var n := |actions| - 1;
      var s := Run(c, actions[..n]);
      if s.Some? && IdsInRange(s.value) && Enabled(s.value, actions[n]) then Some(Apply(c, s.value, actions[n]))
      else None
  }

  /** Every interleaving keeps the invariant. */
  lemma {:induction false} RunKeeps(c: Config, actions: seq<Action>)
    requires ValidConfig(c)
    ensures Run(c, actions).Some? ==> Inv(Run(c, actions).value)
  {
    if actions != [] {
      var n := |actions| - 1;
      RunKeeps(c, actions[..n]);
      if Run(c, actions).Some? {
        StepKeeps(c, Run(c, actions[..n]).value, actions[n]);
      }
    }
  }

  /** Nobody ever runs two worker bodies on one entry. */
  lemma {:induction false} OneBodyPerEntry(c: Config, actions: seq<Action>, e: EntryId, j: nat, j': nat)
    requires ValidConfig(c) && Run(c, actions).Some?
    requires j < |Run(c, actions).value.workers| && j' < |Run(c, actions).value.workers|
    requires Busy(Run(c, actions).value.workers[j], e) && Busy(Run(c, actions).value.workers[j'], e)
    ensures j == j'
  {
    RunKeeps(c, actions);
  }

  /**
   Once registered and not stopped, an entry with an unseen value has either a call still about to
   start a worker, or a running worker that has been, or is about to be, woken for it.
   */
  lemma {:induction false} NoValueIsStranded(c: Config, actions: seq<Action>, e: EntryId)
    requires ValidConfig(c) && Run(c, actions).Some?
    requires e < |Run(c, actions).value.heap| && Unseen(Run(c, actions).value.heap[e].slot)
    requires HasFactory(Run(c, actions).value) && !Run(c, actions).value.stopped
    ensures
      var s := Run(c, actions).value;
      || SomeonePushing(s, e)
      || RegisterWillSee(s, e)
      || (SomeoneBusy(s, e) && (s.heap[e].slot.signal || SomeoneSignalling(s, e) || SomeoneReceiving(s, e)))
  {
    RunKeeps(c, actions);
    var s := Run(c, actions).value;
    assert Served(s, e) && Woken(s, e);
  }

  /** A queue slot delivers what it accepted, in order, with nothing lost or repeated. */
  lemma {:induction false} QueueDeliversInOrder(c: Config, actions: seq<Action>, e: EntryId)
    requires ValidConfig(c) && Run(c, actions).Some?
    requires e < |Run(c, actions).value.heap| && Run(c, actions).value.heap[e].slot.Fifo?
    ensures
      var x := Run(c, actions).value.heap[e];
      x.accepted == x.received + x.slot.queue && |x.slot.queue| <= x.slot.capacity
  {
    RunKeeps(c, actions);
    assert HandsOver(Run(c, actions).value.heap[e]);
  }

  /** The newest value was the last one received, or is held with a wake-up under way. */
  ghost predicate ShowsLatest(s: State, e: EntryId)
    requires e < |s.heap| && s.heap[e].slot.Latest? && s.heap[e].accepted != []
  {
    var x := s.heap[e];
    var newest := x.accepted[|x.accepted| - 1];
    if x.slot.unseen then x.slot.val == newest && (x.slot.signal || SomeoneSignalling(s, e) || SomeoneReceiving(s, e))
    else x.received != [] && x.received[|x.received| - 1] == newest
  }

  lemma {:induction false} InvShowsLatest(s: State, e: EntryId)
    requires Inv(s) && e < |s.heap| && s.heap[e].slot.Latest? && s.heap[e].accepted != []
    ensures ShowsLatest(s, e)
  {
    assert HandsOver(s.heap[e]);
    assert Unseen(s.heap[e].slot) ==> Woken(s, e);
  }

  /** A latest-wins slot holds the newest value until it is read, and reading it shows it. */
  lemma {:induction false} CellDeliversLatest(c: Config, actions: seq<Action>, e: EntryId)
    requires ValidConfig(c) && Run(c, actions).Some?
    requires e < |Run(c, actions).value.heap| && Run(c, actions).value.heap[e].slot.Latest?
    requires Run(c, actions).value.heap[e].accepted != []
    ensures ShowsLatest(Run(c, actions).value, e)
  {
    RunKeeps(c, actions);
    InvShowsLatest(Run(c, actions).value, e);
  }

  // ----- Per key

  /** No key has two worker bodies at once. */
  ghost predicate OneBodyPerKey(s: State)
    requires IdsInRange(s)
  {
    forall j, j', e, e' ::
      && 0 <= j < |s.workers| && 0 <= j' < |s.workers| && 0 <= e < |s.heap| && 0 <= e' < |s.heap|
      && Busy(s.workers[j], e) && Busy(s.workers[j'], e') && s.heap[e].key == s.heap[e'].key
      ==> j == j'
  }

  ghost predicate NobodyRemoves(s: State) {
    forall j :: 0 <= j < |s.workers| ==> !s.workers[j].Removing?
  }

  lemma {:induction false} SameKeysSameMap(s: State, s': State)
    requires AllMapped(s) && s'.entries == s.entries && |s'.heap| == |s.heap|
    requires forall e :: 0 <= e < |s.heap| ==> s'.heap[e].key == s.heap[e].key
    ensures AllMapped(s')
  {
    forall e | 0 <= e < |s'.heap|
      ensures Mapped(s', e)
    {
      assert Mapped(s, e);
    }
  }

  lemma {:induction false} WithoutAutoRemoveDeliver(c: Config, s: State, i: nat)
    requires IdsInRange(s) && Enabled(s, DeliverStep(i)) && KeysMatch(s) && AllMapped(s) && NobodyRemoves(s)
    ensures AllMapped(Deliver(c, s, i)) && NobodyRemoves(Deliver(c, s, i))
  {
    var s', d := Deliver(c, s, i), s.deliverers[i];
    if d.Create? && d.key !in s.entries {
      CreatedMap(s, s', Entry(d.key, c.slot, false, [], []));
    } else {
      DeliverKeepsKeys(c, s, i);
      SameKeysSameMap(s, s');
    }
  }

  lemma {:induction false} DeliverKeepsKeys(c: Config, s: State, i: nat)
    requires IdsInRange(s) && Enabled(s, DeliverStep(i)) && NobodyRemoves(s)
    requires !(s.deliverers[i].Create? && s.deliverers[i].key !in s.entries)
    ensures
      var s' := Deliver(c, s, i);
      && s'.entries == s.entries && |s'.heap| == |s.heap| && NobodyRemoves(s')
      && forall e :: 0 <= e < |s.heap| ==> s'.heap[e].key == s.heap[e].key
  {
  }

  lemma {:induction false} WithoutAutoRemoveWork(c: Config, s: State, j: nat)
    requires !c.autoRemove && IdsInRange(s) && Enabled(s, WorkerStep(j)) && AllMapped(s) && NobodyRemoves(s)
    ensures AllMapped(Work(c, s, j)) && NobodyRemoves(Work(c, s, j))
  {
    SameKeysSameMap(s, Work(c, s, j));
  }

  lemma {:induction false} WithoutAutoRemoveStep(c: Config, s: State, a: Action)
    requires !c.autoRemove && IdsInRange(s) && KeysMatch(s) && Enabled(s, a) && AllMapped(s) && NobodyRemoves(s)
    ensures AllMapped(Apply(c, s, a)) && NobodyRemoves(Apply(c, s, a))
  {
    if a.DeliverStep? {
      WithoutAutoRemoveDeliver(c, s, a.i);
    } else if a.WorkerStep? {
      WithoutAutoRemoveWork(c, s, a.j);
    } else {
      SameKeysSameMap(s, Apply(c, s, a));
    }
  }

  lemma {:induction false} WithoutAutoRemove(c: Config, actions: seq<Action>)
    requires ValidConfig(c) && !c.autoRemove
    ensures Run(c, actions).Some? ==> AllMapped(Run(c, actions).value) && NobodyRemoves(Run(c, actions).value)
  {
    if actions != [] && Run(c, actions).Some? {
      var n := |actions| - 1;
      WithoutAutoRemove(c, actions[..n]);
      RunKeeps(c, actions[..n]);
      WithoutAutoRemoveStep(c, Run(c, actions[..n]).value, actions[n]);
    }
  }

  lemma {:induction false} MappedKeysGiveOneBody(s: State)
    requires Inv(s) && AllMapped(s)
    ensures OneBodyPerKey(s)
  {
    forall j, j', e, e' |
      && 0 <= j < |s.workers| && 0 <= j' < |s.workers| && 0 <= e < |s.heap| && 0 <= e' < |s.heap|
      && Busy(s.workers[j], e) && Busy(s.workers[j'], e') && s.heap[e].key == s.heap[e'].key
      ensures j == j'
    {
      assert Mapped(s, e) && Mapped(s, e');
    }
  }

  // ----- A run with two workers for one key

  /** A state some run reaches. */
  ghost predicate Reached(c: Config, s: State) {
    IdsInRange(s) && exists actions :: Run(c, actions) == Some(s)
  }

  /** One more step of a run. */
  lemma {:induction false} Next(c: Config, s: State, a: Action) returns (s': State)
    requires ValidConfig(c) && Reached(c, s) && Enabled(s, a)
    ensures Reached(c, s') && s' == Apply(c, s, a)
  {
    var actions :| Run(c, actions) == Some(s);
    s' := Apply(c, s, a);
    assert (actions + [a])[..|actions|] == actions;
    assert Run(c, actions + [a]) == Some(s');
    RunKeeps(c, actions + [a]);
  }

  lemma {:induction false} RegisterFirst(c: Config) returns (s: State)
    requires ValidConfig(c)
    ensures Reached(c, s) && s == INITIAL.(register := Finished)
  {
    assert Run(c, []) == Some(INITIAL);
    s := Next(c, INITIAL, RegisterStep);
    s := Next(c, s, RegisterStep);
    s := Next(c, s, RegisterStep);
    assert s.register.rest == {};
    s := Next(c, s, RegisterStep);
  }

  /** A registered, running pool whose call `i` is about to store `v` in an entry that is not running. */
  ghost predicate AboutToStore(s: State, i: nat, e: EntryId, v: Value) {
    && i < |s.deliverers| && s.deliverers[i] == Store(e, v) && e < |s.heap|
    && !s.heap[e].running && s.register.Finished? && !s.stopped
  }

  /** An entry after a send: stored and signalled, or unchanged when the queue is full. */
  ghost function AfterSend(x: Entry, v: Value): Entry {
    if Accepts(x.slot) then x.(slot := WithSignal(Stored(x.slot, v), true), accepted := x.accepted + [v]) else x
  }

  lemma {:induction false} SendValue(c: Config, s0: State, i: nat, e: EntryId, v: Value) returns (s: State)
    requires ValidConfig(c) && Reached(c, s0) && AboutToStore(s0, i, e, v)
    ensures Reached(c, s)
    ensures s == s0.(heap := s0.heap[e := AfterSend(s0.heap[e], v)], deliverers := s0.deliverers[i := CheckFactory(e)])
  {
    s := Next(c, s0, DeliverStep(i));
    if Accepts(s0.heap[e].slot) {
      s := Next(c, s, DeliverStep(i));
      assert s.deliverers == s0.deliverers[i := CheckFactory(e)];
    } else {
      assert s0.heap[e := s0.heap[e]] == s0.heap;
    }
  }

  lemma {:induction false} StartWorker(c: Config, s0: State, i: nat, e: EntryId) returns (s: State)
    requires ValidConfig(c) && Reached(c, s0) && i < |s0.deliverers| && s0.deliverers[i] == CheckFactory(e)
    requires e < |s0.heap| && !s0.heap[e].running && s0.register.Finished? && !s0.stopped
    ensures Reached(c, s)
    ensures s == s0.(heap := s0.heap[e := s0.heap[e].(running := true)],
      deliverers := s0.deliverers[i := Delivered], workers := s0.workers + [Starting(e)])
  {
    s := Next(c, s0, DeliverStep(i));
    s := Next(c, s, DeliverStep(i));
    assert s.deliverers == s0.deliverers[i := Ensure(e)];
    s := Next(c, s, DeliverStep(i));
    assert s.deliverers == s0.deliverers[i := Delivered];
  }

  lemma {:induction false} FinishDelivery(c: Config, s0: State, i: nat, e: EntryId, v: Value) returns (s: State)
    requires ValidConfig(c) && Reached(c, s0) && AboutToStore(s0, i, e, v)
    ensures Reached(c, s)
    ensures s == s0.(heap := s0.heap[e := AfterSend(s0.heap[e], v).(running := true)],
      deliverers := s0.deliverers[i := Delivered], workers := s0.workers + [Starting(e)])
  {
    s := SendValue(c, s0, i, e, v);
    s := StartWorker(c, s, i, e);
    assert s.deliverers == s0.deliverers[i := Delivered];
    assert s.heap == s0.heap[e := AfterSend(s0.heap[e], v).(running := true)];
  }

  lemma {:induction false} AppendThenUpdate<T>(a: seq<T>, x: T, y: T)
    ensures (a + [x])[|a| := y] == a + [y] && (a + [x])[|a|] == x
  {
  }

  /** A whole Deliver call for a key that is not in the map. */
  lemma {:induction false} DeliverFresh(c: Config, s0: State, key: Key, v: Value) returns (s: State)
    requires ValidConfig(c) && Reached(c, s0)
    requires key !in s0.entries && s0.register.Finished? && !s0.stopped
    ensures Reached(c, s)
    ensures
      var n := |s0.heap|;
      s == State(s0.entries[key := n], s0.heap + [AfterSend(Entry(key, c.slot, false, [], []), v).(running := true)],
        s0.deliverers + [Delivered], s0.workers + [Starting(n)], Finished, false)
  {
    var i, n, x := |s0.deliverers|, |s0.heap|, Entry(key, c.slot, false, [], []);
    s := CreateFresh(c, s0, key, v);
    AppendThenUpdate(s0.deliverers, Store(n, v), Delivered);
    AppendThenUpdate(s0.heap, x, AfterSend(x, v).(running := true));
    s := FinishDelivery(c, s, i, n, v);
  }

  /** Its first half: a new entry, and the call about to store. */
  lemma {:induction false} CreateFresh(c: Config, s0: State, key: Key, v: Value) returns (s: State)
    requires ValidConfig(c) && Reached(c, s0)
    requires key !in s0.entries && s0.register.Finished?
    ensures Reached(c, s)
    ensures
      var n := |s0.heap|;
      s == s0.(entries := s0.entries[key := n], heap := s0.heap + [Entry(key, c.slot, false, [], [])],
               deliverers := s0.deliverers + [Store(n, v)])
  {
    var i, n := |s0.deliverers|, |s0.heap|;
    s := Next(c, s0, Begin(key, v));
    s := Next(c, s, DeliverStep(i));
    s := Next(c, s, DeliverStep(i));
    assert s.deliverers == s0.deliverers + [Store(n, v)];
  }

  /** The only worker waits on the only entry, which has nothing pending. */
  ghost predicate WaitingOnNothing(s: State, key: Key) {
    && s.entries == map[key := 0] && s.workers == [Idle(0)] && |s.heap| == 1
    && s.heap[0].key == key && Len(s.heap[0].slot) == 0
    && s.register.Finished? && !s.stopped
  }

  /** A started worker takes the signal. */
  lemma {:induction false} WakeWorker(c: Config, s0: State, x: Entry) returns (s: State)
    requires ValidConfig(c) && Reached(c, s0) && s0.register.Finished?
    requires s0.workers == [Starting(0)] && s0.heap == [x] && x.slot.signal
    ensures Reached(c, s)
    ensures s == s0.(workers := [Taken(0)], heap := [x.(slot := WithSignal(x.slot, false))])
  {
    s := Next(c, s0, WorkerStep(0));
    assert s.workers == [Idle(0)];
    s := Next(c, s, TakeSignal(0));
    assert s.workers == [Taken(0)];
  }

  /** It receives the one value of its slot and goes back to waiting. */
  lemma {:induction false} ReceiveOne(c: Config, s0: State, key: Key, x: Entry) returns (s: State)
    requires ValidConfig(c) && Reached(c, s0)
    requires s0.entries == map[key := 0] && s0.register.Finished? && !s0.stopped
    requires s0.workers == [Taken(0)] && s0.heap == [x] && x.key == key && !x.slot.signal
    requires x.slot.Fifo? ==> |x.slot.queue| == 1
    ensures Reached(c, s) && WaitingOnNothing(s, key)
  {
    s := Next(c, s0, WorkerStep(0));
    if x.slot.Fifo? {
      assert s.workers == [Rearming(0)] && s.heap[0].slot.queue == [];
      s := Next(c, s, WorkerStep(0));
    }
    assert s.workers == [Idle(0)];
  }

  /** One value delivered to a fresh pool and received, or dropped by a queue without room. */
  lemma {:induction false} HandleOneValue(c: Config, key: Key) returns (s: State)
    requires ValidConfig(c)
    ensures Reached(c, s) && WaitingOnNothing(s, key)
  {
    s := RegisterFirst(c);
    s := DeliverFresh(c, s, key, 1);
    var x := AfterSend(Entry(key, c.slot, false, [], []), 1).(running := true);
    assert s.heap == [x] && s.workers == [Starting(0)];
    s := ReceiveIfSent(c, s, key, x);
  }

  lemma {:induction false} ReceiveIfSent(c: Config, s0: State, key: Key, x: Entry) returns (s: State)
    requires ValidConfig(c) && Reached(c, s0)
    requires s0.entries == map[key := 0] && s0.register.Finished? && !s0.stopped
    requires s0.workers == [Starting(0)] && s0.heap == [x]
    requires x == AfterSend(Entry(key, c.slot, false, [], []), 1).(running := true)
    ensures Reached(c, s) && WaitingOnNothing(s, key)
  {
    if Accepts(c.slot) {
      s := WakeWorker(c, s0, x);
      s := ReceiveOne(c, s, key, x.(slot := WithSignal(x.slot, false)));
    } else {
      s := Next(c, s0, WorkerStep(0));
      assert s.workers == [Idle(0)];
    }
  }

  /** The waiting worker goes idle and is about to remove the entry. */
  lemma {:induction false} IdleExit(c: Config, s0: State, key: Key) returns (s: State)
    requires ValidConfig(c) && c.autoRemove && Reached(c, s0) && WaitingOnNothing(s0, key)
    ensures Reached(c, s) && s == s0.(workers := [Removing(0)], heap := [s0.heap[0].(running := false)])
  {
    s := Next(c, s0, Return(0));
    assert s.workers == [Exiting(0)];
    s := Next(c, s, WorkerStep(0));
    assert s.workers == [Leaving(0, true)];
    s := Next(c, s, WorkerStep(0));
    assert s.workers == [Removing(0)] && s.heap == [s0.heap[0].(running := false)];
  }

  /** A call fetches the entry, which is then removed. */
  lemma {:induction false} OrphanFetched(c: Config, s0: State, key: Key, x: Entry, v: Value) returns (s: State)
    requires ValidConfig(c) && Reached(c, s0)
    requires s0.entries == map[key := 0] && s0.heap == [x] && s0.workers == [Removing(0)]
    requires x.key == key && !x.running && Len(x.slot) == 0 && s0.register.Finished?
    ensures Reached(c, s)
    ensures s == s0.(entries := map[], workers := [Gone], deliverers := s0.deliverers + [Store(0, v)])
  {
    s := FetchEntry(c, s0, key, 0, v);
    s := Next(c, s, WorkerStep(0));
    assert s.entries == map[] && s.workers == [Gone];
  }

  /** A call that has looked its entry up. */
  lemma {:induction false} FetchEntry(c: Config, s0: State, key: Key, e: EntryId, v: Value) returns (s: State)
    requires ValidConfig(c) && Reached(c, s0) && key in s0.entries && s0.entries[key] == e
    ensures Reached(c, s) && s == s0.(deliverers := s0.deliverers + [Store(e, v)])
  {
    var i := |s0.deliverers|;
    s := Next(c, s0, Begin(key, v));
    s := Next(c, s, DeliverStep(i));
    assert s.deliverers == s0.deliverers + [Store(e, v)];
  }

  /** It then starts a worker on the orphan. */
  lemma {:induction false} OrphanIsStarted(c: Config, s0: State, key: Key, x: Entry, v: Value) returns (s: State)
    requires ValidConfig(c) && Reached(c, s0)
    requires s0.entries == map[key := 0] && s0.heap == [x] && s0.workers == [Removing(0)]
    requires x.key == key && !x.running && Len(x.slot) == 0
    requires s0.register.Finished? && !s0.stopped
    ensures Reached(c, s)
    ensures s.entries == map[] && s.heap == [AfterSend(x, v).(running := true)]
    ensures s.workers == [Gone, Starting(0)] && s.register.Finished? && !s.stopped
  {
    s := OrphanFetched(c, s0, key, x, v);
    s := FinishDelivery(c, s, |s0.deliverers|, 0, v);
  }

  /**
   A Deliver that fetched the entry just before it was removed starts a worker on the orphan,
   while the next Deliver creates a new entry for the same key and starts another.
   */
  lemma {:induction false} TwoBodiesForOneKey(c: Config, key: Key)
    requires ValidConfig(c) && c.autoRemove
    ensures exists s :: Reached(c, s) && !OneBodyPerKey(s)
  {
    var s, x := OrphanBesideNew(c, key);
    TwoStarted(s);
  }

  lemma {:induction false} OrphanBesideNew(c: Config, key: Key) returns (s: State, x: Entry)
    requires ValidConfig(c) && c.autoRemove
    ensures Reached(c, s) && s.entries == map[key := 1] && s.workers == [Gone, Starting(0), Starting(1)]
    ensures |s.heap| == 2 && s.heap[0] == AfterSend(x, 2).(running := true) && Len(x.slot) == 0 && x.key == key
    ensures s.heap[1].key == key && s.heap[1].running && s.register.Finished? && !s.stopped
  {
    s := HandleOneValue(c, key);
    s := IdleExit(c, s, key);
    x := s.heap[0];
    s := OrphanIsStarted(c, s, key, x, 2);
    s := DeliverFresh(c, s, key, 3);
  }

  lemma {:induction false} TwoStarted(s: State)
    requires IdsInRange(s) && s.workers == [Gone, Starting(0), Starting(1)]
    requires |s.heap| == 2 && s.heap[0].key == s.heap[1].key
    ensures !OneBodyPerKey(s)
  {
    assert Busy(s.workers[1], 0) && Busy(s.workers[2], 1);
  }

  /** The promise of one worker per key holds in every run exactly when auto-removal is off. */
  lemma {:induction false} OneBodyPerKeyIffNoAutoRemove(c: Config)
    requires ValidConfig(c)
    ensures !c.autoRemove <==> forall s :: Reached(c, s) ==> OneBodyPerKey(s)
  {
    if c.autoRemove {
      TwoBodiesForOneKey(c, "key");
    } else {
      forall s | Reached(c, s)
        ensures OneBodyPerKey(s)
      {
        var actions :| Run(c, actions) == Some(s);
        RunKeeps(c, actions);
        WithoutAutoRemove(c, actions);
        MappedKeysGiveOneBody(s);
      }
    }
  }
}
