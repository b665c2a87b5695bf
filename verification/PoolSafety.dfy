/**
 What every interleaving of the worker pool keeps.

 The invariant has five parts: one worker per running entry, nothing spawned before the factory,
 no lost wake-up in any slot, no stranded value once registered, and slots that hand over what
 they accepted. Each step of the system keeps all of them.
 */
module PoolSafety {
  import opened WorkerPool

  // ----- Who is where

  /** A worker whose body has not been left for good. */
  predicate Busy(w: Worker, e: EntryId) {
    || w == Starting(e) || w == Idle(e) || w == Taken(e) || w == Rearming(e) || w == Exiting(e)
    || (w.Leaving? && w.e == e)
  }

  /** A worker between taking the signal and re-arming it. */
  predicate Receiving(w: Worker, e: EntryId) {
    w == Taken(e) || w == Rearming(e)
  }

  /** A deliverer that has stored and will still try to start a worker. */
  predicate Pushing(d: Deliverer, e: EntryId) {
    d == Signal(e) || d == CheckFactory(e) || d == CheckContext(e) || d == Ensure(e)
  }

  ghost predicate SomeoneBusy(s: State, e: EntryId) {
    exists j :: 0 <= j < |s.workers| && Busy(s.workers[j], e)
  }

  ghost predicate SomeoneReceiving(s: State, e: EntryId) {
    exists j :: 0 <= j < |s.workers| && Receiving(s.workers[j], e)
  }

  ghost predicate SomeoneSignalling(s: State, e: EntryId) {
    exists i :: 0 <= i < |s.deliverers| && s.deliverers[i] == Signal(e)
  }

  ghost predicate SomeonePushing(s: State, e: EntryId) {
    exists i :: 0 <= i < |s.deliverers| && Pushing(s.deliverers[i], e)
  }

  // ----- The parts of the invariant

  /** No entry has two workers, and an entry runs exactly when it has one. */
  ghost predicate OneWorker(s: State) {
    && (forall j, j', e ::
          0 <= j < |s.workers| && 0 <= j' < |s.workers| && Busy(s.workers[j], e) && Busy(s.workers[j'], e) ==> j == j')
    && (forall e :: 0 <= e < |s.heap| ==> (s.heap[e].running <==> SomeoneBusy(s, e)))
  }

  ghost predicate KeysMatch(s: State) {
    forall k :: k in s.entries ==> s.entries[k] < |s.heap| && s.heap[s.entries[k]].key == k
  }

  /** Until the factory is set there is no worker and no entry has left the map. */
  ghost predicate BeforeFactory(s: State) {
    !HasFactory(s) ==>
      && s.workers == []
      && (forall i :: 0 <= i < |s.deliverers| ==> !s.deliverers[i].CheckContext? && !s.deliverers[i].Ensure?)
      && AllMapped(s)
  }

  ghost predicate AllMapped(s: State) {
    forall e :: 0 <= e < |s.heap| ==> Mapped(s, e)
  }

  predicate Mapped(s: State, e: EntryId)
    requires e < |s.heap|
  {
    s.heap[e].key in s.entries && s.entries[s.heap[e].key] == e
  }

  /** An unseen value has a signal pending, a sender about to signal, or a receiver at work. */
  ghost predicate NoLostWakeup(s: State) {
    forall e :: 0 <= e < |s.heap| && Unseen(s.heap[e].slot) ==> Woken(s, e)
  }

  ghost predicate Woken(s: State, e: EntryId)
    requires e < |s.heap|
  {
    s.heap[e].slot.signal || SomeoneSignalling(s, e) || SomeoneReceiving(s, e)
  }

  /** The only entry that was ever created for its key, and still in the map. */
  ghost predicate Sole(s: State, e: EntryId)
    requires e < |s.heap|
  {
    Mapped(s, e) && forall e' :: 0 <= e' < |s.heap| && s.heap[e'].key == s.heap[e].key ==> e' == e
  }

  /** Register has still to look at the entry. */
  ghost predicate RegisterWillSee(s: State, e: EntryId)
    requires e < |s.heap|
  {
    match s.register
    case FactorySet => Sole(s, e)
    case Scanning(rest) => e in rest
    case ScanContext(e', rest) => e == e' || e in rest
    case ScanEnsure(e', rest) => e == e' || e in rest
    case _ => false
  }

  ghost predicate Served(s: State, e: EntryId)
    requires e < |s.heap|
  {
    s.heap[e].running || SomeonePushing(s, e) || RegisterWillSee(s, e)
  }

  /** Once registered and not stopped, every entry with an unseen value is served. */
  ghost predicate NothingStranded(s: State) {
    HasFactory(s) && !s.stopped ==> forall e :: 0 <= e < |s.heap| && Unseen(s.heap[e].slot) ==> Served(s, e)
  }

  /** A queue hands over what it accepted, in order; a cell has shown its latest or holds it. */
  predicate HandsOver(x: Entry) {
    match x.slot
    case Fifo(queue, capacity, _) => x.accepted == x.received + queue && |queue| <= capacity
    case Latest(val, unseen, _) =>
      && (x.accepted != [] ==> val == x.accepted[|x.accepted| - 1])
      && (unseen ==> x.accepted != [])
      && (!unseen && x.accepted != [] ==> x.received != [] && x.received[|x.received| - 1] == val)
  }

  ghost predicate AllHandOver(s: State) {
    forall e :: 0 <= e < |s.heap| ==> HandsOver(s.heap[e])
  }

  /** Only queues are re-armed. */
  ghost predicate RearmingIsFifo(s: State) {
    forall j :: 0 <= j < |s.workers| && s.workers[j].Rearming? && s.workers[j].e < |s.heap| ==>
      s.heap[s.workers[j].e].slot.Fifo?
  }

  ghost predicate Inv(s: State) {
    && IdsInRange(s)
    && OneWorker(s)
    && KeysMatch(s)
    && BeforeFactory(s)
    && NoLostWakeup(s)
    && NothingStranded(s)
    && AllHandOver(s)
    && RearmingIsFifo(s)
  }

  // ----- Moving one deliverer

  lemma {:induction false} DelivererMoved(s: State, s': State, i: nat, d: Deliverer, e: EntryId)
    requires i < |s.deliverers| && s'.deliverers == s.deliverers[i := d]
    ensures SomeoneSignalling(s, e) && s.deliverers[i] != Signal(e) ==> SomeoneSignalling(s', e)
    ensures d == Signal(e) ==> SomeoneSignalling(s', e)
    ensures SomeonePushing(s, e) && !Pushing(s.deliverers[i], e) ==> SomeonePushing(s', e)
    ensures Pushing(d, e) ==> SomeonePushing(s', e)
  {
    assert s'.deliverers[i] == d;
    if SomeoneSignalling(s, e) && s.deliverers[i] != Signal(e) {
      var k :| 0 <= k < |s.deliverers| && s.deliverers[k] == Signal(e);
      assert s'.deliverers[k] == Signal(e);
    }
    if SomeonePushing(s, e) && !Pushing(s.deliverers[i], e) {
      var k :| 0 <= k < |s.deliverers| && Pushing(s.deliverers[k], e);
      assert Pushing(s'.deliverers[k], e);
    }
  }

  /** A move that keeps a deliverer's kind of attention keeps everybody's. */
  lemma {:induction false} DelivererKept(s: State, s': State, i: nat, d: Deliverer)
    requires i < |s.deliverers| && s'.deliverers == s.deliverers[i := d]
    ensures forall e :: SomeoneSignalling(s, e) && s.deliverers[i] != Signal(e) ==> SomeoneSignalling(s', e)
    ensures forall e :: SomeonePushing(s, e) && !Pushing(s.deliverers[i], e) ==> SomeonePushing(s', e)
    ensures d.Signal? ==> SomeoneSignalling(s', d.e)
    ensures d.Signal? || d.CheckFactory? || d.CheckContext? || d.Ensure? ==> SomeonePushing(s', d.e)
  {
    forall e
      ensures SomeoneSignalling(s, e) && s.deliverers[i] != Signal(e) ==> SomeoneSignalling(s', e)
      ensures SomeonePushing(s, e) && !Pushing(s.deliverers[i], e) ==> SomeonePushing(s', e)
    {
      DelivererMoved(s, s', i, d, e);
    }
    if d.Signal? || d.CheckFactory? || d.CheckContext? || d.Ensure? {
      DelivererMoved(s, s', i, d, d.e);
    }
  }

  /** Workers untouched: who is busy or receiving stays so. */
  lemma {:induction false} SameWorkers(s: State, s': State)
    requires s'.workers == s.workers
    ensures forall e :: SomeoneBusy(s', e) <==> SomeoneBusy(s, e)
    ensures forall e :: SomeoneReceiving(s', e) <==> SomeoneReceiving(s, e)
  {
    forall e
      ensures SomeoneBusy(s', e) <==> SomeoneBusy(s, e)
      ensures SomeoneReceiving(s', e) <==> SomeoneReceiving(s, e)
    {
    }
  }

  lemma {:induction false} SameDeliverers(s: State, s': State)
    requires s'.deliverers == s.deliverers
    ensures forall e :: SomeoneSignalling(s', e) <==> SomeoneSignalling(s, e)
    ensures forall e :: SomeonePushing(s', e) <==> SomeonePushing(s, e)
  {
    forall e
      ensures SomeoneSignalling(s', e) <==> SomeoneSignalling(s, e)
      ensures SomeonePushing(s', e) <==> SomeonePushing(s, e)
    {
    }
  }

  // ----- Deliverer steps

  /** A step that only moves a deliverer, with entries, heap and workers as they were. */
  lemma {:induction false} PlainMove(s: State, i: nat, d: Deliverer)
    requires Inv(s) && i < |s.deliverers| && DelivererInRange(d, |s.heap|)
    requires s.deliverers[i].Signal? ==> d == s.deliverers[i]
    requires !HasFactory(s) ==> !d.CheckContext? && !d.Ensure?
    requires HasFactory(s) && !s.stopped ==>
      forall e :: 0 <= e < |s.heap| && Pushing(s.deliverers[i], e) && Unseen(s.heap[e].slot) && !s.heap[e].running ==>
        Pushing(d, e)
    ensures Inv(MoveDeliverer(s, i, d))
  {
    var s' := MoveDeliverer(s, i, d);
    SameWorkers(s, s');
    DelivererKept(s, s', i, d);
    HeapKeyed(s, s');
    forall e | 0 <= e < |s.heap| && Unseen(s.heap[e].slot) && HasFactory(s) && !s.stopped
      ensures Served(s', e)
    {
      DelivererMoved(s, s', i, d, e);
      assert Served(s, e);
    }
  }

  /** A new entry under an unused key: the old ones keep their place. */
  lemma {:induction false} CreatedMap(s: State, s': State, x: Entry)
    requires KeysMatch(s) && x.key !in s.entries
    requires s'.heap == s.heap + [x] && s'.entries == s.entries[x.key := |s.heap|] && s'.register == s.register
    ensures KeysMatch(s')
    ensures forall e :: 0 <= e < |s.heap| && Mapped(s, e) ==> Mapped(s', e)
    ensures AllMapped(s) ==> AllMapped(s')
    ensures forall e :: 0 <= e < |s.heap| && RegisterWillSee(s, e) ==> RegisterWillSee(s', e)
  {
    assert forall e :: 0 <= e < |s.heap| ==> s'.heap[e] == s.heap[e];
    forall e | 0 <= e < |s.heap| && Mapped(s, e)
      ensures Mapped(s', e)
    {
      assert s.heap[e].key != x.key;
    }
    assert Mapped(s', |s.heap|);
    forall e | 0 <= e < |s.heap| && RegisterWillSee(s, e)
      ensures RegisterWillSee(s', e)
    {
      if s.register.FactorySet? {
        assert s.heap[e].key != x.key;
        assert Sole(s', e);
      }
    }
  }

  lemma {:induction false} CreatedWorkers(s: State, s': State, x: Entry)
    requires IdsInRange(s) && OneWorker(s) && s'.workers == s.workers && s'.heap == s.heap + [x] && !x.running
    ensures OneWorker(s')
  {
    SameWorkers(s, s');
    var n := |s.heap|;
    assert forall j :: 0 <= j < |s.workers| ==> !Busy(s.workers[j], n);
    assert forall e :: 0 <= e < n ==> s'.heap[e] == s.heap[e];
  }

  lemma {:induction false} CreateKeeps(c: Config, s: State, i: nat)
    requires ValidConfig(c) && Inv(s) && Enabled(s, DeliverStep(i)) && s.deliverers[i].Create?
    requires s.deliverers[i].key !in s.entries
    ensures Inv(Deliver(c, s, i))
  {
    var s' := Deliver(c, s, i);
    var x, n := Entry(s.deliverers[i].key, c.slot, false, [], []), |s.heap|;
    CreatedMap(s, s', x);
    CreatedWorkers(s, s', x);
    SameWorkers(s, s');
    DelivererKept(s, s', i, Store(n, s.deliverers[i].v));
    assert !Unseen(x.slot) && HandsOver(x);
    assert forall e :: 0 <= e < n ==> s'.heap[e] == s.heap[e];
    CreatedRange(s, s', i, x);
    assert forall e :: 0 <= e < n && Woken(s, e) ==> Woken(s', e);
    assert forall e :: 0 <= e < n && Served(s, e) ==> Served(s', e);
  }

  lemma {:induction false} CreatedRange(s: State, s': State, i: nat, x: Entry)
    requires IdsInRange(s) && RearmingIsFifo(s) && i < |s.deliverers| && s.deliverers[i].Create?
    requires s' == s.(heap := s.heap + [x], entries := s.entries[x.key := |s.heap|],
      deliverers := s.deliverers[i := Store(|s.heap|, s.deliverers[i].v)])
    ensures IdsInRange(s') && RearmingIsFifo(s')
  {
  }

  lemma {:induction false} StoreKeeps(c: Config, s: State, i: nat)
    requires Inv(s) && Enabled(s, DeliverStep(i)) && s.deliverers[i].Store?
    requires Accepts(s.heap[s.deliverers[i].e].slot)
    ensures Inv(Deliver(c, s, i))
  {
    var s' := Deliver(c, s, i);
    var e0 := s.deliverers[i].e;
    SameWorkers(s, s');
    DelivererKept(s, s', i, Signal(e0));
    assert forall e :: 0 <= e < |s.heap| && e != e0 ==> s'.heap[e] == s.heap[e];
    assert s'.heap[e0].key == s.heap[e0].key && s'.heap[e0].running == s.heap[e0].running;
    HeapKeyed(s, s');
  }

  /** Same keys, same map: whoever Register was going to see it still will. */
  lemma {:induction false} HeapKeyed(s: State, s': State)
    requires |s'.heap| == |s.heap| && s'.entries == s.entries && s'.register == s.register
    requires forall e :: 0 <= e < |s.heap| ==> s'.heap[e].key == s.heap[e].key
    ensures forall e :: 0 <= e < |s.heap| ==> (RegisterWillSee(s', e) <==> RegisterWillSee(s, e))
    ensures forall e :: 0 <= e < |s.heap| ==> (Mapped(s', e) <==> Mapped(s, e))
  {
    forall e | 0 <= e < |s.heap|
      ensures RegisterWillSee(s', e) <==> RegisterWillSee(s, e)
    {
      assert Sole(s', e) <==> Sole(s, e);
    }
  }

  lemma {:induction false} SignalKeeps(c: Config, s: State, i: nat)
    requires Inv(s) && Enabled(s, DeliverStep(i)) && s.deliverers[i].Signal?
    ensures Inv(Deliver(c, s, i))
  {
    var s' := Deliver(c, s, i);
    var e0 := s.deliverers[i].e;
    SameWorkers(s, s');
    DelivererKept(s, s', i, CheckFactory(e0));
    assert forall e :: 0 <= e < |s.heap| && e != e0 ==> s'.heap[e] == s.heap[e];
    HeapKeyed(s, s');
    forall e | 0 <= e < |s.heap| && Unseen(s'.heap[e].slot) && HasFactory(s) && !s.stopped
      ensures Served(s', e)
    {
      DelivererMoved(s, s', i, CheckFactory(e0), e);
      assert Served(s, e);
    }
  }

  /** Starting a worker on an entry that has none. */
  lemma {:induction false} WorkerAdded(s: State, s': State, e: EntryId)
    requires s'.workers == s.workers + [Starting(e)]
    ensures forall e' :: SomeoneBusy(s', e') <==> SomeoneBusy(s, e') || e' == e
    ensures forall e' :: SomeoneReceiving(s', e') <==> SomeoneReceiving(s, e')
  {
    var n := |s.workers|;
    assert s'.workers[n] == Starting(e) && forall j :: 0 <= j < n ==> s'.workers[j] == s.workers[j];
    forall e'
      ensures SomeoneBusy(s', e') <==> SomeoneBusy(s, e') || e' == e
      ensures SomeoneReceiving(s', e') <==> SomeoneReceiving(s, e')
    {
      if SomeoneBusy(s, e') {
        var j :| 0 <= j < n && Busy(s.workers[j], e');
        assert Busy(s'.workers[j], e');
      }
      if SomeoneReceiving(s, e') {
        var j :| 0 <= j < n && Receiving(s.workers[j], e');
        assert Receiving(s'.workers[j], e');
      }
      if e' == e {
        assert Busy(s'.workers[n], e');
      }
    }
  }

  lemma {:induction false} SpawnKeeps(s: State, e: EntryId)
    requires Inv(s) && HasFactory(s) && e < |s.heap|
    ensures Inv(Spawn(s, e)) && Spawn(s, e).heap[e].running
    ensures Spawn(s, e).deliverers == s.deliverers && Spawn(s, e).register == s.register
    ensures |Spawn(s, e).heap| == |s.heap|
  {
    if !s.heap[e].running {
      var s' := Spawn(s, e);
      SpawnWorkers(s, s', e);
      SameDeliverers(s, s');
      HeapKeyed(s, s');
      assert forall x :: 0 <= x < |s.heap| && x != e ==> s'.heap[x] == s.heap[x];
      assert forall x :: 0 <= x < |s.heap| && Woken(s, x) ==> Woken(s', x);
      assert forall x :: 0 <= x < |s.heap| && Served(s, x) ==> Served(s', x);
    }
  }

  lemma {:induction false} SpawnWorkers(s: State, s': State, e: EntryId)
    requires IdsInRange(s) && OneWorker(s) && RearmingIsFifo(s) && e < |s.heap| && !s.heap[e].running
    requires s'.workers == s.workers + [Starting(e)] && s'.heap == s.heap[e := s.heap[e].(running := true)]
    ensures OneWorker(s') && RearmingIsFifo(s')
    ensures forall x :: SomeoneReceiving(s', x) <==> SomeoneReceiving(s, x)
  {
    WorkerAdded(s, s', e);
    assert !SomeoneBusy(s, e);
    assert forall j :: 0 <= j < |s.workers| ==> s'.workers[j] == s.workers[j] && !Busy(s.workers[j], e);
    assert forall x :: 0 <= x < |s.heap| && x != e ==> s'.heap[x] == s.heap[x];
  }

  /** The steps that only look something up. */
  lemma {:induction false} LookKeeps(c: Config, s: State, i: nat)
    requires Inv(s) && Enabled(s, DeliverStep(i))
    requires s.deliverers[i].Lookup? || (s.deliverers[i].Create? && s.deliverers[i].key in s.entries)
    ensures Inv(Deliver(c, s, i))
  {
    var key, v := s.deliverers[i].key, s.deliverers[i].v;
    PlainMove(s, i, if key in s.entries then Store(s.entries[key], v) else Create(key, v));
  }

  lemma {:induction false} CheckKeeps(c: Config, s: State, i: nat)
    requires Inv(s) && Enabled(s, DeliverStep(i)) && (s.deliverers[i].CheckFactory? || s.deliverers[i].CheckContext?)
    ensures Inv(Deliver(c, s, i))
  {
    var e := s.deliverers[i].e;
    if s.deliverers[i].CheckFactory? {
      PlainMove(s, i, if HasFactory(s) then CheckContext(e) else Delivered);
    } else {
      PlainMove(s, i, if ContextLive(s) then Ensure(e) else Delivered);
    }
  }

  /** A full queue drops the value. */
  lemma {:induction false} DropKeeps(c: Config, s: State, i: nat)
    requires Inv(s) && Enabled(s, DeliverStep(i)) && s.deliverers[i].Store?
    requires !Accepts(s.heap[s.deliverers[i].e].slot)
    ensures Inv(Deliver(c, s, i))
  {
    PlainMove(s, i, CheckFactory(s.deliverers[i].e));
  }

  lemma {:induction false} EnsureKeeps(c: Config, s: State, i: nat)
    requires Inv(s) && Enabled(s, DeliverStep(i)) && s.deliverers[i].Ensure?
    ensures Inv(Deliver(c, s, i))
  {
    var e := s.deliverers[i].e;
    SpawnKeeps(s, e);
    PlainMove(Spawn(s, e), i, Delivered);
  }

  lemma {:induction false} DeliverKeeps(c: Config, s: State, i: nat)
    requires ValidConfig(c) && Inv(s) && Enabled(s, DeliverStep(i))
    ensures Inv(Deliver(c, s, i))
  {
    match s.deliverers[i]
    case Lookup(_, _) => LookKeeps(c, s, i);
    case Create(key, _) =>
      if key in s.entries {
        LookKeeps(c, s, i);
      } else {
        CreateKeeps(c, s, i);
      }
    case Store(e, _) =>
      if Accepts(s.heap[e].slot) {
        StoreKeeps(c, s, i);
      } else {
        DropKeeps(c, s, i);
      }
    case Signal(_) => SignalKeeps(c, s, i);
    case CheckFactory(_) => CheckKeeps(c, s, i);
    case CheckContext(_) => CheckKeeps(c, s, i);
    case Ensure(_) => EnsureKeeps(c, s, i);
  }

  // ----- Worker steps

  /** A worker that exists shows that the factory is set. */
  lemma {:induction false} WorkersMeanFactory(s: State, j: nat)
    requires Inv(s) && j < |s.workers|
    ensures HasFactory(s)
  {
    assert s.workers != [];
  }

  /** A worker that stays on its entry leaves everybody's occupation as it was, but its own. */
  lemma {:induction false} WorkerMoved(s: State, s': State, j: nat, w: Worker, e: EntryId)
    requires j < |s.workers| && s'.workers == s.workers[j := w]
    requires Busy(s.workers[j], e) && Busy(w, e)
    ensures forall x :: SomeoneBusy(s', x) <==> SomeoneBusy(s, x)
    ensures forall x :: x != e ==> (SomeoneReceiving(s', x) <==> SomeoneReceiving(s, x))
    ensures Receiving(w, e) ==> SomeoneReceiving(s', e)
    ensures SomeoneReceiving(s, e) && !Receiving(s.workers[j], e) ==> SomeoneReceiving(s', e)
  {
    assert s'.workers[j] == w && forall k :: 0 <= k < |s.workers| && k != j ==> s'.workers[k] == s.workers[k];
    forall x
      ensures SomeoneBusy(s', x) <==> SomeoneBusy(s, x)
      ensures x != e ==> (SomeoneReceiving(s', x) <==> SomeoneReceiving(s, x))
      ensures x == e && SomeoneReceiving(s, x) && !Receiving(s.workers[j], x) ==> SomeoneReceiving(s', x)
    {
      if SomeoneBusy(s, x) {
        var k :| 0 <= k < |s.workers| && Busy(s.workers[k], x);
        assert Busy(s'.workers[k], x);
      }
      if SomeoneBusy(s', x) {
        var k :| 0 <= k < |s'.workers| && Busy(s'.workers[k], x);
        assert Busy(s.workers[k], x);
      }
      if SomeoneReceiving(s, x) && (x != e || !Receiving(s.workers[j], x)) {
        var k :| 0 <= k < |s.workers| && Receiving(s.workers[k], x);
        assert Receiving(s'.workers[k], x);
      }
      if SomeoneReceiving(s', x) && x != e {
        var k :| 0 <= k < |s'.workers| && Receiving(s'.workers[k], x);
        assert Receiving(s.workers[k], x);
      }
    }
  }

  /** What a step of the body may do to its entry: only the slot and what was received. */
  ghost predicate SlotStep(x: Entry, x': Entry) {
    && x'.key == x.key && x'.running == x.running
    && x'.slot.Fifo? == x.slot.Fifo?
    && HandsOver(x')
    && (Unseen(x'.slot) ==> Unseen(x.slot))
  }

  /** A step of the body: the worker stays on its entry and the entry's slot may change. */
  lemma {:induction false} BodyStep(s: State, j: nat, w: Worker, x': Entry)
    requires Inv(s) && j < |s.workers| && !s.workers[j].Gone? && !s.workers[j].Removing?
    requires Busy(w, s.workers[j].e) && SlotStep(s.heap[s.workers[j].e], x')
    requires w.Rearming? ==> x'.slot.Fifo?
    requires Unseen(x'.slot) ==>
      || x'.slot.signal || Receiving(w, s.workers[j].e)
      || (x'.slot.signal == s.heap[s.workers[j].e].slot.signal && !Receiving(s.workers[j], s.workers[j].e))
    ensures Inv(MoveWorker(SetEntry(s, s.workers[j].e, x'), j, w))
  {
    var e := s.workers[j].e;
    var s' := MoveWorker(SetEntry(s, e, x'), j, w);
    WorkersMeanFactory(s, j);
    WorkerMoved(s, s', j, w, e);
    SameDeliverers(s, s');
    HeapKeyed(s, s');
    BodyStepWorkers(s, s', j, w, e, x');
    assert forall x :: 0 <= x < |s.heap| && x != e ==> s'.heap[x] == s.heap[x];
    assert forall x :: 0 <= x < |s.heap| && x != e && Woken(s, x) ==> Woken(s', x);
    assert forall x :: 0 <= x < |s.heap| && Served(s, x) ==> Served(s', x);
  }

  lemma {:induction false} BodyStepWorkers(s: State, s': State, j: nat, w: Worker, e: EntryId, x': Entry)
    requires IdsInRange(s) && OneWorker(s) && RearmingIsFifo(s)
    requires j < |s.workers| && e < |s.heap| && Busy(s.workers[j], e) && Busy(w, e)
    requires s' == MoveWorker(SetEntry(s, e, x'), j, w)
    requires x'.running == s.heap[e].running && x'.slot.Fifo? == s.heap[e].slot.Fifo?
    requires w.Rearming? ==> x'.slot.Fifo?
    ensures OneWorker(s') && RearmingIsFifo(s') && IdsInRange(s')
  {
    WorkerMoved(s, s', j, w, e);
    StillOneWorker(s, s', j, w, e);
    assert forall k :: 0 <= k < |s.workers| && k != j ==> s'.workers[k] == s.workers[k];
    assert forall x :: 0 <= x < |s.heap| && x != e ==> s'.heap[x] == s.heap[x];
  }

  lemma {:induction false} StillOneWorker(s: State, s': State, j: nat, w: Worker, e: EntryId)
    requires OneWorker(s) && j < |s.workers| && s'.workers == s.workers[j := w]
    requires Busy(s.workers[j], e) && Busy(w, e)
    ensures forall k, k', x ::
      0 <= k < |s'.workers| && 0 <= k' < |s'.workers| && Busy(s'.workers[k], x) && Busy(s'.workers[k'], x) ==> k == k'
  {
    assert forall k, x :: 0 <= k < |s.workers| && Busy(s'.workers[k], x) ==> Busy(s.workers[k], x);
  }

  /** With nothing pending and no worker on it but perhaps this one, an unseen value has a sender. */
  lemma {:induction false} EmptyMeansSender(s: State, e: EntryId)
    requires Inv(s) && e < |s.heap| && Len(s.heap[e].slot) == 0 && !SomeoneReceiving(s, e)
    ensures Unseen(s.heap[e].slot) ==> SomeonePushing(s, e)
  {
    if Unseen(s.heap[e].slot) {
      assert Woken(s, e);
      var i :| 0 <= i < |s.deliverers| && s.deliverers[i] == Signal(e);
      assert Pushing(s.deliverers[i], e);
    }
  }

  /** A worker that is leaving is the only one on its entry, so nobody receives there. */
  lemma {:induction false} LeavingAlone(s: State, j: nat)
    requires Inv(s) && j < |s.workers| && s.workers[j].Leaving?
    ensures !SomeoneReceiving(s, s.workers[j].e)
    ensures forall k :: 0 <= k < |s.workers| && k != j ==> !Busy(s.workers[k], s.workers[j].e)
  {
    var e := s.workers[j].e;
    assert Busy(s.workers[j], e);
    assert forall k :: 0 <= k < |s.workers| && k != j ==> !Busy(s.workers[k], e);
    assert forall k :: 0 <= k < |s.workers| && Receiving(s.workers[k], e) ==> Busy(s.workers[k], e);
  }

  /** The worker at `j` leaves; the others keep their occupations. */
  lemma {:induction false} WorkerLeft(s: State, s': State, j: nat, w: Worker)
    requires j < |s.workers| && s.workers[j].Leaving? && |s'.workers| >= |s.workers|
    requires forall k :: 0 <= k < |s.workers| && k != j ==> s'.workers[k] == s.workers[k]
    requires s'.workers[j] == w && (w.Gone? || w.Removing?)
    requires forall k :: |s.workers| <= k < |s'.workers| ==> s'.workers[k] == Starting(s.workers[j].e)
    ensures forall x :: x != s.workers[j].e ==> (SomeoneBusy(s', x) <==> SomeoneBusy(s, x))
    ensures forall x :: SomeoneReceiving(s', x) <==> SomeoneReceiving(s, x)
  {
    forall x
      ensures x != s.workers[j].e ==> (SomeoneBusy(s', x) <==> SomeoneBusy(s, x))
      ensures SomeoneReceiving(s', x) <==> SomeoneReceiving(s, x)
    {
      if SomeoneBusy(s, x) && x != s.workers[j].e {
        var k :| 0 <= k < |s.workers| && Busy(s.workers[k], x);
        assert Busy(s'.workers[k], x);
      }
      if SomeoneBusy(s', x) && x != s.workers[j].e {
        var k :| 0 <= k < |s'.workers| && Busy(s'.workers[k], x);
        assert Busy(s.workers[k], x);
      }
      if SomeoneReceiving(s, x) {
        var k :| 0 <= k < |s.workers| && Receiving(s.workers[k], x);
        assert Receiving(s'.workers[k], x);
      }
      if SomeoneReceiving(s', x) {
        var k :| 0 <= k < |s'.workers| && Receiving(s'.workers[k], x);
        assert Receiving(s.workers[k], x);
      }
    }
  }

  lemma {:induction false} RestartKeeps(s: State, j: nat)
    requires Inv(s) && j < |s.workers| && s.workers[j].Leaving?
    ensures Inv(s.(workers := s.workers[j := Gone] + [Starting(s.workers[j].e)]))
  {
    var s' := s.(workers := s.workers[j := Gone] + [Starting(s.workers[j].e)]);
    WorkersMeanFactory(s, j);
    RestartWorkers(s, s', j);
    SameDeliverers(s, s');
    HeapKeyed(s, s');
    assert forall x :: 0 <= x < |s.heap| && Woken(s, x) ==> Woken(s', x);
    assert forall x :: 0 <= x < |s.heap| && Served(s, x) ==> Served(s', x);
  }

  lemma {:induction false} RestartWorkers(s: State, s': State, j: nat)
    requires Inv(s) && j < |s.workers| && s.workers[j].Leaving?
    requires s' == s.(workers := s.workers[j := Gone] + [Starting(s.workers[j].e)])
    ensures OneWorker(s') && RearmingIsFifo(s') && IdsInRange(s')
    ensures forall x :: SomeoneReceiving(s', x) <==> SomeoneReceiving(s, x)
  {
    var e, n := s.workers[j].e, |s.workers|;
    LeavingAlone(s, j);
    assert s'.workers[n] == Starting(e) && s'.workers[j] == Gone;
    assert forall k :: 0 <= k < n && k != j ==> s'.workers[k] == s.workers[k];
    WorkerLeft(s, s', j, Gone);
    assert Busy(s'.workers[n], e) && Busy(s.workers[j], e);
    assert SomeoneBusy(s', e) && SomeoneBusy(s, e);
  }

  lemma {:induction false} LeaveWorkers(s: State, s': State, j: nat, w: Worker)
    requires Inv(s) && j < |s.workers| && s.workers[j].Leaving?
    requires w == Gone || w == Removing(s.workers[j].e)
    requires s' == MoveWorker(SetEntry(s, s.workers[j].e, s.heap[s.workers[j].e].(running := false)), j, w)
    ensures OneWorker(s') && RearmingIsFifo(s') && IdsInRange(s')
    ensures forall x :: SomeoneReceiving(s', x) <==> SomeoneReceiving(s, x)
    ensures !SomeoneReceiving(s, s.workers[j].e)
  {
    var e := s.workers[j].e;
    LeavingAlone(s, j);
    WorkerLeft(s, s', j, w);
    assert forall x :: 0 <= x < |s.heap| && x != e ==> s'.heap[x] == s.heap[x];
    assert forall k :: 0 <= k < |s.workers| && k != j ==> s'.workers[k] == s.workers[k];
    assert !SomeoneBusy(s', e);
  }

  lemma {:induction false} LeaveKeeps(s: State, j: nat, w: Worker)
    requires Inv(s) && j < |s.workers| && s.workers[j].Leaving?
    requires w == Gone || w == Removing(s.workers[j].e)
    requires Len(s.heap[s.workers[j].e].slot) == 0 || s.stopped
    ensures Inv(MoveWorker(SetEntry(s, s.workers[j].e, s.heap[s.workers[j].e].(running := false)), j, w))
  {
    var e := s.workers[j].e;
    var s' := MoveWorker(SetEntry(s, e, s.heap[e].(running := false)), j, w);
    WorkersMeanFactory(s, j);
    LeaveWorkers(s, s', j, w);
    SameDeliverers(s, s');
    HeapKeyed(s, s');
    assert forall x :: 0 <= x < |s.heap| && x != e ==> s'.heap[x] == s.heap[x];
    assert forall x :: 0 <= x < |s.heap| && Woken(s, x) ==> Woken(s', x);
    if !s.stopped {
      EmptyMeansSender(s, e);
    }
    assert forall x :: 0 <= x < |s.heap| && x != e && Served(s, x) ==> Served(s', x);
  }

  lemma {:induction false} RemovingKeeps(c: Config, s: State, j: nat)
    requires Inv(s) && Enabled(s, WorkerStep(j)) && s.workers[j].Removing?
    ensures Inv(Work(c, s, j))
  {
    var s' := Work(c, s, j);
    WorkersMeanFactory(s, j);
    RemovingWorkers(s, s', j);
    SameDeliverers(s, s');
    assert forall y :: 0 <= y < |s.heap| && Woken(s, y) ==> Woken(s', y);
    forall y | 0 <= y < |s.heap| && Unseen(s.heap[y].slot) && !s.stopped
      ensures Served(s', y)
    {
      RemovingServes(c, s, j, y);
    }
  }

  /** The removed entry either had nothing unseen, or has a call about to start a worker. */
  lemma {:induction false} RemovingServes(c: Config, s: State, j: nat, y: EntryId)
    requires Inv(s) && Enabled(s, WorkerStep(j)) && s.workers[j].Removing?
    requires y < |s.heap| && Unseen(s.heap[y].slot) && !s.stopped
    ensures Served(Work(c, s, j), y)
  {
    var e, s' := s.workers[j].e, Work(c, s, j);
    WorkersMeanFactory(s, j);
    SameDeliverers(s, s');
    assert Served(s, y);
    if s.register.FactorySet? && Sole(s, y) {
      if s'.entries != s.entries && s.heap[y].key == s.heap[e].key {
        assert y == e && !SomeoneBusy(s, e);
        assert forall k :: 0 <= k < |s.workers| && Receiving(s.workers[k], e) ==> Busy(s.workers[k], e);
        EmptyMeansSender(s, e);
      } else {
        assert Sole(s', y);
      }
    }
  }

  lemma {:induction false} RemovingWorkers(s: State, s': State, j: nat)
    requires IdsInRange(s) && OneWorker(s) && RearmingIsFifo(s) && j < |s.workers| && s.workers[j].Removing?
    requires s'.workers == s.workers[j := Gone] && s'.heap == s.heap
    ensures OneWorker(s') && RearmingIsFifo(s')
    ensures forall x :: SomeoneReceiving(s', x) <==> SomeoneReceiving(s, x)
  {
    RemoverGone(s, s', j);
    assert forall k :: 0 <= k < |s.workers| && k != j ==> s'.workers[k] == s.workers[k];
  }

  /** A worker that is done with its entry can go: nobody's occupation changes. */
  lemma {:induction false} RemoverGone(s: State, s': State, j: nat)
    requires j < |s.workers| && s.workers[j].Removing? && s'.workers == s.workers[j := Gone]
    ensures forall x :: SomeoneBusy(s', x) <==> SomeoneBusy(s, x)
    ensures forall x :: SomeoneReceiving(s', x) <==> SomeoneReceiving(s, x)
  {
    forall x
      ensures SomeoneBusy(s', x) <==> SomeoneBusy(s, x)
      ensures SomeoneReceiving(s', x) <==> SomeoneReceiving(s, x)
    {
      if SomeoneBusy(s, x) {
        var k :| 0 <= k < |s.workers| && Busy(s.workers[k], x);
        assert Busy(s'.workers[k], x);
      }
      if SomeoneBusy(s', x) {
        var k :| 0 <= k < |s'.workers| && Busy(s'.workers[k], x);
        assert Busy(s.workers[k], x);
      }
      if SomeoneReceiving(s, x) {
        var k :| 0 <= k < |s.workers| && Receiving(s.workers[k], x);
        assert Receiving(s'.workers[k], x);
      }
      if SomeoneReceiving(s', x) {
        var k :| 0 <= k < |s'.workers| && Receiving(s'.workers[k], x);
        assert Receiving(s.workers[k], x);
      }
    }
  }

  /** Steps of the body itself: starting, receiving, re-arming. */
  lemma {:induction false} StartingKeeps(c: Config, s: State, j: nat)
    requires Inv(s) && Enabled(s, WorkerStep(j)) && s.workers[j].Starting?
    ensures Inv(Work(c, s, j))
  {
    var e := s.workers[j].e;
    WorkersMeanFactory(s, j);
    assert HandsOver(s.heap[e]);
    BodyStep(s, j, Idle(e), s.heap[e]);
    assert s.heap[e := s.heap[e]] == s.heap;
  }

  lemma {:induction false} TakenKeeps(c: Config, s: State, j: nat)
    requires Inv(s) && Enabled(s, WorkerStep(j)) && s.workers[j].Taken?
    ensures Inv(Work(c, s, j))
  {
    var e := s.workers[j].e;
    var x := s.heap[e];
    assert HandsOver(x);
    if x.slot.Fifo? {
      var q := x.slot.queue;
      assert q == [q[0]] + q[1..];
      BodyStep(s, j, Rearming(e), x.(slot := x.slot.(queue := q[1..]), received := x.received + [q[0]]));
    } else {
      BodyStep(s, j, Idle(e), x.(slot := x.slot.(unseen := false), received := x.received + [x.slot.val]));
    }
  }

  lemma {:induction false} RearmingKeeps(c: Config, s: State, j: nat)
    requires Inv(s) && Enabled(s, WorkerStep(j)) && s.workers[j].Rearming?
    ensures Inv(Work(c, s, j))
  {
    var e := s.workers[j].e;
    var x := s.heap[e];
    assert HandsOver(x) && x.slot.Fifo?;
    BodyStep(s, j, Idle(e), x.(slot := WithSignal(x.slot, x.slot.signal || Len(x.slot) > 0)));
  }

  lemma {:induction false} ExitingKeeps(c: Config, s: State, j: nat)
    requires Inv(s) && Enabled(s, WorkerStep(j)) && s.workers[j].Exiting?
    ensures Inv(Work(c, s, j))
  {
    var e := s.workers[j].e;
    assert HandsOver(s.heap[e]);
    BodyStep(s, j, Leaving(e, !s.stopped), s.heap[e]);
    assert s.heap[e := s.heap[e]] == s.heap;
  }

  lemma {:induction false} LeavingKeeps(c: Config, s: State, j: nat)
    requires Inv(s) && Enabled(s, WorkerStep(j)) && s.workers[j].Leaving?
    ensures Inv(Work(c, s, j))
  {
    var e, idle := s.workers[j].e, s.workers[j].idle;
    WorkersMeanFactory(s, j);
    if Len(s.heap[e].slot) > 0 && ContextLive(s) {
      RestartKeeps(s, j);
    } else {
      LeaveKeeps(s, j, if Len(s.heap[e].slot) == 0 && c.autoRemove && idle then Removing(e) else Gone);
    }
  }

  lemma {:induction false} WorkKeeps(c: Config, s: State, j: nat)
    requires Inv(s) && Enabled(s, WorkerStep(j))
    ensures Inv(Work(c, s, j))
  {
    match s.workers[j]
    case Starting(_) => StartingKeeps(c, s, j);
    case Taken(_) => TakenKeeps(c, s, j);
    case Rearming(_) => RearmingKeeps(c, s, j);
    case Exiting(_) => ExitingKeeps(c, s, j);
    case Leaving(_, _) => LeavingKeeps(c, s, j);
    case Removing(_) => RemovingKeeps(c, s, j);
  }

  // ----- Register steps

  /** Register moves on; nothing else changes. */
  lemma {:induction false} RegisterMove(s: State, r: Register)
    requires Inv(s) && RegisterInRange(r, |s.heap|)
    requires HasFactory(s) ==> HasFactory(s.(register := r))
    requires HasFactory(s.(register := r)) && !s.stopped ==>
      forall e :: 0 <= e < |s.heap| && Unseen(s.heap[e].slot) && !s.heap[e].running && !SomeonePushing(s, e) ==>
        RegisterWillSee(s.(register := r), e)
    ensures Inv(s.(register := r))
  {
    var s' := s.(register := r);
    SameWorkers(s, s');
    SameDeliverers(s, s');
    assert forall e :: 0 <= e < |s.heap| && Mapped(s, e) ==> Mapped(s', e);
    assert forall e :: 0 <= e < |s.heap| && Woken(s, e) ==> Woken(s', e);
  }

  /** When the factory is set, every entry is the only one of its key and in the map. */
  lemma {:induction false} FirstScanSeesAll(s: State)
    requires Inv(s) && s.register.ContextSet?
    ensures forall e :: 0 <= e < |s.heap| ==> RegisterWillSee(s.(register := FactorySet), e)
  {
    var s' := s.(register := FactorySet);
    forall e | 0 <= e < |s.heap|
      ensures RegisterWillSee(s', e)
    {
      assert Mapped(s, e);
      forall x | 0 <= x < |s.heap| && s.heap[x].key == s.heap[e].key
        ensures x == e
      {
        assert Mapped(s, x);
      }
      assert Mapped(s', e);
    }
  }

  lemma {:induction false} RegisterKeeps(s: State)
    requires Inv(s) && Enabled(s, RegisterStep)
    ensures Inv(Registering(s))
  {
    match s.register
    case NotCalled => RegisterMove(s, ContextSet);
    case ContextSet =>
      FirstScanSeesAll(s);
      RegisterMove(s, FactorySet);
    case FactorySet =>
      assert forall e :: e in s.entries.Values ==> e < |s.heap|;
      forall e | 0 <= e < |s.heap| && Sole(s, e)
        ensures e in s.entries.Values
      {
        assert s.heap[e].key in s.entries;
      }
      RegisterMove(s, Scanning(s.entries.Values));
    case Scanning(_) => RegisterMove(s, Finished);
    case ScanContext(e, rest) => RegisterMove(s, if ContextLive(s) then ScanEnsure(e, rest) else Scanning(rest));
    case ScanEnsure(e, rest) =>
      SpawnKeeps(s, e);
      RegisterMove(Spawn(s, e), Scanning(rest));
  }

  lemma {:induction false} ScanEntryKeeps(c: Config, s: State, e: EntryId)
    requires Inv(s) && Enabled(s, ScanEntry(e))
    ensures Inv(Apply(c, s, ScanEntry(e)))
  {
    if Len(s.heap[e].slot) == 0 && !s.heap[e].running {
      assert !SomeoneBusy(s, e);
      assert forall k :: 0 <= k < |s.workers| && Receiving(s.workers[k], e) ==> Busy(s.workers[k], e);
      EmptyMeansSender(s, e);
    }
    var rest := s.register.rest - {e};
    RegisterMove(s, if Len(s.heap[e].slot) > 0 then ScanContext(e, rest) else Scanning(rest));
  }

  // ----- Every step, every run

  lemma {:induction false} BeginKeeps(s: State, key: Key, v: Value)
    requires Inv(s)
    ensures Inv(s.(deliverers := s.deliverers + [Lookup(key, v)]))
  {
    var s' := s.(deliverers := s.deliverers + [Lookup(key, v)]);
    SameWorkers(s, s');
    HeapKeyed(s, s');
    assert forall i :: 0 <= i < |s.deliverers| ==> s'.deliverers[i] == s.deliverers[i];
    forall e
      ensures SomeoneSignalling(s, e) ==> SomeoneSignalling(s', e)
      ensures SomeonePushing(s, e) ==> SomeonePushing(s', e)
    {
      if SomeoneSignalling(s, e) {
        var i :| 0 <= i < |s.deliverers| && s.deliverers[i] == Signal(e);
        assert s'.deliverers[i] == Signal(e);
      }
      if SomeonePushing(s, e) {
        var i :| 0 <= i < |s.deliverers| && Pushing(s.deliverers[i], e);
        assert Pushing(s'.deliverers[i], e);
      }
    }
    assert forall e :: 0 <= e < |s.heap| && Woken(s, e) ==> Woken(s', e);
    assert forall e :: 0 <= e < |s.heap| && Served(s, e) ==> Served(s', e);
  }

  lemma {:induction false} StopKeeps(s: State)
    requires Inv(s)
    ensures Inv(s.(stopped := true))
  {
    var s' := s.(stopped := true);
    SameWorkers(s, s');
    SameDeliverers(s, s');
    HeapKeyed(s, s');
    assert forall e :: 0 <= e < |s.heap| && Woken(s, e) ==> Woken(s', e);
  }

  /** Each step of the system keeps the invariant. */
  lemma {:induction false} StepKeeps(c: Config, s: State, a: Action)
    requires ValidConfig(c) && Inv(s) && Enabled(s, a)
    ensures Inv(Apply(c, s, a))
  {
    match a
    case Begin(key, v) => BeginKeeps(s, key, v);
    case DeliverStep(i) => DeliverKeeps(c, s, i);
    case WorkerStep(j) => WorkKeeps(c, s, j);
    case TakeSignal(j) =>
      var e := s.workers[j].e;
      assert HandsOver(s.heap[e]);
      BodyStep(s, j, Taken(e), s.heap[e].(slot := WithSignal(s.heap[e].slot, false)));
    case Return(j) =>
      var e := s.workers[j].e;
      assert HandsOver(s.heap[e]);
      BodyStep(s, j, Exiting(e), s.heap[e]);
      assert s.heap[e := s.heap[e]] == s.heap;
    case RegisterStep => RegisterKeeps(s);
    case ScanEntry(e) => ScanEntryKeeps(c, s, e);
    case Stop => StopKeeps(s);
  }
}
