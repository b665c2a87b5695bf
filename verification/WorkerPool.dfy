/**
 The keyed worker pool as a transition system.

 Deliverers, workers and the registering goroutine are program counters; each step is one atomic
 access to shared state: a slot channel operation, a read of the factory or the context, or a
 section run under a lock. `Remove` is not part of the model, so slots are never drained.

 A slot is a bounded queue or a latest-wins cell; both have a one-place signal. Sending stores
 first and signals second, receiving takes the signal first and the value second.
 */
module WorkerPool {

  type Key = string
  type Value = int
  type EntryId = nat

  /** `unseen` records that the latest value has not been read yet. */
  datatype Slot =
    | Fifo(queue: seq<Value>, capacity: nat, signal: bool)
    | Latest(val: Value, unseen: bool, signal: bool)

  /** Pending values, as the pool counts them. */
  function Len(s: Slot): nat {
    match s
    case Fifo(queue, _, _) => |queue|
    case Latest(_, _, signal) => if signal then 1 else 0
  }

  /** Some accepted value has not been received. */
  predicate Unseen(s: Slot) {
    match s
    case Fifo(queue, _, _) => queue != []
    case Latest(_, unseen, _) => unseen
  }

  predicate Accepts(s: Slot) {
    s.Fifo? ==> |s.queue| < s.capacity
  }

  function WithSignal(s: Slot, on: bool): Slot {
    match s
    case Fifo(queue, capacity, _) => Fifo(queue, capacity, on)
    case Latest(val, unseen, _) => Latest(val, unseen, on)
  }

  function Stored(s: Slot, v: Value): Slot {
    match s
    case Fifo(queue, _, _) => if |queue| < s.capacity then s.(queue := queue + [v]) else s
    case Latest(_, _, _) => s.(val := v, unseen := true)
  }

  /** An entry, with the values its slot accepted and those its workers received. */
  datatype Entry = Entry(key: Key, slot: Slot, running: bool, accepted: seq<Value>, received: seq<Value>)

  /** A Deliver call. `Ensure` is the section of ensureRunning under the entry's lock. */
  datatype Deliverer =
    | Lookup(key: Key, v: Value)
    | Create(key: Key, v: Value)
    | Store(e: EntryId, v: Value)
    | Signal(e: EntryId)
    | CheckFactory(e: EntryId)
    | CheckContext(e: EntryId)
    | Ensure(e: EntryId)
    | Delivered

  /**
   A worker goroutine. `Exiting` has left the body; `Leaving` has looked whether the pool was still
   up; `Removing` has left the exit section. That look is under the entry's lock in the code; here
   other steps may come in between, which only adds runs.
   */
  datatype Worker =
    | Starting(e: EntryId)
    | Idle(e: EntryId)
    | Taken(e: EntryId)
    | Rearming(e: EntryId)
    | Exiting(e: EntryId)
    | Leaving(e: EntryId, idle: bool)
    | Removing(e: EntryId)
    | Gone

  /** The Register call. From `Scanning` on, it holds the pool's read lock until it is finished. */
  datatype Register =
    | NotCalled
    | ContextSet
    | FactorySet
    | Scanning(rest: set<EntryId>)
    | ScanContext(e: EntryId, rest: set<EntryId>)
    | ScanEnsure(e: EntryId, rest: set<EntryId>)
    | Finished

  datatype State = State(
    entries: map<Key, EntryId>,
    heap: seq<Entry>,
    deliverers: seq<Deliverer>,
    workers: seq<Worker>,
    register: Register,
    stopped: bool)

  datatype Config = Config(slot: Slot, autoRemove: bool)

  predicate ValidConfig(c: Config) {
    match c.slot
    case Fifo(queue, _, signal) => queue == [] && !signal
    case Latest(_, unseen, signal) => !unseen && !signal
  }

  const INITIAL := State(map[], [], [], [], NotCalled, false)

  predicate HasFactory(s: State) {
    || s.register.FactorySet? || s.register.Scanning? || s.register.ScanContext?
    || s.register.ScanEnsure? || s.register.Finished?
  }

  predicate ReadLocked(s: State) {
    s.register.Scanning? || s.register.ScanContext? || s.register.ScanEnsure?
  }

  predicate ContextLive(s: State) {
    !s.register.NotCalled? && !s.stopped
  }

  // ----- Steps

  datatype Action =
    | Begin(key: Key, v: Value)
    | DeliverStep(i: nat)
    | WorkerStep(j: nat)
    | TakeSignal(j: nat)
    | Return(j: nat)
    | RegisterStep
    | ScanEntry(e: EntryId)
    | Stop

  function SetEntry(s: State, e: EntryId, x: Entry): State
    requires e < |s.heap|
  {
    s.(heap := s.heap[e := x])
  }

  function MoveDeliverer(s: State, i: nat, d: Deliverer): State
    requires i < |s.deliverers|
  {
    s.(deliverers := s.deliverers[i := d])
  }

  function MoveWorker(s: State, j: nat, w: Worker): State
    requires j < |s.workers|
  {
    s.(workers := s.workers[j := w])
  }

  /** The section of ensureRunning under the entry's lock. */
  function Spawn(s: State, e: EntryId): State
    requires e < |s.heap|
  {
    if s.heap[e].running then s
    else SetEntry(s, e, s.heap[e].(running := true)).(workers := s.workers + [Starting(e)])
  }

  predicate IdsInRange(s: State) {
    && (forall k :: k in s.entries ==> s.entries[k] < |s.heap|)
    && (forall i :: 0 <= i < |s.deliverers| ==> DelivererInRange(s.deliverers[i], |s.heap|))
    && (forall j :: 0 <= j < |s.workers| ==> WorkerInRange(s.workers[j], |s.heap|))
    && RegisterInRange(s.register, |s.heap|)
  }

  predicate DelivererInRange(d: Deliverer, n: nat) {
    d.Store? || d.Signal? || d.CheckFactory? || d.CheckContext? || d.Ensure? ==> d.e < n
  }

  predicate WorkerInRange(w: Worker, n: nat) {
    !w.Gone? ==> w.e < n
  }

  predicate RegisterInRange(r: Register, n: nat) {
    && (r.ScanContext? || r.ScanEnsure? ==> r.e < n)
    && (r.Scanning? || r.ScanContext? || r.ScanEnsure? ==> forall e :: e in r.rest ==> e < n)
  }

  /** A step waits for the pool's write lock, a value, or a signal. */
  predicate Enabled(s: State, a: Action)
    requires IdsInRange(s)
  {
    match a
    case Begin(_, _) => true
    case DeliverStep(i) =>
      i < |s.deliverers| && !s.deliverers[i].Delivered? && (s.deliverers[i].Create? ==> !ReadLocked(s))
    case WorkerStep(j) =>
      && j < |s.workers| && !s.workers[j].Gone? && !s.workers[j].Idle?
      && (s.workers[j].Taken? && s.heap[s.workers[j].e].slot.Fifo? ==> s.heap[s.workers[j].e].slot.queue != [])
      && (s.workers[j].Removing? ==> !ReadLocked(s))
    case TakeSignal(j) => j < |s.workers| && s.workers[j].Idle? && s.heap[s.workers[j].e].slot.signal
    case Return(j) => j < |s.workers| && s.workers[j].Idle?
    case RegisterStep =>
      && !s.register.Finished?
      && (s.register.Scanning? ==> s.register.rest == {})
    case ScanEntry(e) => s.register.Scanning? && e in s.register.rest
    case Stop => !s.register.NotCalled?
  }

  function Deliver(c: Config, s: State, i: nat): State
    requires IdsInRange(s) && Enabled(s, DeliverStep(i))
  {
    match s.deliverers[i]
    case Lookup(key, v) =>
      MoveDeliverer(s, i, if key in s.entries then Store(s.entries[key], v) else Create(key, v))
    case Create(key, v) =>
      if key in s.entries then MoveDeliverer(s, i, Store(s.entries[key], v))
      else
        MoveDeliverer(s.(heap := s.heap + [Entry(key, c.slot, false, [], [])], entries := s.entries[key := |s.heap|]),
          i, Store(|s.heap|, v))
    case Store(e, v) =>
      var x := s.heap[e];
      if Accepts(x.slot) then
        MoveDeliverer(SetEntry(s, e, x.(slot := Stored(x.slot, v), accepted := x.accepted + [v])), i, Signal(e))
      else MoveDeliverer(s, i, CheckFactory(e))
    case Signal(e) =>
      var x := s.heap[e];
      MoveDeliverer(SetEntry(s, e, x.(slot := WithSignal(x.slot, true))), i, CheckFactory(e))
    case CheckFactory(e) => MoveDeliverer(s, i, if HasFactory(s) then CheckContext(e) else Delivered)
    case CheckContext(e) => MoveDeliverer(s, i, if ContextLive(s) then Ensure(e) else Delivered)
    case Ensure(e) => MoveDeliverer(Spawn(s, e), i, Delivered)
  }

  /** The exit section: stop running, then restart at once if values are pending. */
  function ExitSection(c: Config, s: State, j: nat, e: EntryId, idle: bool): State
    requires j < |s.workers| && e < |s.heap|
  {
    var x := s.heap[e];
    var off := SetEntry(s, e, x.(running := false));
    if Len(x.slot) > 0 then
      if ContextLive(s) then s.(workers := s.workers[j := Gone] + [Starting(e)])
      else MoveWorker(off, j, Gone)
    else MoveWorker(off, j, if c.autoRemove && idle then Removing(e) else Gone)
  }

  function Work(c: Config, s: State, j: nat): State
    requires IdsInRange(s) && Enabled(s, WorkerStep(j))
  {
    match s.workers[j]
    case Starting(e) => MoveWorker(s, j, if HasFactory(s) then Idle(e) else Gone)
    case Taken(e) =>
      var x := s.heap[e];
      if x.slot.Fifo? then
        MoveWorker(SetEntry(s, e, x.(slot := x.slot.(queue := x.slot.queue[1..]),
                                     received := x.received + [x.slot.queue[0]])), j, Rearming(e))
      else
        MoveWorker(SetEntry(s, e, x.(slot := x.slot.(unseen := false),
                                     received := x.received + [x.slot.val])), j, Idle(e))
    case Rearming(e) =>
      var x := s.heap[e];
      MoveWorker(SetEntry(s, e, x.(slot := WithSignal(x.slot, x.slot.signal || Len(x.slot) > 0))), j, Idle(e))
    case Exiting(e) => MoveWorker(s, j, Leaving(e, !s.stopped))
    case Leaving(e, idle) => ExitSection(c, s, j, e, idle)
    case Removing(e) =>
      var x := s.heap[e];
      var t := MoveWorker(s, j, Gone);
      if !x.running && Len(x.slot) == 0 then t.(entries := s.entries - {x.key}) else t
  }

  function Registering(s: State): State
    requires IdsInRange(s) && Enabled(s, RegisterStep)
  {
    match s.register
    case NotCalled => s.(register := ContextSet)
    case ContextSet => s.(register := FactorySet)
    case FactorySet => s.(register := Scanning(s.entries.Values))
    case Scanning(_) => s.(register := Finished)
    case ScanContext(e, rest) => s.(register := if ContextLive(s) then ScanEnsure(e, rest) else Scanning(rest))
    case ScanEnsure(e, rest) => Spawn(s, e).(register := Scanning(rest))
  }

  function Apply(c: Config, s: State, a: Action): State
    requires IdsInRange(s) && Enabled(s, a)
  {
    match a
    case Begin(key, v) => s.(deliverers := s.deliverers + [Lookup(key, v)])
    case DeliverStep(i) => Deliver(c, s, i)
    case WorkerStep(j) => Work(c, s, j)
    case TakeSignal(j) =>
      var e := s.workers[j].e;
      var x := s.heap[e];
      MoveWorker(SetEntry(s, e, x.(slot := WithSignal(x.slot, false))), j, Taken(e))
    case Return(j) => MoveWorker(s, j, Exiting(s.workers[j].e))
    case RegisterStep => Registering(s)
    case ScanEntry(e) =>
      var rest := s.register.rest - {e};
      s.(register := if Len(s.heap[e].slot) > 0 then ScanContext(e, rest) else Scanning(rest))
    case Stop => s.(stopped := true)
  }
}
