/**
 Restore records: what a shutdown run reports, how reports merge into the stored record, how
 unreported keys age, and what a wake-up gets to see.

 The ConfigMap of a plan, if it exists, holds a map from target names to records and the restored
 marks; encoding and size limits are not part of this model. Times are the wall-clock instants handed to each call.
 */
module RestoreStore {
  import opened Wrappers

  type Time = int

  /** The executors' saved states, with the two flags that make a state demanded. */
  datatype StateValue =
    | NodeGroup(desired: int, min: int, max: int, wasScaled: bool)
    | NodePool(name: string, spec: string, labels: map<string, string>)
    | Instance(id: string, wasRunning: bool)

  /** True for a resource that was up when it was captured. */
  predicate Demanded(v: StateValue) {
    || (v.Instance? && v.wasRunning)
    || (v.NodeGroup? && v.wasScaled)
  }

  datatype ResourceStatus = ResourceStatus(staleCount: int, lastReportedAt: Option<Time>)

  datatype Data = Data(
    target: string,
    executor: string,
    isLive: bool,
    cycleID: string,
    createdAt: Time,
    capturedAt: Option<Time>,
    state: map<string, StateValue>,
    status: map<string, ResourceStatus>)

  // ----- Merge strategies

  datatype Strategy = DifferentCycle | FirstReport | DemandedState | PreserveState

  predicate ReportedBefore(existing: Data, key: string) {
    key in existing.status && existing.status[key].lastReportedAt.Some?
  }

  function SelectStrategy(existing: Data, sameCycle: bool, key: string, value: StateValue): Strategy {
    if !sameCycle then DifferentCycle
    else if !ReportedBefore(existing, key) then FirstReport
    else if Demanded(value) then DemandedState
    else PreserveState
  }

  predicate UsesNewValue(s: Strategy) {
    s != PreserveState
  }

  function IncomingTime(incoming: map<string, ResourceStatus>, key: string, now: Time): Time {
    if key in incoming && incoming[key].lastReportedAt.Some? then incoming[key].lastReportedAt.value else now
  }

  function StatusFor(
    s: Strategy, existing: Data, incoming: map<string, ResourceStatus>, key: string, now: Time): ResourceStatus
  {
    if s == PreserveState && key in existing.status then
      ResourceStatus(existing.status[key].staleCount,
        if existing.status[key].lastReportedAt.Some? then existing.status[key].lastReportedAt
        else Some(IncomingTime(incoming, key, now)))
    else
      ResourceStatus(0, Some(IncomingTime(incoming, key, now)))
  }

  // ----- One save, key by key

  datatype Entry = Gone | Kept(value: Option<StateValue>, status: ResourceStatus)

  /** A key the run reported. */
  function ReportedEntry(existing: Data, data: Data, sameCycle: bool, key: string, now: Time): Entry
    requires key in data.state
  {
    var s := SelectStrategy(existing, sameCycle, key, data.state[key]);
    var value :=
      if UsesNewValue(s) then Some(data.state[key])
      else if key in existing.state then Some(existing.state[key])
      else None;
    Kept(value, StatusFor(s, existing, data.status, key, now))
  }

  /** A stored key the run did not report: kept as it is, aged, or evicted. */
  function UnreportedEntry(existing: Data, sameCycle: bool, key: string, maxStaleCount: int): Entry
    requires key in existing.state
  {
    if sameCycle && ReportedBefore(existing, key) then
      Kept(Some(existing.state[key]), existing.status[key])
    else
      var staleCount := (if key in existing.status then existing.status[key].staleCount else 0) + 1;
      if staleCount >= maxStaleCount then Gone
      else Kept(Some(existing.state[key]), ResourceStatus(staleCount, None))
  }

  function MergedEntry(existing: Data, data: Data, sameCycle: bool, maxStaleCount: int, now: Time, key: string): Entry {
    if key in data.state then ReportedEntry(existing, data, sameCycle, key, now)
    else if key in existing.state then UnreportedEntry(existing, sameCycle, key, maxStaleCount)
    else Gone
  }

  /** Keys of the state without a status get one that says they were reported now. */
  function FillStatus(data: Data, now: Time): Data {
    data.(capturedAt := Some(now),
          status := map k | k in data.status.Keys + data.state.Keys ::
            if k in data.status then data.status[k] else ResourceStatus(0, Some(now)))
  }

  /** The maps agree, on every key of `keys`, with the per-key merge. */
  predicate Mirrors(
    state: map<string, StateValue>, status: map<string, ResourceStatus>,
    existing: Data, data: Data, sameCycle: bool, maxStaleCount: int, now: Time, keys: set<string>)
  {
    && state.Keys <= keys && status.Keys <= keys
    && forall k :: k in keys ==>
      var e := MergedEntry(existing, data, sameCycle, maxStaleCount, now, k);
      && (k in status <==> e.Kept?)
      && (k in status ==> status[k] == e.status)
      && (k in state <==> e.Kept? && e.value.Some?)
      && (k in state ==> state[k] == e.value.value)
  }

  ghost function MergedData(existing: Data, data: Data, maxStaleCount: int, cycleID: string, now: Time): (r: Data)
    ensures Mirrors(r.state, r.status, existing, data, existing.cycleID == cycleID, maxStaleCount, now,
      data.state.Keys + existing.state.Keys)
  {
    var same, keys := existing.cycleID == cycleID, data.state.Keys + existing.state.Keys;
    data.(isLive := true, cycleID := cycleID, createdAt := existing.createdAt,
          state := map k | k in keys && MergedEntry(existing, data, same, maxStaleCount, now, k).Kept?
                            && MergedEntry(existing, data, same, maxStaleCount, now, k).value.Some?
            :: MergedEntry(existing, data, same, maxStaleCount, now, k).value.value,
          status := map k | k in keys && MergedEntry(existing, data, same, maxStaleCount, now, k).Kept?
            :: MergedEntry(existing, data, same, maxStaleCount, now, k).status)
  }

  /** The record after a save. */
  ghost function Saved(existing: Option<Data>, report: Data, maxStaleCount: int, cycleID: string, now: Time): Data {
    var data := FillStatus(report, now);
    if existing.None? then data.(cycleID := cycleID)
    else if existing.value.cycleID == cycleID && data.state == map[] then existing.value
    else MergedData(existing.value, data, maxStaleCount, cycleID, now)
  }

  // ----- What a save means

  /** The record that the first report of a target leaves: the report itself, dated and complete. */
  ghost predicate FirstStored(report: Data, cycleID: string, now: Time, d: Data) {
    && d.target == report.target && d.executor == report.executor
    && d.isLive == report.isLive && d.createdAt == report.createdAt
    && d.cycleID == cycleID && d.capturedAt == Some(now)
    && d.state == report.state
    && d.status.Keys == report.status.Keys + report.state.Keys
    && forall k :: k in d.status ==>
         d.status[k] == if k in report.status then report.status[k] else ResourceStatus(0, Some(now))
  }

  /** The head of a merged record: live, of this cycle and this report, as old as the first one. */
  ghost predicate HeadStored(existing: Data, report: Data, cycleID: string, now: Time, d: Data) {
    && d.isLive && d.cycleID == cycleID && d.createdAt == existing.createdAt && d.capturedAt == Some(now)
    && d.target == report.target && d.executor == report.executor
  }

  /** The key was reported earlier in the cycle that now saves. */
  ghost predicate ReportedInCycle(existing: Data, cycleID: string, k: string) {
    existing.cycleID == cycleID && k in existing.status && existing.status[k].lastReportedAt.Some?
  }

  /** What becomes of one key, reported or not. */
  ghost predicate KeyStored(
    existing: Data, report: Data, maxStaleCount: int, cycleID: string, now: Time, d: Data, k: string)
  {
    var up := k in report.state && match report.state[k] {
      case Instance(_, wasRunning) => wasRunning
      case NodeGroup(_, _, _, wasScaled) => wasScaled
      case NodePool(_, _, _) => false
    };
    if k in report.state && (up || !ReportedInCycle(existing, cycleID, k)) then
      && k in d.state && d.state[k] == report.state[k]
      && k in d.status && d.status[k].staleCount == 0
      && d.status[k].lastReportedAt ==
           if k in report.status && report.status[k].lastReportedAt.Some? then report.status[k].lastReportedAt
           else Some(now)
    else if k in report.state then
      && (k in d.state <==> k in existing.state) && (k in d.state ==> d.state[k] == existing.state[k])
      && k in d.status && d.status[k] == existing.status[k]
    else if k in existing.state && ReportedInCycle(existing, cycleID, k) then
      k in d.state && d.state[k] == existing.state[k] && k in d.status && d.status[k] == existing.status[k]
    else if k in existing.state then
      var stale := if k in existing.status then existing.status[k].staleCount + 1 else 1;
      if stale >= maxStaleCount then k !in d.state && k !in d.status
      else
        && k in d.state && d.state[k] == existing.state[k]
        && k in d.status && d.status[k] == ResourceStatus(stale, None)
    else
      k !in d.state && k !in d.status
  }

  /** Every save: the report as it is, nothing, or a merge. */
  ghost predicate Stored(
    existing: Option<Data>, report: Data, maxStaleCount: int, cycleID: string, now: Time, d: Data)
  {
    if existing.None? then FirstStored(report, cycleID, now, d)
    else if existing.value.cycleID == cycleID && report.state == map[] then d == existing.value
    else
      && HeadStored(existing.value, report, cycleID, now, d)
      && forall k :: KeyStored(existing.value, report, maxStaleCount, cycleID, now, d, k)
  }

  lemma {:induction false} SaveTells(
    existing: Option<Data>, report: Data, maxStaleCount: int, cycleID: string, now: Time)
    ensures Stored(existing, report, maxStaleCount, cycleID, now, Saved(existing, report, maxStaleCount, cycleID, now))
  {
    if existing.None? {
      FirstSaveTells(report, maxStaleCount, cycleID, now);
    } else if existing.value.cycleID == cycleID && report.state == map[] {
      EmptyRerunTells(existing.value, report, maxStaleCount, cycleID, now);
    } else {
      MergeTells(existing.value, report, maxStaleCount, cycleID, now);
    }
  }

  lemma {:induction false} FirstSaveTells(report: Data, maxStaleCount: int, cycleID: string, now: Time)
    ensures FirstStored(report, cycleID, now, Saved(None, report, maxStaleCount, cycleID, now))
  {
  }

  lemma {:induction false} EmptyRerunTells(existing: Data, report: Data, maxStaleCount: int, cycleID: string, now: Time)
    requires existing.cycleID == cycleID && report.state == map[]
    ensures Saved(Some(existing), report, maxStaleCount, cycleID, now) == existing
  {
  }

  /** A save that merges, head and keys. */
  lemma {:induction false} MergeTells(existing: Data, report: Data, maxStaleCount: int, cycleID: string, now: Time)
    requires existing.cycleID != cycleID || report.state != map[]
    ensures HeadStored(existing, report, cycleID, now, Saved(Some(existing), report, maxStaleCount, cycleID, now))
    ensures forall k :: KeyStored(existing, report, maxStaleCount, cycleID, now,
      Saved(Some(existing), report, maxStaleCount, cycleID, now), k)
  {
    forall k
      ensures KeyStored(existing, report, maxStaleCount, cycleID, now,
        Saved(Some(existing), report, maxStaleCount, cycleID, now), k)
    {
      KeyTells(existing, report, maxStaleCount, cycleID, now, k);
    }
  }

  lemma {:induction false} KeyTells(
    existing: Data, report: Data, maxStaleCount: int, cycleID: string, now: Time, k: string)
    requires existing.cycleID != cycleID || report.state != map[]
    ensures KeyStored(existing, report, maxStaleCount, cycleID, now,
      Saved(Some(existing), report, maxStaleCount, cycleID, now), k)
  {
    var data := FillStatus(report, now);
    var m := MergedData(existing, data, maxStaleCount, cycleID, now);
    var keys := data.state.Keys + existing.state.Keys;
    assert Mirrors(m.state, m.status, existing, data, existing.cycleID == cycleID, maxStaleCount, now, keys);
    assert k in keys <==> k in report.state || k in existing.state;
    if k in report.state {
      ReportedTells(existing, report, cycleID, now, k);
    }
  }

  /** The entry of a reported key: the report, or what the cycle already has. */
  lemma {:induction false} ReportedTells(existing: Data, report: Data, cycleID: string, now: Time, k: string)
    requires k in report.state
    ensures
      var v := report.state[k];
      var e := ReportedEntry(existing, FillStatus(report, now), existing.cycleID == cycleID, k, now);
      && e.Kept?
      && (if (v.Instance? && v.wasRunning) || (v.NodeGroup? && v.wasScaled)
             || !ReportedInCycle(existing, cycleID, k) then
            && e.value == Some(v) && e.status.staleCount == 0
            && e.status.lastReportedAt ==
                 if k in report.status && report.status[k].lastReportedAt.Some? then report.status[k].lastReportedAt
                 else Some(now)
          else
            && e.value == (if k in existing.state then Some(existing.state[k]) else None)
            && e.status == existing.status[k])
  {
  }

  // ----- The manager

  /** `previous` is the snapshot that opening a hibernation leaves behind. */
  datatype ConfigMap = ConfigMap(records: map<string, Data>, restored: set<string>, previous: Option<map<string, Data>>)

  const EMPTY_CONFIG := ConfigMap(map[], {}, None)

  function RecordOf(c: Option<ConfigMap>, target: string): Option<Data> {
    if c.Some? && target in c.value.records then Some(c.value.records[target]) else None
  }

  /** A save creates the ConfigMap if there is none. */
  function WithRecord(c: Option<ConfigMap>, target: string, d: Data): ConfigMap {
    var cm := if c.Some? then c.value else EMPTY_CONFIG;
    cm.(records := cm.records[target := d])
  }

  class Manager {
    var config: Option<ConfigMap>

    constructor ()
      ensures config == None
    {
      config := None;
    }

    ghost function Lookup(target: string): Option<Data>
      reads this
    {
      RecordOf(config, target)
    }

    method Load(target: string) returns (r: Option<Data>)
      ensures r == Lookup(target)
    {
      if config.None? {
        return None;
      }
      r := if target in config.value.records then Some(config.value.records[target]) else None;
    }

    /** Opens a hibernation: whatever is stored no longer counts as live, and a snapshot is kept. */
    method PrepareRestorePoint()
      modifies this
      ensures config.Some?
      ensures old(config).None? ==> config == Some(EMPTY_CONFIG)
      ensures old(config).Some? ==>
        && config.value.restored == old(config).value.restored
        && config.value.previous == Some(old(config).value.records)
        && config.value.records.Keys == old(config).value.records.Keys
        && forall t :: t in config.value.records ==>
             config.value.records[t] == old(config).value.records[t].(isLive := false)
    {
      if config.None? {
        config := Some(EMPTY_CONFIG);
        return;
      }
      var records := config.value.records;
      ghost var before := records;
      var rest := records.Keys;
      while rest != {}
        invariant rest <= records.Keys == before.Keys
        invariant forall t :: t in records ==>
          records[t] == if t in rest then before[t] else before[t].(isLive := false)
      {
        var t :| t in rest;
        records := records[t := records[t].(isLive := false)];
        rest := rest - {t};
      }
      config := Some(config.value.(records := records, previous := Some(config.value.records)));
    }

    /** Saves a report; an empty report of the cycle already stored leaves the record alone. */
    method SaveState(target: string, report: Data, maxStaleCount: int, cycleID: string, now: Time)
      modifies this
      ensures config == Some(WithRecord(old(config), target,
        Saved(old(Lookup(target)), report, maxStaleCount, cycleID, now)))
      ensures Lookup(target).Some?
      ensures forall t :: t != target ==> Lookup(t) == old(Lookup(t))
      ensures config.value.restored == if old(config).Some? then old(config).value.restored else {}
      ensures config.value.previous == if old(config).Some? then old(config).value.previous else None
      ensures Stored(old(Lookup(target)), report, maxStaleCount, cycleID, now, Lookup(target).value)
    {
      SaveTells(Lookup(target), report, maxStaleCount, cycleID, now);
      var existing := Load(target);
      var data := FillStatus(report, now);
      if existing.None? {
        config := Some(WithRecord(config, target, data.(cycleID := cycleID)));
        return;
      }
      if existing.value.cycleID == cycleID && |data.state| == 0 {
        assert config.value.records[target := existing.value] == config.value.records;
        return;
      }
      var merged := Merge(existing.value, data, maxStaleCount, cycleID, now);
      config := Some(WithRecord(config, target, merged));
    }

    /** Marks a target restored; its data no longer counts as live. Without a ConfigMap, nothing. */
    method MarkTargetRestored(target: string)
      modifies this
      ensures old(config).None? ==> config == None
      ensures old(config).Some? ==>
        && config.Some?
        && config.value.restored == old(config).value.restored + {target}
        && config.value.previous == old(config).value.previous
        && config.value.records.Keys == old(config).value.records.Keys
        && forall t :: t in config.value.records ==>
             var was := old(config).value.records[t];
             config.value.records[t] == if t == target then was.(isLive := false) else was
    {
      if config.None? {
        return;
      }
      var cm := config.value.(restored := config.value.restored + {target});
      if target in cm.records {
        cm := cm.(records := cm.records[target := cm.records[target].(isLive := false)]);
      }
      config := Some(cm);
    }

    /** Clears the restored marks and every cycle ID. Without a ConfigMap, nothing. */
    method UnlockRestoreData()
      modifies this
      ensures old(config).None? ==> config == None
      ensures old(config).Some? ==>
        && config.Some?
        && config.value.restored == {}
        && config.value.previous == old(config).value.previous
        && config.value.records.Keys == old(config).value.records.Keys
        && forall t :: t in config.value.records ==>
             config.value.records[t] == old(config).value.records[t].(cycleID := "")
    {
      if config.None? {
        return;
      }
      var records := config.value.records;
      ghost var before := records;
      var rest := records.Keys;
      while rest != {}
        invariant rest <= records.Keys == before.Keys
        invariant forall t :: t in records ==> records[t] == if t in rest then before[t] else before[t].(cycleID := "")
      {
        var t :| t in rest;
        if records[t].cycleID != "" {
          records := records[t := records[t].(cycleID := "")];
        }
        rest := rest - {t};
      }
      config := Some(config.value.(restored := {}, records := records));
    }
  }

  /** The merged record: reported keys first, then the stored keys the run did not report. */
  method Merge(existing: Data, data: Data, maxStaleCount: int, cycleID: string, now: Time) returns (r: Data)
    ensures r == MergedData(existing, data, maxStaleCount, cycleID, now)
  {
    var same := existing.cycleID == cycleID;
    var state, status := MergeReported(existing, data, same, maxStaleCount, now);
    state, status := HandleStaleResources(existing, data, maxStaleCount, state, status, same, now);
    MirrorsIsUnique(state, status, existing, data, maxStaleCount, cycleID, now);
    r := Data(data.target, data.executor, true, cycleID, existing.createdAt, data.capturedAt, state, status);
  }

  lemma {:induction false} MirrorsStep(
    state: map<string, StateValue>, status: map<string, ResourceStatus>,
    existing: Data, data: Data, same: bool, maxStaleCount: int, now: Time, keys: set<string>, key: string)
    requires Mirrors(state, status, existing, data, same, maxStaleCount, now, keys) && key !in keys
    ensures
      var e := MergedEntry(existing, data, same, maxStaleCount, now, key);
      Mirrors(if e.Kept? && e.value.Some? then state[key := e.value.value] else state,
              if e.Kept? then status[key := e.status] else status,
              existing, data, same, maxStaleCount, now, keys + {key})
  {
    var e := MergedEntry(existing, data, same, maxStaleCount, now, key);
    assert key !in state && key !in status;
  }

  /** The loop over the reported keys. */
  method MergeReported(existing: Data, data: Data, same: bool, maxStaleCount: int, now: Time)
    returns (state: map<string, StateValue>, status: map<string, ResourceStatus>)
    ensures Mirrors(state, status, existing, data, same, maxStaleCount, now, data.state.Keys)
  {
    state, status := map[], map[];
    var rest := data.state.Keys;
    while rest != {}
      invariant rest <= data.state.Keys
      invariant Mirrors(state, status, existing, data, same, maxStaleCount, now, data.state.Keys - rest)
    {
      var key :| key in rest;
      var s := SelectStrategy(existing, same, key, data.state[key]);
      if UsesNewValue(s) {
        state := state[key := data.state[key]];
      } else if key in existing.state {
        state := state[key := existing.state[key]];
      }
      status := status[key := StatusFor(s, existing, data.status, key, now)];
      rest := rest - {key};
    }
  }

  /** A stored key the run did not report: kept, aged, or dropped. */
  method HandleStaleKey(
    existing: Data, data: Data, maxStaleCount: int, key: string,
    state0: map<string, StateValue>, status0: map<string, ResourceStatus>, same: bool, ghost now: Time,
    ghost keys: set<string>)
    returns (state: map<string, StateValue>, status: map<string, ResourceStatus>)
    requires Mirrors(state0, status0, existing, data, same, maxStaleCount, now, keys)
    requires key in existing.state && key !in data.state && key !in keys
    ensures Mirrors(state, status, existing, data, same, maxStaleCount, now, keys + {key})
  {
    state, status := state0, status0;
    MirrorsStep(state, status, existing, data, same, maxStaleCount, now, keys, key);
    if same && ReportedBefore(existing, key) {
      state := state[key := existing.state[key]];
      status := status[key := existing.status[key]];
      return;
    }
    var staleCount := (if key in existing.status then existing.status[key].staleCount else 0) + 1;
    if staleCount >= maxStaleCount {
      return;
    }
    state := state[key := existing.state[key]];
    status := status[key := ResourceStatus(staleCount, None)];
  }

  /** The loop over the stored keys the run did not report. */
  method HandleStaleResources(
    existing: Data, data: Data, maxStaleCount: int,
    state0: map<string, StateValue>, status0: map<string, ResourceStatus>, same: bool, ghost now: Time)
    returns (state: map<string, StateValue>, status: map<string, ResourceStatus>)
    requires Mirrors(state0, status0, existing, data, same, maxStaleCount, now, data.state.Keys)
    ensures Mirrors(state, status, existing, data, same, maxStaleCount, now, data.state.Keys + existing.state.Keys)
  {
    state, status := state0, status0;
    var rest := existing.state.Keys;
    ghost var keys := data.state.Keys;
    while rest != {}
      invariant rest <= existing.state.Keys && keys == data.state.Keys + (existing.state.Keys - rest)
      invariant Mirrors(state, status, existing, data, same, maxStaleCount, now, keys)
    {
      var key :| key in rest;
      OneKeyLess(data.state.Keys, existing.state.Keys, rest, key);
      if key !in data.state {
        state, status := HandleStaleKey(existing, data, maxStaleCount, key, state, status, same, now, keys);
        keys := keys + {key};
      }
      rest := rest - {key};
    }
    assert existing.state.Keys - {} == existing.state.Keys;
  }

  lemma {:induction false} OneKeyLess(reported: set<string>, stored: set<string>, rest: set<string>, key: string)
    requires rest <= stored && key in rest
    ensures key !in reported ==> key !in reported + (stored - rest)
    ensures reported + (stored - (rest - {key})) == reported + (stored - rest) + {key}
    ensures key in reported ==> reported + (stored - (rest - {key})) == reported + (stored - rest)
  {
  }

  lemma {:induction false} MirrorsIsUnique(
    state: map<string, StateValue>, status: map<string, ResourceStatus>,
    existing: Data, data: Data, maxStaleCount: int, cycleID: string, now: Time)
    requires Mirrors(state, status, existing, data, existing.cycleID == cycleID, maxStaleCount, now,
      data.state.Keys + existing.state.Keys)
    ensures state == MergedData(existing, data, maxStaleCount, cycleID, now).state
    ensures status == MergedData(existing, data, maxStaleCount, cycleID, now).status
  {
    var m := MergedData(existing, data, maxStaleCount, cycleID, now);
    assert state.Keys == m.state.Keys && status.Keys == m.status.Keys;
  }
}
