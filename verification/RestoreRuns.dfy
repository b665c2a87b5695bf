/**
 Whole runs of the restore protocol: reports gathered by the runner, flushed into the record,
 aged, unlocked and finally loaded for a wake-up.

 The main result is a refinement. Seen from the wake-up side, the record, its statuses and its
 staleness counters behave like one small map per cycle that absorbs reports (`Absorb`).
 */
module RestoreRuns {
  import opened Wrappers
  import opened RestoreStore

  const MAX_STALE_COUNT: int := 3

  // ----- The runner's side

  /** Reports gathered in memory during one run. */
  class Accumulator {
    const target: string
    const targetType: string
    const cycleID: string
    var state: map<string, StateValue>
    var reportedAt: map<string, Time>

    ghost predicate Valid()
      reads this
    {
      state.Keys == reportedAt.Keys
    }

    constructor (target: string, targetType: string, cycleID: string)
      ensures Valid() && state == map[]
      ensures this.target == target && this.targetType == targetType && this.cycleID == cycleID
    {
      this.target, this.targetType, this.cycleID := target, targetType, cycleID;
      state, reportedAt := map[], map[];
    }

    /** The report callback: a later report of a key overwrites the earlier one. */
    method Add(key: string, value: StateValue, now: Time)
      requires Valid()
      modifies this`state, this`reportedAt
      ensures Valid() && state == old(state)[key := value] && reportedAt == old(reportedAt)[key := now]
    {
      reportedAt := reportedAt[key := now];
      state := state[key := value];
    }

    /** Saves everything gathered, in one call. */
    method Flush(mgr: Manager, now: Time)
      requires Valid()
      modifies mgr
      ensures mgr.config == Some(WithRecord(old(mgr.config), target,
        Flushed(old(mgr.Lookup(target)), FlushData(target, targetType, state, reportedAt, now), cycleID, now)))
      ensures mgr.Lookup(target).Some?
      ensures
        var times := map k | k in reportedAt :: ResourceStatus(0, Some(reportedAt[k]));
        Stored(old(mgr.Lookup(target)), Data(target, targetType, true, "", now, None, state, times), 3, cycleID, now,
          mgr.Lookup(target).value)
    {
      var data := FlushData(target, targetType, state, reportedAt, now);
      mgr.SaveState(target, data, MAX_STALE_COUNT, cycleID, now);
    }
  }

  function FlushData(
    target: string, targetType: string, state: map<string, StateValue>, reportedAt: map<string, Time>,
    now: Time): Data
  {
    Data(target, targetType, true, "", now, None, state,
      map k | k in reportedAt :: ResourceStatus(0, Some(reportedAt[k])))
  }

  ghost function Flushed(existing: Option<Data>, report: Data, cycleID: string, now: Time): Data {
    Saved(existing, report, MAX_STALE_COUNT, cycleID, now)
  }

  /** What a wake-up may use: every key that is not stale. */
  ghost function Visible(d: Data): map<string, StateValue> {
    map k | k in d.state && !(k in d.status && d.status[k].staleCount > 0) :: d.state[k]
  }

  /** Loads the restore data of a target; absent data is an error. */
  method LoadRestoreData(mgr: Manager, target: string) returns (r: Option<map<string, StateValue>>)
    ensures r.Some? <==> mgr.Lookup(target).Some?
    ensures r.Some? ==> r.value == Visible(mgr.Lookup(target).value)
    ensures r.Some? ==> forall k ::
      k in r.value <==>
        var d := mgr.Lookup(target).value;
        k in d.state && (k in d.status ==> d.status[k].staleCount <= 0)
    ensures r.Some? ==> forall k :: k in r.value ==> r.value[k] == mgr.Lookup(target).value.state[k]
  {
    var data := mgr.Load(target);
    if data.None? { return None; }
    var d := data.value;
    var out: map<string, StateValue> := map[];
    var rest := d.state.Keys;
    while rest != {}
      invariant rest <= d.state.Keys
      invariant out == map k | k in Visible(d) && k !in rest :: Visible(d)[k]
    {
      var key :| key in rest;
      rest := rest - {key};
      if key in d.status && d.status[key].staleCount > 0 {
        continue;
      }
      out := out[key := d.state[key]];
    }
    assert out == Visible(d);
    return Some(out);
  }

  // ----- Record consistency

  /** Reported with no staleness, or unreported with a positive staleness below the limit. */
  predicate StatusOk(s: ResourceStatus) {
    if s.lastReportedAt.Some? then s.staleCount == 0 else 1 <= s.staleCount < MAX_STALE_COUNT
  }

  ghost predicate Consistent(d: Data) {
    && d.state.Keys == d.status.Keys
    && forall k :: k in d.status ==> StatusOk(d.status[k])
  }

  /** A report as the accumulator builds it. */
  ghost predicate FreshReport(d: Data) {
    && d.isLive
    && d.state.Keys == d.status.Keys
    && forall k :: k in d.status ==> d.status[k].lastReportedAt.Some? && d.status[k].staleCount == 0
  }

  lemma {:induction false} MergedEntryOk(existing: Data, data: Data, same: bool, now: Time, key: string)
    requires Consistent(existing) && FreshReport(data)
    ensures
      var e := MergedEntry(existing, data, same, MAX_STALE_COUNT, now, key);
      && (e.Kept? ==> e.value.Some? && StatusOk(e.status))
      && (key in data.state ==> e.Kept? && e.status.lastReportedAt.Some?)
      && (key !in data.state && !(same && ReportedBefore(existing, key)) && e.Kept? ==> e.status.staleCount > 0)
  {
    if key in existing.status {
      assert StatusOk(existing.status[key]);
    }
  }

  lemma {:induction false} FlushKeepsConsistent(existing: Option<Data>, report: Data, cycleID: string, now: Time)
    requires existing.Some? ==> Consistent(existing.value)
    requires FreshReport(report)
    ensures Consistent(Flushed(existing, report, cycleID, now))
  {
    var data := FillStatus(report, now);
    assert FreshReport(data);
    if existing.Some? && !(existing.value.cycleID == cycleID && data.state == map[]) {
      var e, same := existing.value, existing.value.cycleID == cycleID;
      var m := MergedData(e, data, MAX_STALE_COUNT, cycleID, now);
      var keys := data.state.Keys + e.state.Keys;
      assert Mirrors(m.state, m.status, e, data, same, MAX_STALE_COUNT, now, keys);
      forall k | k in keys
        ensures k in m.state <==> k in m.status
        ensures k in m.status ==> StatusOk(m.status[k])
      {
        MergedEntryOk(e, data, same, now, k);
      }
    }
  }

  // ----- The small map behind the record

  /** A report wins on keys not seen in this cycle and on keys it saw running. */
  ghost function Absorb(view: map<string, StateValue>, report: map<string, StateValue>): map<string, StateValue> {
    map k | k in view.Keys + report.Keys ::
      if k in report && (k !in view || Demanded(report[k])) then report[k] else view[k]
  }

  /** The visible part of a record that belongs to `cycleID`; nothing if it belongs to another. */
  ghost function CycleView(rec: Option<Data>, cycleID: string): map<string, StateValue> {
    if rec.Some? && rec.value.cycleID == cycleID then Visible(rec.value) else map[]
  }

  lemma {:induction false} MergedView(existing: Data, data: Data, cycleID: string, now: Time, k: string)
    requires Consistent(existing) && FreshReport(data)
    ensures
      var m := MergedData(existing, data, MAX_STALE_COUNT, cycleID, now);
      var want := Absorb(CycleView(Some(existing), cycleID), data.state);
      && (k in Visible(m) <==> k in want)
      && (k in want ==> k in Visible(m) && Visible(m)[k] == want[k])
  {
    var m, same := MergedData(existing, data, MAX_STALE_COUNT, cycleID, now), existing.cycleID == cycleID;
    MergedEntryOk(existing, data, same, now, k);
    if k in existing.status {
      assert StatusOk(existing.status[k]);
    }
    if k in data.state.Keys + existing.state.Keys {
      var e := MergedEntry(existing, data, same, MAX_STALE_COUNT, now, k);
      assert k in m.status <==> e.Kept?;
    }
  }

  lemma {:induction false} MergeAbsorbs(existing: Data, data: Data, cycleID: string, now: Time)
    requires Consistent(existing) && FreshReport(data)
    ensures Visible(MergedData(existing, data, MAX_STALE_COUNT, cycleID, now)) ==
      Absorb(CycleView(Some(existing), cycleID), data.state)
  {
    var v := Visible(MergedData(existing, data, MAX_STALE_COUNT, cycleID, now));
    var want := Absorb(CycleView(Some(existing), cycleID), data.state);
    forall k
      ensures (k in v <==> k in want) && (k in want ==> k in v && v[k] == want[k])
    {
      MergedView(existing, data, cycleID, now, k);
    }
  }

  /** A flush, seen through the cycle it belongs to, absorbs the report and nothing else. */
  lemma {:induction false} FlushAbsorbs(existing: Option<Data>, report: Data, cycleID: string, now: Time)
    requires existing.Some? ==> Consistent(existing.value)
    requires FreshReport(report)
    ensures Flushed(existing, report, cycleID, now).cycleID == cycleID
    ensures Visible(Flushed(existing, report, cycleID, now)) == Absorb(CycleView(existing, cycleID), report.state)
  {
    var data := FillStatus(report, now);
    assert FreshReport(data) && data.state == report.state;
    if existing.Some? && !(existing.value.cycleID == cycleID && data.state == map[]) {
      MergeAbsorbs(existing.value, data, cycleID, now);
    }
  }

  /** The record of `target` belongs to the cycle, is consistent and shows exactly `view`. */
  ghost predicate Shows(mgr: Manager, target: string, cycleID: string, view: map<string, StateValue>)
    reads mgr
  {
    var rec := mgr.Lookup(target);
    rec.Some? && Consistent(rec.value) && rec.value.cycleID == cycleID && Visible(rec.value) == view
  }

  lemma {:induction false} FlushShows(rec: Option<Data>, report: Data, cycleID: string, now: Time)
    requires rec.Some? ==> Consistent(rec.value)
    requires FreshReport(report)
    ensures
      var d := Flushed(rec, report, cycleID, now);
      Consistent(d) && d.cycleID == cycleID && Visible(d) == Absorb(CycleView(rec, cycleID), report.state)
  {
    FlushKeepsConsistent(rec, report, cycleID, now);
    FlushAbsorbs(rec, report, cycleID, now);
  }

  /** The target's record, if there is one, keeps the invariant. */
  ghost predicate Sound(mgr: Manager, target: string)
    reads mgr
  {
    mgr.Lookup(target).Some? ==> Consistent(mgr.Lookup(target).value)
  }

  /** A flush on a consistent record, seen through its cycle. */
  method FlushInCycle(acc: Accumulator, mgr: Manager, now: Time)
    requires acc.Valid() && Sound(mgr, acc.target)
    modifies mgr
    ensures Shows(mgr, acc.target, acc.cycleID, Absorb(CycleView(old(mgr.Lookup(acc.target)), acc.cycleID), acc.state))
    ensures forall t :: t != acc.target ==> mgr.Lookup(t) == old(mgr.Lookup(t))
  {
    ghost var report := FlushData(acc.target, acc.targetType, acc.state, acc.reportedAt, now);
    FlushShows(mgr.Lookup(acc.target), report, acc.cycleID, now);
    acc.Flush(mgr, now);
  }

  // ----- Opening and closing a cycle

  /** Between cycles: the record keeps the invariant and belongs to no cycle. */
  ghost predicate BetweenCycles(mgr: Manager, target: string)
    reads mgr
  {
    Sound(mgr, target) && (mgr.Lookup(target).Some? ==> mgr.Lookup(target).value.cycleID == "")
  }

  /** The controller opens a hibernation. */
  method OpenCycle(mgr: Manager, target: string)
    requires BetweenCycles(mgr, target)
    modifies mgr
    ensures BetweenCycles(mgr, target)
  {
    mgr.PrepareRestorePoint();
  }

  /** The runner marks its target restored; once all are, the controller unlocks the data. */
  method CloseCycle(mgr: Manager, target: string)
    requires Sound(mgr, target)
    modifies mgr
    ensures BetweenCycles(mgr, target)
  {
    ghost var before := mgr.Lookup(target);
    mgr.MarkTargetRestored(target);
    assert before.Some? ==> mgr.Lookup(target) == Some(before.value.(isLive := false));
    mgr.UnlockRestoreData();
    assert before.Some? ==> mgr.Lookup(target) == Some(before.value.(isLive := false, cycleID := ""));
  }

  // ----- Every history

  datatype Event =
    | Flush(cycleID: string, report: Data, now: Time)
    | Restored
    | Unlock
    | Prepare

  ghost predicate WellFormed(e: Event) {
    e.Flush? ==> FreshReport(e.report)
  }

  /** The stored record of one target after an event. */
  ghost function After(rec: Option<Data>, e: Event): Option<Data> {
    match e
    case Flush(cycleID, report, now) => Some(Flushed(rec, report, cycleID, now))
    case Restored => if rec.Some? then Some(rec.value.(isLive := false)) else None
    case Prepare => if rec.Some? then Some(rec.value.(isLive := false)) else None
    case Unlock => if rec.Some? then Some(rec.value.(cycleID := "")) else None
  }

  ghost function History(events: seq<Event>): Option<Data> {
    if events == [] then None
    else After(History(events[..|events| - 1]), events[|events| - 1])
  }

  /** The abstract record: a cycle, what was absorbed in it, and whether that is still to be restored. */
  datatype Abstract = Empty | Holding(cycleID: string, view: map<string, StateValue>, live: bool)

  ghost function AbstractAfter(a: Abstract, e: Event): Abstract {
    match e
    case Flush(cycleID, report, _) =>
      if a.Holding? && a.cycleID == cycleID then
        Holding(cycleID, Absorb(a.view, report.state), a.live || report.state != map[])
      else Holding(cycleID, report.state, true)
    case Restored => if a.Holding? then a.(live := false) else a
    case Prepare => if a.Holding? then a.(live := false) else a
    case Unlock => if a.Holding? then a.(cycleID := "") else a
  }

  ghost function AbstractHistory(events: seq<Event>): Abstract {
    if events == [] then Empty
    else AbstractAfter(AbstractHistory(events[..|events| - 1]), events[|events| - 1])
  }

  ghost function Abstraction(rec: Option<Data>): Abstract {
    if rec.None? then Empty else Holding(rec.value.cycleID, Visible(rec.value), rec.value.isLive)
  }

  /** Each event keeps the record consistent and does to it what it does to the abstract record. */
  lemma {:induction false} EventRefines(rec: Option<Data>, e: Event)
    requires rec.Some? ==> Consistent(rec.value)
    requires WellFormed(e)
    ensures After(rec, e).Some? ==> Consistent(After(rec, e).value)
    ensures Abstraction(After(rec, e)) == AbstractAfter(Abstraction(rec), e)
  {
    if e.Flush? {
      FlushShows(rec, e.report, e.cycleID, e.now);
      SaveTells(rec, e.report, MAX_STALE_COUNT, e.cycleID, e.now);
      AbsorbIntoNothing(e.report.state);
    } else if rec.Some? {
      assert Visible(After(rec, e).value) == Visible(rec.value);
    }
  }

  lemma {:induction false} AbsorbIntoNothing(report: map<string, StateValue>)
    ensures Absorb(map[], report) == report
  {
    assert Absorb(map[], report).Keys == report.Keys;
  }

  /** After any history the record is consistent, and a wake-up sees the abstract map exactly. */
  lemma {:induction false} HistoryRefines(events: seq<Event>)
    requires forall e :: e in events ==> WellFormed(e)
    ensures History(events).Some? ==> Consistent(History(events).value)
    ensures Abstraction(History(events)) == AbstractHistory(events)
  {
    if events != [] {
      var n := |events| - 1;
      HistoryRefines(events[..n]);
      assert events[n] in events;
      EventRefines(History(events[..n]), events[n]);
    }
  }

  // ----- Liveness of the record

  /** A flush that stores: not an empty report of the cycle already there. */
  ghost predicate StoringFlush(rec: Option<Data>, e: Event) {
    e.Flush? && !(rec.Some? && rec.value.cycleID == e.cycleID && e.report.state == map[])
  }

  ghost predicate StoredLiveAt(events: seq<Event>, i: int) {
    && 0 <= i < |events| && StoringFlush(History(events[..i]), events[i])
    && forall j :: i < j < |events| ==> !events[j].Restored? && !events[j].Prepare?
  }

  /** A record is live exactly when something was stored since it was last restored or prepared. */
  lemma {:induction false} LiveIffStoredSince(events: seq<Event>)
    requires forall e :: e in events ==> WellFormed(e)
    ensures History(events).Some? ==> (History(events).value.isLive <==> exists i :: StoredLiveAt(events, i))
  {
    if events != [] {
      var n := |events| - 1;
      var front, e := events[..n], events[n];
      assert e in events;
      LiveIffStoredSince(front);
      LiveStep(History(front), e);
      forall i | 0 <= i < n
        ensures StoredLiveAt(events, i) <==> StoredLiveAt(front, i) && !e.Restored? && !e.Prepare?
      {
        assert events[..i] == front[..i] && events[i] == front[i];
        assert forall j :: i < j < n ==> events[j] == front[j];
      }
      assert StoredLiveAt(events, n) <==> StoringFlush(History(front), e);
      if i :| StoredLiveAt(front, i) {
        assert 0 <= i < n;
      }
    }
  }

  lemma {:induction false} LiveStep(rec: Option<Data>, e: Event)
    requires WellFormed(e)
    ensures StoringFlush(rec, e) ==> After(rec, e).Some? && After(rec, e).value.isLive
    ensures e.Restored? || e.Prepare? ==> After(rec, e).Some? ==> !After(rec, e).value.isLive
    ensures !StoringFlush(rec, e) && !e.Restored? && !e.Prepare? ==>
      (After(rec, e).Some? <==> rec.Some?) && (rec.Some? ==> After(rec, e).value.isLive == rec.value.isLive)
  {
    if e.Flush? {
      SaveTells(rec, e.report, MAX_STALE_COUNT, e.cycleID, e.now);
    }
  }

  /** A consistent record shows a key exactly when the key's status says it was reported. */
  lemma {:induction false} VisibleIsReported(d: Data, k: string)
    requires Consistent(d)
    ensures k in Visible(d) <==> ReportedBefore(d, k)
  {
    if k in d.status {
      assert StatusOk(d.status[k]);
    }
  }

  // ----- One cycle

  ghost function AbsorbAll(reports: seq<map<string, StateValue>>): map<string, StateValue> {
    if reports == [] then map[]
    else Absorb(AbsorbAll(reports[..|reports| - 1]), reports[|reports| - 1])
  }

  ghost predicate ReportedAt(reports: seq<map<string, StateValue>>, k: string, i: int) {
    0 <= i < |reports| && k in reports[i]
  }

  /** Report `i` holds the last demanded value of `k`. */
  ghost predicate LastDemanded(reports: seq<map<string, StateValue>>, k: string, i: int) {
    && ReportedAt(reports, k, i)
    && Demanded(reports[i][k])
    && forall j :: i < j && ReportedAt(reports, k, j) ==> !Demanded(reports[j][k])
  }

  /** Report `i` is the first of `k`, and no report of `k` was demanded. */
  ghost predicate FirstOfUndemanded(reports: seq<map<string, StateValue>>, k: string, i: int) {
    && ReportedAt(reports, k, i)
    && (forall j :: ReportedAt(reports, k, j) ==> i <= j && !Demanded(reports[j][k]))
  }

  /**
   Over any run of reports in one cycle, the value held for a key is its last demanded report,
   or its first report if none was demanded; a key is held exactly when it was reported.
   */
  lemma {:induction false} LastDemandedElseFirst(reports: seq<map<string, StateValue>>, k: string)
    ensures k in AbsorbAll(reports) <==> exists i :: ReportedAt(reports, k, i)
    ensures k in AbsorbAll(reports) ==> exists i ::
      && (LastDemanded(reports, k, i) || FirstOfUndemanded(reports, k, i))
      && AbsorbAll(reports)[k] == reports[i][k]
  {
    if reports != [] {
      var n := |reports| - 1;
      var front := reports[..n];
      LastDemandedElseFirst(front, k);
      assert forall i :: ReportedAt(reports, k, i) <==> ReportedAt(front, k, i) || (i == n && k in reports[n]);
      var was := AbsorbAll(front);
      if k in reports[n] && (k !in was || Demanded(reports[n][k])) {
        assert ReportedAt(reports, k, n);
        assert LastDemanded(reports, k, n) || FirstOfUndemanded(reports, k, n);
      } else if k in was {
        var i :| (LastDemanded(front, k, i) || FirstOfUndemanded(front, k, i)) && was[k] == front[i][k];
        assert ReportedAt(reports, k, i);
        if LastDemanded(front, k, i) {
          assert LastDemanded(reports, k, i);
        } else {
          assert FirstOfUndemanded(reports, k, i);
        }
      }
    }
  }

  /** What one shutdown run reported, and when it was flushed. */
  datatype Attempt = Attempt(report: Data, now: Time)

  /** The record after the attempts of one cycle, each flushed in turn. */
  ghost function CycleFlushes(rec: Option<Data>, cycleID: string, attempts: seq<Attempt>): Option<Data> {
    if attempts == [] then rec
    else
      var n := |attempts| - 1;
      Some(Flushed(CycleFlushes(rec, cycleID, attempts[..n]), attempts[n].report, cycleID, attempts[n].now))
  }

  ghost function States(attempts: seq<Attempt>): seq<map<string, StateValue>> {
    seq(|attempts|, i requires 0 <= i < |attempts| => attempts[i].report.state)
  }

  /** A cycle that starts afresh shows exactly what its own reports absorbed, older data never. */
  lemma {:induction false} CycleShowsItsReports(rec: Option<Data>, cycleID: string, attempts: seq<Attempt>)
    requires rec.Some? ==> Consistent(rec.value) && rec.value.cycleID != cycleID
    requires forall a :: a in attempts ==> FreshReport(a.report)
    ensures attempts != [] ==>
      var d := CycleFlushes(rec, cycleID, attempts);
      d.Some? && Consistent(d.value) && d.value.cycleID == cycleID && Visible(d.value) == AbsorbAll(States(attempts))
  {
    if attempts != [] {
      var n := |attempts| - 1;
      var front := attempts[..n];
      CycleShowsItsReports(rec, cycleID, front);
      var before := CycleFlushes(rec, cycleID, front);
      assert attempts[n] in attempts;
      FlushShows(before, attempts[n].report, cycleID, attempts[n].now);
      assert States(attempts)[..n] == States(front);
      assert front == [] ==> CycleView(before, cycleID) == AbsorbAll(States(front));
    }
  }

  // ----- Runs that may stop early

  /** A run over a list of resources whose call at position `stopAt`, if any, fails. */
  datatype RunInput = RunInput(names: seq<string>, stopAt: nat, now: Time)

  /** The resources such a run gets through. */
  function Reached(names: seq<string>, stopAt: nat): seq<string> {
    if stopAt < |names| then names[..stopAt] else names
  }

  ghost function ReachedAll(runs: seq<RunInput>): seq<seq<string>> {
    seq(|runs|, i requires 0 <= i < |runs| => Reached(runs[i].names, runs[i].stopAt))
  }

  // ----- Ageing

  /** A save under `cycleID`. */
  datatype Save = Save(cycleID: string, report: Data, now: Time)

  ghost function Saves(d: Data, saves: seq<Save>): Data {
    if saves == [] then d
    else
      var n := |saves| - 1;
      Flushed(Some(Saves(d, saves[..n])), saves[n].report, saves[n].cycleID, saves[n].now)
  }

  /** Each save runs under another cycle than the record it meets. */
  ghost predicate CyclesChange(d: Data, saves: seq<Save>) {
    saves == [] ||
    var n := |saves| - 1;
    CyclesChange(d, saves[..n]) && saves[n].cycleID != (if n == 0 then d.cycleID else saves[n - 1].cycleID)
  }

  lemma {:induction false} FlushedCycle(d: Data, report: Data, cycleID: string, now: Time)
    ensures Flushed(Some(d), report, cycleID, now).cycleID == cycleID
  {
    var data := FillStatus(report, now);
    assert MergedData(d, data, MAX_STALE_COUNT, cycleID, now).cycleID == cycleID;
  }

  lemma {:induction false} SavesCycle(d: Data, saves: seq<Save>)
    ensures Saves(d, saves).cycleID == if saves == [] then d.cycleID else saves[|saves| - 1].cycleID
  {
    if saves != [] {
      var n := |saves| - 1;
      FlushedCycle(Saves(d, saves[..n]), saves[n].report, saves[n].cycleID, saves[n].now);
    }
  }

  /** One save of another cycle that does not report `k`. */
  lemma {:induction false} UnreportedStep(d: Data, s: Save, k: string)
    requires Consistent(d) && d.cycleID != s.cycleID
    requires FreshReport(s.report) && k !in s.report.state
    ensures
      var r := Flushed(Some(d), s.report, s.cycleID, s.now);
      && Consistent(r)
      && (k in r.state <==> k in d.state && d.status[k].staleCount + 1 < MAX_STALE_COUNT)
      && (k in r.state ==> k in r.status && r.state[k] == d.state[k]
                           && r.status[k] == ResourceStatus(d.status[k].staleCount + 1, None))
  {
    FlushKeepsConsistent(Some(d), s.report, s.cycleID, s.now);
    var data := FillStatus(s.report, s.now);
    var m := MergedData(d, data, MAX_STALE_COUNT, s.cycleID, s.now);
    assert Mirrors(m.state, m.status, d, data, false, MAX_STALE_COUNT, s.now, data.state.Keys + d.state.Keys);
    assert k in data.state.Keys + d.state.Keys <==> k in d.state;
  }

  /**
   A key that was reported and then goes unreported, through saves each of another cycle, keeps
   its value with a staleness equal to their number and is gone when that reaches the limit.
   */
  lemma {:induction false} UnreportedAges(d: Data, saves: seq<Save>, k: string)
    requires Consistent(d) && ReportedBefore(d, k)
    requires CyclesChange(d, saves)
    requires forall s :: s in saves ==> FreshReport(s.report) && k !in s.report.state
    ensures Consistent(Saves(d, saves))
    ensures k in Saves(d, saves).state <==> |saves| < MAX_STALE_COUNT
    ensures |saves| < MAX_STALE_COUNT ==>
      var r := Saves(d, saves);
      k in r.status && r.state[k] == d.state[k] && r.status[k].staleCount == |saves|
  {
    assert StatusOk(d.status[k]);
    if saves != [] {
      var n := |saves| - 1;
      UnreportedAges(d, saves[..n], k);
      SavesCycle(d, saves[..n]);
      assert saves[n] in saves;
      UnreportedStep(Saves(d, saves[..n]), saves[n], k);
    }
  }

  /** After an unlock, the first save under any real cycle takes every reported value as given. */
  lemma {:induction false} UnlockedTakesReport(d: Data, report: Data, cycleID: string, now: Time)
    requires Consistent(d) && FreshReport(report) && cycleID != ""
    ensures Visible(Flushed(Some(d.(cycleID := "")), report, cycleID, now)) == report.state
  {
    FlushAbsorbs(Some(d.(cycleID := "")), report, cycleID, now);
    AbsorbIntoNothing(report.state);
  }
}
