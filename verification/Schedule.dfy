/**
 Schedule evaluation with exceptions: replace, extend and suspend, composed in that order.
 */
module Schedule {
  import opened Wrappers
  import opened Calendar
  import opened Windows

  datatype ExceptionType = Extend | Suspend | Replace

  datatype Exception = Exception(
    kind: ExceptionType,
    validFrom: Time,
    validUntil: Time,
    leadTime: int,
    windows: seq<Window>)

  function EarlierTime(a: Option<Time>, b: Option<Time>): Option<Time> {
    if a.None? then b
    else if b.None? then a
    else if a.value < b.value then a
    else b
  }

  ghost predicate AllValid(ws: seq<Window>) {
    forall w :: w in ws ==> Valid(w)
  }

  // ----- A list of windows

  const INACTIVE := EvaluationResult(false, None, None, false, None)

  /** Two results combined: either one hibernates, the earlier event comes first. */
  function Combine(a: EvaluationResult, b: EvaluationResult): EvaluationResult {
    EvaluationResult(
      a.shouldHibernate || b.shouldHibernate,
      EarlierTime(a.nextHibernate, b.nextHibernate),
      EarlierTime(a.nextWakeUp, b.nextWakeUp),
      a.inGracePeriod || b.inGracePeriod,
      if b.inGracePeriod then EarlierTime(a.gracePeriodEnd, b.gracePeriodEnd) else a.gracePeriodEnd)
  }

  function EvalAll(ws: seq<Window>, now: Time, buffer: int): EvaluationResult {
    if ws == [] then INACTIVE
    else if |ws| == 1 then Eval(ws[0], now, buffer)
    else Combine(EvalAll(ws[..|ws| - 1], now, buffer), Eval(ws[|ws| - 1], now, buffer))
  }

  lemma {:induction false} EvalAllStep(ws: seq<Window>, w: Window, t: Time, buffer: int)
    ensures EvalAll(ws + [w], t, buffer) == Combine(EvalAll(ws, t, buffer), Eval(w, t, buffer))
  {
    assert (ws + [w])[..|ws|] == ws;
  }

  /** The loop over the windows; a window that has no cron form ends it with an error. */
  method EvaluateWindows(ws: seq<Window>, now: Time, buffer: int) returns (r: Option<EvaluationResult>)
    ensures r == if AllValid(ws) then Some(EvalAll(ws, now, buffer)) else None
    ensures r.None? <==> exists w :: w in ws && (w.days == {} || w.start == w.end)
  {
    if |ws| == 0 {
      return Some(INACTIVE);
    }
    var combined: Option<EvaluationResult> := None;
    for i := 0 to |ws|
      invariant AllValid(ws[..i])
      invariant combined == if i == 0 then None else Some(EvalAll(ws[..i], now, buffer))
    {
      var w := ws[i];
      if !Valid(w) {
        assert w in ws;
        return None;
      }
      assert ws[..i + 1] == ws[..i] + [w];
      EvalAllStep(ws[..i], w, now, buffer);
      var result := EvalWindow(w, now, buffer);
      combined := Some(if combined.None? then result else Combine(combined.value, result));
    }
    assert ws[..|ws|] == ws;
    return combined;
  }

  // ----- Extend

  function ApplyExtend(base: EvaluationResult, ws: seq<Window>, ext: EvaluationResult): EvaluationResult {
    var nextWakeUp :=
      if base.nextWakeUp.Some? && InAny(ws, base.nextWakeUp.value) then ext.nextWakeUp
      else EarlierTime(base.nextWakeUp, ext.nextWakeUp);
    EvaluationResult(
      base.shouldHibernate || ext.shouldHibernate,
      EarlierTime(base.nextHibernate, ext.nextHibernate),
      nextWakeUp,
      base.inGracePeriod || ext.inGracePeriod,
      if base.inGracePeriod && ext.inGracePeriod then EarlierTime(base.gracePeriodEnd, ext.gracePeriodEnd)
      else if base.inGracePeriod then base.gracePeriodEnd
      else if ext.inGracePeriod then ext.gracePeriodEnd
      else None)
  }

  // ----- Suspend

  /** Within the lead time before some window opens, today or, in the afternoon, tomorrow. */
  predicate InLeadTime(w: Window, now: Time, leadTime: int) {
    var m, lead := MinuteOf(now), leadTime / 60_000_000_000;
    var dayMatch := Listed(w, now) || (m / 60 > 12 && WeekdayOf(DayOf(now) + 1) in w.days);
    var from := if w.start - lead < 0 then w.start - lead + 1440 else w.start - lead;
    dayMatch && (if from < w.start then from <= m < w.start else m >= from || m < w.start)
  }

  /** The start of `w` today or tomorrow, if it is still to come. */
  function StartWithin(w: Window, now: Time, daysAhead: int): Option<Time> {
    if WeekdayOf(DayOf(now) + daysAhead) in w.days && !(daysAhead == 0 && w.start <= MinuteOf(now))
    then Some(Instant(DayOf(now) + daysAhead, w.start))
    else None
  }

  function EarliestStart(ws: seq<Window>, now: Time, daysAhead: int): Option<Time> {
    if ws == [] then None
    else EarlierTime(EarliestStart(ws[..|ws| - 1], now, daysAhead), StartWithin(ws[|ws| - 1], now, daysAhead))
  }

  function NextSuspensionStart(ws: seq<Window>, now: Time): Option<Time> {
    EarlierTime(EarliestStart(ws, now, 0), EarliestStart(ws, now, 1))
  }

  lemma {:induction false} EarlierAssociates(a: Option<Time>, b: Option<Time>, c: Option<Time>)
    ensures EarlierTime(EarlierTime(a, b), c) == EarlierTime(a, EarlierTime(b, c))
  {
  }

  lemma {:induction false} EarliestStartIsLeast(ws: seq<Window>, now: Time, ahead: int, w: Window)
    requires w in ws && StartWithin(w, now, ahead).Some?
    ensures EarliestStart(ws, now, ahead).Some?
    ensures EarliestStart(ws, now, ahead).value <= StartWithin(w, now, ahead).value
  {
    var n := |ws| - 1;
    assert ws == ws[..n] + [ws[n]];
    if w in ws[..n] {
      EarliestStartIsLeast(ws[..n], now, ahead, w);
    }
  }

  /** What is found is the start of a window. */
  lemma {:induction false} StartFound(ws: seq<Window>, t: Time, ahead: int) returns (w: Window)
    requires EarliestStart(ws, t, ahead).Some?
    ensures w in ws && StartWithin(w, t, ahead) == EarliestStart(ws, t, ahead)
  {
    var n := |ws| - 1;
    if EarliestStart(ws[..n], t, ahead) == EarliestStart(ws, t, ahead) {
      w := StartFound(ws[..n], t, ahead);
    } else {
      w := ws[n];
    }
  }

  /** A start of `w` today or tomorrow, in a later minute than now. */
  ghost predicate UpcomingStart(w: Window, now: Time, s: Time) {
    exists day :: DayOf(now) <= day <= DayOf(now) + 1 && WeekdayOf(day) in w.days && s == Instant(day, w.start)
      && Instant(DayOf(now), MinuteOf(now)) < s
  }

  /** What is found is an upcoming start, and the earliest of all. */
  lemma {:induction false} NextStartTells(ws: seq<Window>, now: Time)
    ensures
      var n := NextSuspensionStart(ws, now);
      && (n.Some? ==> exists w :: w in ws && UpcomingStart(w, now, n.value))
      && (forall w, s :: w in ws && UpcomingStart(w, now, s) ==> n.Some? && n.value <= s)
  {
    var n := NextSuspensionStart(ws, now);
    if n.Some? {
      var ahead := if n == EarliestStart(ws, now, 0) then 0 else 1;
      var w := StartFound(ws, now, ahead);
      assert DayOf(now) <= DayOf(now) + ahead <= DayOf(now) + 1;
      assert UpcomingStart(w, now, n.value);
    }
    forall w, s | w in ws && UpcomingStart(w, now, s)
      ensures n.Some? && n.value <= s
    {
      var day :| DayOf(now) <= day <= DayOf(now) + 1 && WeekdayOf(day) in w.days && s == Instant(day, w.start)
        && Instant(DayOf(now), MinuteOf(now)) < s;
      EarliestStartIsLeast(ws, now, day - DayOf(now), w);
    }
  }

  method FindNextSuspensionStart(ws: seq<Window>, now: Time) returns (next: Option<Time>)
    ensures next == NextSuspensionStart(ws, now)
    ensures next.Some? ==> exists w :: w in ws && UpcomingStart(w, now, next.value)
    ensures forall w, s :: w in ws && UpcomingStart(w, now, s) ==> next.Some? && next.value <= s
  {
    NextStartTells(ws, now);
    next := None;
    for ahead := 0 to 2
      invariant next == if ahead == 0 then None
        else if ahead == 1 then EarliestStart(ws, now, 0) else NextSuspensionStart(ws, now)
    {
      ghost var before := next;
      for i := 0 to |ws|
        invariant next == EarlierTime(before, EarliestStart(ws[..i], now, ahead))
      {
        assert ws[..i + 1][..i] == ws[..i];
        EarlierAssociates(before, EarliestStart(ws[..i], now, ahead), StartWithin(ws[i], now, ahead));
        if WeekdayOf(DayOf(now) + ahead) !in ws[i].days {
          continue;
        }
        var start := Instant(DayOf(now) + ahead, ws[i].start);
        if ahead == 0 && ws[i].start <= MinuteOf(now) {
          continue;
        }
        if next.None? || start < next.value {
          next := Some(start);
        }
      }
      assert ws[..|ws|] == ws;
    }
  }

  /** The end of the first window that holds `t`. */
  function SuspensionEnd(ws: seq<Window>, t: Time): Option<Time> {
    if ws == [] then None
    else if InWindow(ws[0], t) then
      Some(Instant(DayOf(t) + (if Overnight(ws[0]) && MinuteOf(t) >= ws[0].start then 1 else 0), ws[0].end))
    else SuspensionEnd(ws[1..], t)
  }

  ghost predicate FirstToHold(ws: seq<Window>, t: Time, i: nat)
    requires i < |ws|
  {
    InWindow(ws[i], t) && forall j :: 0 <= j < i ==> !InWindow(ws[j], t)
  }

  /** Held by `w` at `t`, the end is today's or, late in an overnight window, tomorrow's. */
  predicate EndsAt(w: Window, t: Time, end: Time) {
    end == Instant(if w.end <= w.start <= MinuteOf(t) then DayOf(t) + 1 else DayOf(t), w.end)
  }

  method FindSuspensionEnd(ws: seq<Window>, t: Time) returns (end: Option<Time>)
    ensures end == SuspensionEnd(ws, t)
    ensures end.None? <==> !InAny(ws, t)
    ensures end.Some? ==> exists i :: 0 <= i < |ws| && FirstToHold(ws, t, i) && EndsAt(ws[i], t, end.value)
  {
    for i := 0 to |ws|
      invariant SuspensionEnd(ws[i..], t) == SuspensionEnd(ws, t)
      invariant forall j :: 0 <= j < i ==> !InWindow(ws[j], t)
    {
      var w := ws[i];
      assert ws[i..][0] == w && ws[i..][1..] == ws[i + 1..];
      if !InWindow(w, t) {
        continue;
      }
      var day := DayOf(t);
      if w.end <= w.start && MinuteOf(t) >= w.start {
        day := day + 1;
      }
      assert FirstToHold(ws, t, i) && EndsAt(ws[i], t, Instant(day, w.end));
      return Some(Instant(day, w.end));
    }
    return None;
  }

  function ApplySuspend(
    base: EvaluationResult, ws: seq<Window>, leadTime: int, now: Time, buffer: int): EvaluationResult
  {
    if ws == [] then base
    else
      var inside := InAny(ws, now);
      var grace := !inside && buffer > 0 && exists w :: w in ws && InEndGrace(w, now, buffer);
      var lead := leadTime > 0 && exists w :: w in ws && InLeadTime(w, now, leadTime);
      var start := NextSuspensionStart(ws, now);
      var wakesBefore := start.Some? && base.nextWakeUp.Some? && base.nextWakeUp.value <= start.value;
      var shouldHibernate :=
        if inside || grace then false
        else if lead && base.shouldHibernate && !wakesBefore then false
        else base.shouldHibernate;
      var end := SuspensionEnd(ws, now);
      var next1 :=
        if (inside || lead || grace) && end.Some? && end.value > now
           && (base.nextHibernate.None? || end.value < base.nextHibernate.value)
        then end else base.nextHibernate;
      var next2 :=
        if !shouldHibernate && next1.Some? && InAny(ws, next1.value) && SuspensionEnd(ws, next1.value).Some?
        then SuspensionEnd(ws, next1.value) else next1;
      var nextWakeUp :=
        if shouldHibernate && start.Some? then EarlierTime(base.nextWakeUp, start) else base.nextWakeUp;
      EvaluationResult(shouldHibernate, next2, nextWakeUp, grace, base.gracePeriodEnd)
  }

  // ----- Exceptions

  predicate Active(e: Exception, now: Time) {
    e.validFrom <= now <= e.validUntil
  }

  function FilterActive(es: seq<Option<Exception>>, now: Time): seq<Exception> {
    if es == [] then []
    else
      var n := |es| - 1;
      FilterActive(es[..n], now) + if es[n].Some? && Active(es[n].value, now) then [es[n].value] else []
  }

  function OfKind(es: seq<Exception>, kind: ExceptionType): seq<Exception> {
    if es == [] then []
    else
      var n := |es| - 1;
      OfKind(es[..n], kind) + if es[n].kind == kind then [es[n]] else []
  }

  /** Windows concatenated, validity widened, the longest lead time. */
  function Absorb(m: Exception, e: Exception): Exception {
    m.(validFrom := Min(e.validFrom, m.validFrom),
       validUntil := if e.validUntil > m.validUntil then e.validUntil else m.validUntil,
       windows := m.windows + e.windows,
       leadTime := if e.leadTime > m.leadTime then e.leadTime else m.leadTime)
  }

  function AbsorbAll(kind: ExceptionType, es: seq<Exception>): Exception
    requires es != []
  {
    if |es| == 1 then Absorb(Exception(kind, es[0].validFrom, es[0].validUntil, 0, []), es[0])
    else Absorb(AbsorbAll(kind, es[..|es| - 1]), es[|es| - 1])
  }

  function Merged(es: seq<Exception>, kind: ExceptionType): Option<Exception> {
    var matches := OfKind(es, kind);
    if |matches| == 0 then None
    else if |matches| == 1 then Some(matches[0])
    else Some(AbsorbAll(kind, matches))
  }

  method MergeByType(es: seq<Exception>, kind: ExceptionType) returns (r: Option<Exception>)
    ensures r == Merged(es, kind)
  {
    var matches: seq<Exception> := [];
    for i := 0 to |es|
      invariant matches == OfKind(es[..i], kind)
    {
      assert es[..i + 1][..i] == es[..i];
      if es[i].kind == kind {
        matches := matches + [es[i]];
      }
    }
    assert es[..|es|] == es;
    if |matches| == 0 { return None; }
    if |matches| == 1 { return Some(matches[0]); }
    var merged := Exception(kind, matches[0].validFrom, matches[0].validUntil, 0, []);
    for i := 0 to |matches|
      invariant merged == if i == 0 then Exception(kind, matches[0].validFrom, matches[0].validUntil, 0, [])
        else AbsorbAll(kind, matches[..i])
    {
      assert matches[..i + 1][..i] == matches[..i];
      merged := Absorb(merged, matches[i]);
    }
    assert matches[..|matches|] == matches;
    return Some(merged);
  }

  /** The pipeline: base or replacement, then extend, then suspend. */
  ghost function Evaluation(base: seq<Window>, es: seq<Exception>, now: Time, buffer: int): Option<EvaluationResult> {
    var rep, ext, sus := Merged(es, Replace), Merged(es, Extend), Merged(es, Suspend);
    var baseWindows := if rep.Some? then rep.value.windows else base;
    if !AllValid(baseWindows) || (ext.Some? && !AllValid(ext.value.windows)) then None
    else
      var r1 := EvalAll(baseWindows, now, buffer);
      var r2 := if ext.Some? then ApplyExtend(r1, ext.value.windows, EvalAll(ext.value.windows, now, buffer)) else r1;
      Some(if sus.Some? then ApplySuspend(r2, sus.value.windows, sus.value.leadTime, now, buffer) else r2)
  }

  method FilterActiveLoop(es: seq<Option<Exception>>, now: Time) returns (active: seq<Exception>)
    ensures active == FilterActive(es, now)
  {
    active := [];
    for i := 0 to |es|
      invariant active == FilterActive(es[..i], now)
    {
      assert es[..i + 1][..i] == es[..i];
      if es[i].Some? && Active(es[i].value, now) {
        active := active + [es[i].value];
      }
    }
    assert es[..|es|] == es;
  }

  method Evaluate(
    base: seq<Window>, es: seq<Option<Exception>>, now: Time, buffer: int)
    returns (r: Option<EvaluationResult>)
    ensures r == Evaluation(base, FilterActive(es, now), now, buffer)
  {
    var active := FilterActiveLoop(es, now);
    var rep := MergeByType(active, Replace);
    var ext := MergeByType(active, Extend);
    var sus := MergeByType(active, Suspend);
    r := EvaluateWindows(if rep.Some? then rep.value.windows else base, now, buffer);
    if r.None? { return; }
    if ext.Some? {
      var x := EvaluateWindows(ext.value.windows, now, buffer);
      if x.None? { return None; }
      r := Some(ApplyExtend(r.value, ext.value.windows, x.value));
    }
    if sus.Some? {
      r := Some(ApplySuspend(r.value, sus.value.windows, sus.value.leadTime, now, buffer));
    }
  }

  // ----- What a list of windows means

  ghost predicate CoveredBy(ws: seq<Window>, t: Time) {
    exists w :: w in ws && Covers(w, t)
  }

  /** `n` is the earliest next firing, over the windows, of the rule `rule` picks. */
  ghost predicate IsEarliest(n: Option<Time>, ws: seq<Window>, rule: Window -> Rule, t: Time) {
    && (n.None? <==> ws == [])
    && (n.Some? ==> exists w :: w in ws && n.value == Next(rule(w), t))
    && (n.Some? ==> forall w :: w in ws ==> n.value <= Next(rule(w), t))
  }

  lemma {:induction false} EarliestStep(n: Option<Time>, ws: seq<Window>, w: Window, rule: Window -> Rule, t: Time)
    requires IsEarliest(n, ws, rule, t)
    ensures IsEarliest(EarlierTime(n, Some(Next(rule(w), t))), ws + [w], rule, t)
  {
    assert w in ws + [w];
  }

  /** With no buffer a list of windows means their union, and the next events are the earliest ones. */
  lemma {:induction false} EvalAllMeaning(ws: seq<Window>, t: Time)
    requires AllValid(ws)
    ensures EvalAll(ws, t, 0).shouldHibernate <==> CoveredBy(ws, t)
    ensures IsEarliest(EvalAll(ws, t, 0).nextHibernate, ws, StartRule, t)
    ensures IsEarliest(EvalAll(ws, t, 0).nextWakeUp, ws, EndRule, t)
  {
    if ws != [] {
      var n := |ws| - 1;
      var front, w := ws[..n], ws[n];
      assert ws == front + [w] && w in ws;
      EvalAllMeaning(front, t);
      EvalAllStep(front, w, t, 0);
      EvalClosedForm(w, t);
      EarliestStep(EvalAll(front, t, 0).nextHibernate, front, w, StartRule, t);
      EarliestStep(EvalAll(front, t, 0).nextWakeUp, front, w, EndRule, t);
    }
  }
}
