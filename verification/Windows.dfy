/**
 Off-hour windows: the minute-of-day membership test, the cron form, and their agreement.

 `Eval` decides by comparing the last firings of the start rule and the end rule, with a grace
 period after each boundary when the schedule buffer is positive. `InWindow` is the direct test
 that the suspend, extend and collision code uses.
 */
module Windows {
  import opened Wrappers
  import opened Calendar

  datatype Window = Window(start: Minute, end: Minute, days: set<Weekday>)

  /** What turning a window into cron rules demands: a day, and two different boundaries. */
  predicate Valid(w: Window) {
    w.days != {} && w.start != w.end
  }

  predicate Overnight(w: Window) {
    w.end <= w.start
  }

  function StartRule(w: Window): Rule {
    Rule(w.start, w.days)
  }

  function EndRule(w: Window): Rule {
    Rule(w.end, w.days)
  }

  predicate ContainsMinute(w: Window, m: int) {
    if Overnight(w) then m >= w.start || m < w.end else w.start <= m < w.end
  }

  predicate Listed(w: Window, t: Time) {
    WeekdayOf(DayOf(t)) in w.days
  }

  /** Today is listed and the minute of day is inside. */
  predicate InWindow(w: Window, t: Time) {
    Listed(w, t) && ContainsMinute(w, MinuteOf(t))
  }

  predicate InAny(ws: seq<Window>, t: Time) {
    exists w :: w in ws && InWindow(w, t)
  }

  /** The loop of the membership test. */
  method IsInTimeWindows(ws: seq<Window>, t: Time) returns (r: bool)
    ensures r <==> InAny(ws, t)
  {
    for i := 0 to |ws|
      invariant forall j :: 0 <= j < i ==> !InWindow(ws[j], t)
    {
      if !Listed(ws[i], t) {
        continue;
      }
      var m := MinuteOf(t);
      if ws[i].end > ws[i].start {
        if m >= ws[i].start && m < ws[i].end {
          assert InWindow(ws[i], t);
          return true;
        }
      } else {
        if m >= ws[i].start || m < ws[i].end {
          assert InWindow(ws[i], t);
          return true;
        }
      }
    }
    return false;
  }

  // ----- Grace periods

  /** The latest day not after today that falls on `d`. */
  function MostRecentWeekday(t: Time, d: Weekday): int {
    DayOf(t) - (WeekdayOf(DayOf(t)) - d + 7) % 7
  }

  predicate InStartGrace(w: Window, t: Time, grace: int) {
    exists d :: d in w.days &&
      Instant(MostRecentWeekday(t, d), w.start) <= t <= Instant(MostRecentWeekday(t, d), w.start) + grace
  }

  predicate InEndGrace(w: Window, t: Time, grace: int) {
    exists d :: d in w.days && WeekdayOf(DayOf(t)) == d &&
      Instant(MostRecentWeekday(t, d), w.end) <= t <= Instant(MostRecentWeekday(t, d), w.end) + grace
  }

  // ----- Evaluation of one window

  datatype EvaluationResult = EvaluationResult(
    shouldHibernate: bool,
    nextHibernate: Option<Time>,
    nextWakeUp: Option<Time>,
    inGracePeriod: bool,
    gracePeriodEnd: Option<Time>)

  function Min(a: Time, b: Time): Time {
    if a < b then a else b
  }

  /** The decision, given the last and next firings of the two rules. */
  function Decide(
    w: Window, now: Time, buffer: int,
    lastHibernate: Time, lastWakeUp: Time, nextHibernate: Time, nextWakeUp: Time): EvaluationResult
  {
    var raw := lastHibernate > lastWakeUp;
    var continuous := lastWakeUp + buffer >= lastHibernate;
    if buffer > 0 && raw && !continuous && InStartGrace(w, now, buffer) then
      EvaluationResult(false, Some(Min(lastHibernate + buffer, nextHibernate)), Some(nextWakeUp),
        true, Some(lastHibernate + buffer))
    else if buffer > 0 && !raw && InEndGrace(w, now, buffer) then
      EvaluationResult(true, Some(nextHibernate), Some(Min(lastWakeUp + buffer, nextWakeUp)),
        true, Some(lastWakeUp + buffer))
    else
      EvaluationResult(raw, Some(nextHibernate), Some(nextWakeUp), false, None)
  }

  function Eval(w: Window, now: Time, buffer: int): EvaluationResult {
    Decide(w, now, buffer,
      Last(StartRule(w), now), Last(EndRule(w), now), Next(StartRule(w), now), Next(EndRule(w), now))
  }

  /** Evaluation with the search for the last firings carried out. */
  method EvalWindow(w: Window, now: Time, buffer: int) returns (r: EvaluationResult)
    requires Valid(w)
    ensures r == Eval(w, now, buffer)
  {
    var h := FindLastOccurrence(StartRule(w), now);
    var e := FindLastOccurrence(EndRule(w), now);
    r := Decide(w, now, buffer, h.value, e.value, Next(StartRule(w), now), Next(EndRule(w), now));
  }

  // ----- The closed form

  /** Hibernated on a listed day inside the window, and on an unlisted day iff it is overnight. */
  predicate Covers(w: Window, t: Time) {
    if Listed(w, t) then ContainsMinute(w, MinuteOf(t)) else Overnight(w)
  }

  /** The day on which a rule's last firing up to `t` falls. */
  function LastDay(w: Window, minute: Minute, t: Time): int {
    DayBack(w.days, if minute <= MinuteOf(t) then DayOf(t) else DayOf(t) - 1, 6)
  }

  lemma {:induction false} InstantOrder(d: int, m: Minute, d': int, m': Minute)
    ensures Instant(d, m) < Instant(d', m') <==> d < d' || (d == d' && m < m')
  {
  }

  lemma {:induction false} DayBackBelow(days: set<Weekday>, day: int)
    requires days != {} && WeekdayOf(day) !in days
    ensures DayBack(days, day, 6) == DayBack(days, day - 1, 6)
  {
    WithinAWeek(days, day);
    WithinAWeek(days, day - 1);
    var a, b := DayBack(days, day, 6), DayBack(days, day - 1, 6);
    assert a < day && !(a < b) && !(b < a);
  }

  /** Comparing last firings decides exactly `Covers`. */
  lemma {:induction false} RawClosedForm(w: Window, t: Time)
    requires Valid(w)
    ensures Last(StartRule(w), t) > Last(EndRule(w), t) <==> Covers(w, t)
    ensures Last(StartRule(w), t) != Last(EndRule(w), t)
  {
    var s, e := LastDay(w, w.start, t), LastDay(w, w.end, t);
    InstantOrder(s, w.start, e, w.end);
    InstantOrder(e, w.end, s, w.start);
    if !Listed(w, t) {
      DayBackBelow(w.days, DayOf(t));
    }
  }

  /** With no buffer, evaluation is the closed form; on a listed day that is the membership test. */
  lemma {:induction false} EvalClosedForm(w: Window, t: Time)
    requires Valid(w)
    ensures Eval(w, t, 0).shouldHibernate <==> Covers(w, t)
    ensures Listed(w, t) ==> (Eval(w, t, 0).shouldHibernate <==> InWindow(w, t))
    ensures !Listed(w, t) ==> (Eval(w, t, 0).shouldHibernate <==> Overnight(w))
  {
    RawClosedForm(w, t);
  }

  // ----- How the state of one window moves

  /** Between firings of its start rule and of its end rule a window keeps its state. */
  lemma {:induction false} SteadyWithoutFirings(w: Window, t: Time, u: Time)
    requires Valid(w) && t <= u
    requires u < Next(StartRule(w), t) || Covers(w, t)
    requires u < Next(EndRule(w), t) || !Covers(w, t)
    ensures Covers(w, u) == Covers(w, t)
  {
    var h, e := StartRule(w), EndRule(w);
    RawClosedForm(w, t);
    RawClosedForm(w, u);
    LastIsGreatest(h, t);
    LastIsGreatest(h, u);
    LastIsGreatest(e, t);
    LastIsGreatest(e, u);
    NextIsLeast(h, t);
    NextIsLeast(e, t);
    if Last(h, u) > t { assert Next(h, t) <= Last(h, u); }
    if Last(e, u) > t { assert Next(e, t) <= Last(e, u); }
  }

  /** At a firing of the start rule a window is on, at one of the end rule off. */
  lemma {:induction false} StateAtFirings(w: Window, f: Time)
    requires Valid(w)
    ensures Fires(StartRule(w), f) ==> Covers(w, f)
    ensures Fires(EndRule(w), f) ==> !Covers(w, f)
  {
    RawClosedForm(w, f);
    LastIsGreatest(StartRule(w), f);
    LastIsGreatest(EndRule(w), f);
  }

  /** The time at which a window in its current state changes next. */
  function NextChange(w: Window, t: Time): Time {
    if Covers(w, t) then Next(EndRule(w), t) else Next(StartRule(w), t)
  }

  /** The state holds up to that time and flips exactly there. */
  lemma {:induction false} ChangesNext(w: Window, t: Time)
    requires Valid(w)
    ensures t < NextChange(w, t)
    ensures forall u :: t <= u < NextChange(w, t) ==> Covers(w, u) == Covers(w, t)
    ensures Covers(w, NextChange(w, t)) != Covers(w, t)
  {
    NextIsLeast(StartRule(w), t);
    NextIsLeast(EndRule(w), t);
    StateAtFirings(w, NextChange(w, t));
    forall u | t <= u < NextChange(w, t)
      ensures Covers(w, u) == Covers(w, t)
    {
      SteadyWithoutFirings(w, t, u);
    }
  }
}
