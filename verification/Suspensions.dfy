/**
 Next-event times under suspend exceptions.

 The search for the next suspension looks at today and tomorrow only, and only for window starts;
 the search for the end of a suspension takes an overnight window to last until its end on the
 following day. This file proves exactly when that is enough: an awake schedule can miss its
 hibernation exactly when a suspension breaks off before that end, and a hibernated one misses a
 wake-up exactly when a suspension opens where the search does not look.
 */
module Suspensions {
  import opened Wrappers
  import opened Calendar
  import opened Windows
  import opened Schedule
  import opened ScheduleMeaning

  // ----- How long a suspension lasts

  function EndFrom(w: Window, t: Time): Time {
    Instant(DayOf(t) + (if Overnight(w) && MinuteOf(t) >= w.start then 1 else 0), w.end)
  }

  lemma {:induction false} DayOrder(t: Time, u: Time)
    requires t <= u
    ensures DayOf(t) <= DayOf(u)
    ensures DayOf(t) == DayOf(u) ==> MinuteOf(t) <= MinuteOf(u)
  {
    InstantReached(DayOf(t), MinuteOf(t), t);
    InstantReached(DayOf(t), MinuteOf(t), u);
  }

  /** The end of the window that holds `t` is still to come. */
  lemma {:induction false} EndIsAhead(w: Window, t: Time)
    requires InWindow(w, t)
    ensures t < EndFrom(w, t)
  {
    InstantReached(DayOf(t), w.end, t);
    InstantReached(DayOf(t) + 1, w.end, t);
  }

  lemma {:induction false} HoldingWindow(ws: seq<Window>, t: Time) returns (w: Window)
    requires InAny(ws, t)
    ensures w in ws && InWindow(w, t) && SuspensionEnd(ws, t) == Some(EndFrom(w, t))
    ensures t < EndFrom(w, t)
  {
    if InWindow(ws[0], t) {
      w := ws[0];
      EndIsAhead(w, t);
    } else {
      w := HoldingWindow(ws[1..], t);
    }
  }

  /** If a suspension holds `t` and is taken to last beyond `u`, it holds `u`. */
  predicate StillHeld(ws: seq<Window>, t: Time, u: Time) {
    InAny(ws, t) && SuspensionEnd(ws, t).Some? && t <= u < SuspensionEnd(ws, t).value ==> InAny(ws, u)
  }

  /**
   No suspension breaks off before the end it is taken to have. This is about the windows alone,
   and it looks at the minutes of one week only.
   */
  predicate HeldToEnd(ws: seq<Window>) {
    forall d, m, d', m' | 0 <= d < 7 && 0 <= m < 1440 && d <= d' <= d + 1 && 0 <= m' < 1440 ::
      StillHeld(ws, Instant(d, m), Instant(d', m'))
  }

  /** Membership depends on the weekday and the minute only. */
  lemma {:induction false} SameWeekdaySameWindows(ws: seq<Window>, t: Time, u: Time)
    requires WeekdayOf(DayOf(t)) == WeekdayOf(DayOf(u)) && MinuteOf(t) == MinuteOf(u)
    ensures InAny(ws, t) <==> InAny(ws, u)
  {
    assert forall w :: w in ws ==> (InWindow(w, t) <==> InWindow(w, u));
  }

  /** So does the window whose end counts. */
  lemma {:induction false} SameWeekdaySameEnd(ws: seq<Window>, t: Time, u: Time)
    requires WeekdayOf(DayOf(t)) == WeekdayOf(DayOf(u)) && MinuteOf(t) == MinuteOf(u)
    ensures SuspensionEnd(ws, t).Some? <==> SuspensionEnd(ws, u).Some?
    ensures SuspensionEnd(ws, t).Some? ==>
      SuspensionEnd(ws, t).value - Instant(DayOf(t), 0) == SuspensionEnd(ws, u).value - Instant(DayOf(u), 0)
  {
    if ws != [] {
      SameWeekdaySameEnd(ws[1..], t, u);
    }
  }

  /** The start of the minute that holds `t`, moved to the first week. */
  function FirstWeek(t: Time, day: int): Time {
    Instant(DayOf(t) - day + day % 7, MinuteOf(t))
  }

  lemma {:induction false} FirstWeekParts(t: Time, day: int)
    ensures DayOf(FirstWeek(t, day)) == DayOf(t) - day + day % 7
    ensures MinuteOf(FirstWeek(t, day)) == MinuteOf(t)
    ensures WeekdayOf(DayOf(FirstWeek(t, day))) == WeekdayOf(DayOf(t))
  {
    InstantParts(DayOf(t) - day + day % 7, MinuteOf(t));
    WholeWeeks(DayOf(t), day / 7);
    assert day == 7 * (day / 7) + day % 7;
  }

  /** One week of minutes decides all times. */
  lemma {:induction false} HeldAtAllTimes(ws: seq<Window>, t: Time, u: Time)
    requires HeldToEnd(ws)
    ensures StillHeld(ws, t, u)
  {
    if InAny(ws, t) && SuspensionEnd(ws, t).Some? && t <= u < SuspensionEnd(ws, t).value {
      var day := DayOf(t);
      var w := HoldingWindow(ws, t);
      DayOrder(t, u);
      InstantReached(day, w.end, u);
      InstantReached(day + 1, w.end, u);
      FirstWeekParts(t, day);
      FirstWeekParts(u, day);
      var t', u' := FirstWeek(t, day), FirstWeek(u, day);
      SameWeekdaySameWindows(ws, t, t');
      SameWeekdaySameWindows(ws, u, u');
      SameWeekdaySameEnd(ws, t, t');
      assert t' <= u' by { InstantReached(DayOf(t'), MinuteOf(t'), u'); }
      assert u' < SuspensionEnd(ws, t').value by { InstantReached(DayOf(u'), MinuteOf(u'), u); }
      assert StillHeld(ws, t', u');
    }
  }

  /** The suspension that holds `t` ends later, and holds everything before that. */
  lemma {:induction false} SuspendedUntilEnd(ws: seq<Window>, t: Time)
    requires HeldToEnd(ws) && InAny(ws, t)
    ensures SuspensionEnd(ws, t).Some? && t < SuspensionEnd(ws, t).value
    ensures forall u :: t <= u < SuspensionEnd(ws, t).value ==> InAny(ws, u)
  {
    var w := HoldingWindow(ws, t);
    forall u | t <= u < SuspensionEnd(ws, t).value
      ensures InAny(ws, u)
    {
      HeldAtAllTimes(ws, t, u);
    }
  }

  // ----- Awake

  /** The result of the stages before suspend, at `t`. */
  ghost function Unsuspended(base: seq<Window>, es: seq<Exception>, t: Time): Option<EvaluationResult> {
    Evaluation(base, WithoutSuspends(es), t, 0)
  }

  /** A suspend exception is active, without lead time. */
  ghost predicate PlainSuspend(es: seq<Exception>) {
    Merged(es, Suspend).Some? && Merged(es, Suspend).value.leadTime <= 0
  }

  ghost function SuspendWindows(es: seq<Exception>): seq<Window>
    requires Merged(es, Suspend).Some?
  {
    Merged(es, Suspend).value.windows
  }

  /** With no buffer and no lead time, suspend subtracts its windows from what came before. */
  lemma {:induction false} SuspendSubtracts(base: seq<Window>, es: seq<Exception>, t: Time)
    requires PlainSuspend(es)
    ensures Evaluation(base, es, t, 0).Some? <==> Unsuspended(base, es, t).Some?
    ensures Evaluation(base, es, t, 0).Some? ==>
      && Evaluation(base, es, t, 0).value ==
           ApplySuspend(Unsuspended(base, es, t).value, SuspendWindows(es), Merged(es, Suspend).value.leadTime, t, 0)
      && (Evaluation(base, es, t, 0).value.shouldHibernate <==>
            Unsuspended(base, es, t).value.shouldHibernate && !InAny(SuspendWindows(es), t))
  {
    StagesBeforeSuspend(base, es, t, 0);
  }

  /** What the suspend stage announces to an awake schedule. */
  lemma {:induction false} AwakeAnnouncement(r: EvaluationResult, ws: seq<Window>, leadTime: int, now: Time, t: Time)
    requires HeldToEnd(ws) && leadTime <= 0 && now <= t
    requires !ApplySuspend(r, ws, leadTime, now, 0).shouldHibernate
    requires
      var n := ApplySuspend(r, ws, leadTime, now, 0).nextHibernate;
      n.None? || t < n.value
    ensures InAny(ws, t) || (!r.shouldHibernate && (r.nextHibernate.None? || t < r.nextHibernate.value))
  {
    var n := ApplySuspend(r, ws, leadTime, now, 0).nextHibernate;
    if InAny(ws, now) {
      SuspendedUntilEnd(ws, now);
    }
    if r.nextHibernate.Some? && InAny(ws, r.nextHibernate.value) {
      SuspendedUntilEnd(ws, r.nextHibernate.value);
    }
    var end := SuspensionEnd(ws, now);
    if end.Some? && InAny(ws, end.value) {
      SuspendedUntilEnd(ws, end.value);
    }
  }

  /** Awake now, hibernated at `t`, and the hibernation announced for later than that, if at all. */
  ghost predicate Missed(base: seq<Window>, es: seq<Exception>, now: Time, t: Time) {
    var r, r' := Evaluation(base, es, now, 0), Evaluation(base, es, t, 0);
    && now <= t && r.Some? && r'.Some? && !r.value.shouldHibernate && r'.value.shouldHibernate
    && (r.value.nextHibernate.None? || t < r.value.nextHibernate.value)
  }

  /** An awake schedule stays awake up to the announced hibernation, suspensions included. */
  lemma {:induction false} AwakeMissesNothing(base: seq<Window>, es: seq<Exception>, now: Time, t: Time)
    requires PlainSuspend(es) && HeldToEnd(SuspendWindows(es))
    ensures !Missed(base, es, now, t)
  {
    if Missed(base, es, now, t) {
      SuspendSubtracts(base, es, now);
      SuspendSubtracts(base, es, t);
      WithoutSuspendsKeeps(es, Suspend);
      var r := Unsuspended(base, es, now).value;
      var next := if r.shouldHibernate then r.nextWakeUp else r.nextHibernate;
      NoMissedTransition(base, WithoutSuspends(es), now, next, t);
      AwakeAnnouncement(r, SuspendWindows(es), Merged(es, Suspend).value.leadTime, now, t);
    }
  }

  /** Only suspend exceptions are active. */
  ghost predicate OnlySuspends(es: seq<Exception>) {
    PlainSuspend(es) && Merged(es, Replace).None? && Merged(es, Extend).None?
  }

  /**
   Whatever suspend exceptions are active: some schedule misses a hibernation under them exactly
   when one of the suspensions breaks off before the end it is taken to have.
   */
  lemma {:induction false} AwakeMissesIffBreaksOff(es: seq<Exception>)
    requires OnlySuspends(es)
    ensures (exists base, now, t :: Missed(base, es, now, t)) <==> !HeldToEnd(SuspendWindows(es))
  {
    if HeldToEnd(SuspendWindows(es)) {
      forall base, now, t
        ensures !Missed(base, es, now, t)
      {
        AwakeMissesNothing(base, es, now, t);
      }
    } else {
      var ws := SuspendWindows(es);
      var d, m, d', m' :| 0 <= d < 7 && 0 <= m < 1440 && d <= d' <= d + 1 && 0 <= m' < 1440
        && !StillHeld(ws, Instant(d, m), Instant(d', m'));
      var base := BrokenOffSuspension(es, d, m, d', m');
    }
  }

  /** The schedule that hibernates all through `day` and the next days, from a start the day before. */
  function Throughout(day: int): Window {
    Window(1, 0, {WeekdayOf(day - 1)})
  }

  lemma {:induction false} ThroughoutResult(day: int, t: Time)
    requires day <= DayOf(t) <= day + 3
    ensures Valid(Throughout(day)) && EvalAll([Throughout(day)], t, 0).shouldHibernate
    ensures
      var r := EvalAll([Throughout(day)], t, 0);
      && r.nextHibernate.Some? && Instant(day + 4, 0) <= r.nextHibernate.value
      && r.nextWakeUp.Some? && Instant(day + 4, 0) <= r.nextWakeUp.value
  {
    var w := Throughout(day);
    assert !Listed(w, t);
    EvalClosedForm(w, t);
    NextOnOtherDay(StartRule(w), day, t);
    NextOnOtherDay(EndRule(w), day, t);
  }

  /** A rule for the weekday before `day` does not fire in the next days. */
  lemma {:induction false} NextOnOtherDay(r: Rule, day: int, t: Time)
    requires r.days == {WeekdayOf(day - 1)} && day <= DayOf(t) <= day + 3
    ensures Instant(day + 4, 0) <= Next(r, t)
  {
    NextIsLeast(r, t);
    var f := Next(r, t);
    InstantReached(DayOf(f), r.minute, t);
    SameWeekdayApart(day - 1, DayOf(f));
  }

  /** Inside a suspension the announcement is not before the end it is taken to have. */
  lemma {:induction false} AnnouncedAfterEnd(r: EvaluationResult, ws: seq<Window>, leadTime: int, now: Time)
    requires InAny(ws, now) && leadTime <= 0
    requires r.nextHibernate.Some? && Instant(DayOf(now) + 2, 0) <= r.nextHibernate.value
    ensures SuspensionEnd(ws, now).Some?
    ensures
      var n := ApplySuspend(r, ws, leadTime, now, 0).nextHibernate;
      n.Some? && SuspensionEnd(ws, now).value <= n.value
  {
    var w := HoldingWindow(ws, now);
    var end := EndFrom(w, now);
    assert end < Instant(DayOf(now) + 2, 0);
    if InAny(ws, end) {
      var v := HoldingWindow(ws, end);
    }
  }

  /** Where a suspension breaks off, a schedule that hibernates throughout is missed. */
  lemma {:induction false} BrokenOffSuspension(es: seq<Exception>, d: int, m: Minute, d': int, m': Minute)
    returns (base: seq<Window>)
    requires OnlySuspends(es) && d <= d' <= d + 1
    requires !StillHeld(SuspendWindows(es), Instant(d, m), Instant(d', m'))
    ensures Missed(base, es, Instant(d, m), Instant(d', m'))
  {
    base := [Throughout(d)];
    var now, t, ws := Instant(d, m), Instant(d', m'), SuspendWindows(es);
    InstantParts(d, m);
    InstantParts(d', m');
    ThroughoutResult(d, now);
    ThroughoutResult(d, t);
    UnsuspendedAlone(base, es, now);
    UnsuspendedAlone(base, es, t);
    SuspendSubtracts(base, es, now);
    SuspendSubtracts(base, es, t);
    AnnouncedAfterEnd(EvalAll(base, now, 0), ws, Merged(es, Suspend).value.leadTime, now);
  }

  lemma {:induction false} UnsuspendedAlone(base: seq<Window>, es: seq<Exception>, t: Time)
    requires AllValid(base) && OnlySuspends(es)
    ensures Unsuspended(base, es, t) == Some(EvalAll(base, t, 0))
  {
    StagesBeforeSuspend(base, es, t, 0);
  }

  // ----- A single suspend window

  /** An overnight window that leaves out a weekday breaks off at midnight, unless it ends there. */
  predicate Carries(w: Window) {
    Overnight(w) && w.end > 0 ==> forall d: Weekday :: d in w.days
  }

  /** Inside a window that carries over midnight: until its end. */
  lemma {:induction false} SpanUntilEnd(w: Window, t: Time, u: Time)
    requires Carries(w) && InWindow(w, t) && t <= u < EndFrom(w, t)
    ensures InWindow(w, u)
  {
    InstantReached(DayOf(t), w.end, u);
    InstantReached(DayOf(t) + 1, w.end, u);
    DayOrder(t, u);
    if DayOf(u) == DayOf(t) + 1 {
      assert WeekdayOf(DayOf(u)) in w.days;
    }
  }

  /** The last listed day of a window that leaves out a weekday. */
  lemma {:induction false} LastListedDay(days: set<Weekday>, missing: Weekday) returns (day: int)
    requires days != {} && missing !in days
    ensures WeekdayOf(day) in days && WeekdayOf(day + 1) !in days
  {
    var off := missing + 3;
    assert WeekdayOf(off) == missing;
    WithinAWeek(days, off);
    day := DayBack(days, off, 6);
    assert day < off && WeekdayOf(day + 1) !in days;
  }

  lemma {:induction false} CarryingStillHeld(ws: seq<Window>, t: Time, u: Time)
    requires forall w :: w in ws ==> Carries(w)
    ensures StillHeld(ws, t, u)
  {
    if InAny(ws, t) && SuspensionEnd(ws, t).Some? && t <= u < SuspensionEnd(ws, t).value {
      var w := HoldingWindow(ws, t);
      SpanUntilEnd(w, t, u);
    }
  }

  /** Windows that carry are held to the end, whatever stands beside them. */
  lemma {:induction false} CarryingIsHeld(ws: seq<Window>)
    requires forall w :: w in ws ==> Carries(w)
    ensures HeldToEnd(ws)
  {
    forall t, u
      ensures StillHeld(ws, t, u)
    {
      CarryingStillHeld(ws, t, u);
    }
  }

  /** A lone window is held to its end exactly when it carries. */
  lemma {:induction false} HeldIffCarries(w: Window)
    requires w.days != {}
    ensures HeldToEnd([w]) <==> Carries(w)
  {
    if Carries(w) {
      CarryingIsHeld([w]);
    } else if HeldToEnd([w]) {
      var missing: Weekday :| missing !in w.days;
      var day := LastListedDay(w.days, missing);
      var t, u := Instant(day, w.start), Instant(day + 1, 0);
      InstantParts(day, w.start);
      InstantParts(day + 1, 0);
      assert InWindow([w][0], t) && InAny([w], t) && !InAny([w], u);
      HeldAtAllTimes([w], t, u);
      assert false;
    }
  }

  /**
   One suspend window: some schedule misses a hibernation under it exactly when the window is
   overnight, ends after midnight and leaves out a weekday.
   */
  lemma {:induction false} AwakeMissesIffBrokenOff(es: seq<Exception>, w: Window)
    requires OnlySuspends(es) && SuspendWindows(es) == [w] && w.days != {}
    ensures (exists base, now, t :: Missed(base, es, now, t)) <==> !Carries(w)
  {
    AwakeMissesIffBreaksOff(es);
    HeldIffCarries(w);
  }

  // ----- Hibernated

  /**
   Before `next`, a suspension opens where the search does not look: at a window's start the day
   after tomorrow or later, or at midnight, in the early part of an overnight window.
   */
  ghost predicate OpensUnseen(ws: seq<Window>, now: Time, next: Time) {
    exists w, day :: w in ws && OpensUnseenOn(w, day, now, next)
  }

  ghost predicate OpensUnseenOn(w: Window, day: int, now: Time, next: Time) {
    && WeekdayOf(day) in w.days
    && ( || (DayOf(now) + 2 <= day && Instant(day, w.start) < next)
         || (Overnight(w) && w.end > 0 && DayOf(now) + 1 <= day && Instant(day, 0) < next))
  }

  /** Before the announced start, a suspension can only be met if it opens unseen. */
  lemma {:induction false} MetSuspensionOpensUnseen(ws: seq<Window>, now: Time, next: Time, t: Time)
    requires !InAny(ws, now) && now <= t < next && InAny(ws, t)
    requires NextSuspensionStart(ws, now).Some? ==> next <= NextSuspensionStart(ws, now).value
    ensures OpensUnseen(ws, now, next)
  {
    var w :| w in ws && InWindow(w, t);
    var day := DayOf(t);
    DayOrder(now, t);
    InstantReached(day, 0, t);
    InstantReached(day, w.start, t);
    if !OpensUnseenOn(w, day, now, next) {
      StartIsSeen(ws, now, w, day);
    }
  }

  lemma {:induction false} StartIsSeen(ws: seq<Window>, now: Time, w: Window, day: int)
    requires w in ws && WeekdayOf(day) in w.days
    requires day == DayOf(now) + 1 || (day == DayOf(now) && MinuteOf(now) < w.start)
    ensures NextSuspensionStart(ws, now).Some?
    ensures NextSuspensionStart(ws, now).value <= Instant(day, w.start)
  {
    assert StartWithin(w, now, day - DayOf(now)) == Some(Instant(day, w.start));
    EarliestStartIsLeast(ws, now, day - DayOf(now), w);
  }

  lemma {:induction false} UnseenOpeningIsMet(ws: seq<Window>, now: Time, next: Time) returns (t: Time)
    requires OpensUnseen(ws, now, next)
    ensures now <= t < next && InAny(ws, t)
  {
    var w, day :| w in ws && OpensUnseenOn(w, day, now, next);
    var m := if DayOf(now) + 2 <= day && Instant(day, w.start) < next then w.start else 0;
    t := Instant(day, m);
    InstantParts(day, m);
    InstantReached(day, m, now);
    assert InWindow(w, t);
  }

  /**
   A hibernated schedule stays hibernated up to the announced wake-up exactly when no suspension
   opens unseen before it.
   */
  lemma {:induction false} HibernatedMissesIffOpensUnseen(base: seq<Window>, es: seq<Exception>, now: Time)
    requires PlainSuspend(es) && Evaluation(base, es, now, 0).Some?
    requires Evaluation(base, es, now, 0).value.shouldHibernate
    ensures Evaluation(base, es, now, 0).value.nextWakeUp.Some?
    ensures
      var next := Evaluation(base, es, now, 0).value.nextWakeUp.value;
      (forall t :: now <= t < next ==>
        Evaluation(base, es, t, 0).Some? && Evaluation(base, es, t, 0).value.shouldHibernate)
      <==> !OpensUnseen(SuspendWindows(es), now, next)
  {
    var ws := SuspendWindows(es);
    SuspendSubtracts(base, es, now);
    HibernatedHasWakeUp(base, es, now);
    var r := Unsuspended(base, es, now).value;
    WakeUpAnnouncement(r, ws, Merged(es, Suspend).value.leadTime, now);
    var next := Evaluation(base, es, now, 0).value.nextWakeUp.value;
    forall t | now <= t < next
      ensures Evaluation(base, es, t, 0).Some? && (Evaluation(base, es, t, 0).value.shouldHibernate <==> !InAny(ws, t))
    {
      OnlySuspensionWakes(base, es, now, t);
    }
    UnseenIffMet(ws, now, next);
  }

  lemma {:induction false} UnseenIffMet(ws: seq<Window>, now: Time, next: Time)
    requires !InAny(ws, now)
    requires NextSuspensionStart(ws, now).Some? ==> next <= NextSuspensionStart(ws, now).value
    ensures OpensUnseen(ws, now, next) <==> exists t :: now <= t < next && InAny(ws, t)
  {
    if OpensUnseen(ws, now, next) {
      var t := UnseenOpeningIsMet(ws, now, next);
    }
    if t :| now <= t < next && InAny(ws, t) {
      MetSuspensionOpensUnseen(ws, now, next, t);
    }
  }

  /** The announced wake-up is the earlier of the one before suspension and the next suspension. */
  lemma {:induction false} WakeUpAnnouncement(r: EvaluationResult, ws: seq<Window>, leadTime: int, now: Time)
    requires leadTime <= 0 && ApplySuspend(r, ws, leadTime, now, 0).shouldHibernate && r.nextWakeUp.Some?
    ensures
      var s, next := NextSuspensionStart(ws, now), ApplySuspend(r, ws, leadTime, now, 0).nextWakeUp;
      next.Some? && next.value <= r.nextWakeUp.value && (s.Some? ==> next.value <= s.value)
  {
    assert ws == [] ==> NextSuspensionStart(ws, now) == None;
  }

  /** Up to the wake-up of the stages before suspend, only a suspension wakes. */
  lemma {:induction false} OnlySuspensionWakes(base: seq<Window>, es: seq<Exception>, now: Time, t: Time)
    requires PlainSuspend(es) && Unsuspended(base, es, now).Some? && Unsuspended(base, es, now).value.shouldHibernate
    requires now <= t
    requires
      var n := Unsuspended(base, es, now).value.nextWakeUp;
      n.Some? && t < n.value
    ensures Evaluation(base, es, t, 0).Some?
    ensures Evaluation(base, es, t, 0).value.shouldHibernate <==> !InAny(SuspendWindows(es), t)
  {
    WithoutSuspendsKeeps(es, Suspend);
    SuspendSubtracts(base, es, t);
    NoMissedTransition(base, WithoutSuspends(es), now, Unsuspended(base, es, now).value.nextWakeUp, t);
  }

  lemma {:induction false} HibernatedHasWakeUp(base: seq<Window>, es: seq<Exception>, now: Time)
    requires PlainSuspend(es) && Unsuspended(base, es, now).Some? && Unsuspended(base, es, now).value.shouldHibernate
    ensures Unsuspended(base, es, now).value.nextWakeUp.Some?
  {
    WithoutSuspendsKeeps(es, Suspend);
    var es' := WithoutSuspends(es);
    var rep, ext := Merged(es', Replace), Merged(es', Extend);
    var b, x := if rep.Some? then rep.value.windows else base, if ext.Some? then ext.value.windows else [];
    EvalAllMeaning(b, now);
    EvalAllMeaning(x, now);
    HibernatedCase(b, x, EvalAll(b, now, 0).nextWakeUp, EvalAll(x, now, 0).nextWakeUp, now, now);
  }
}
