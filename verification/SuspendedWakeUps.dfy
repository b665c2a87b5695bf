/**
 Wake-ups that a suspension brings about, and whether they are announced.

 A hibernated schedule announces the next suspension it finds, but it looks for window starts of
 today and tomorrow only. This file gives the condition on the suspend windows alone under which no
 wake-up is ever missed, and a schedule that misses one wherever the condition fails.
 */
module SuspendedWakeUps {
  import opened Wrappers
  import opened Calendar
  import opened Windows
  import opened Schedule
  import opened ScheduleMeaning
  import opened Suspensions

  /** If a suspension holds `u` but not `t` before it, one is found from `t` that starts by then. */
  predicate SeenAt(ws: seq<Window>, t: Time, u: Time) {
    !InAny(ws, t) && t < u && InAny(ws, u) ==>
      NextSuspensionStart(ws, t).Some? && NextSuspensionStart(ws, t).value <= u
  }

  /** Every suspension is found in time, as far as the minutes of one week and two days ahead tell. */
  predicate SeenInTime(ws: seq<Window>) {
    forall d, m, d', m' | 0 <= d < 7 && 0 <= m < 1440 && d <= d' <= d + 2 && 0 <= m' < 1440 ::
      SeenAt(ws, Instant(d, m), Instant(d', m'))
  }

  // ----- One week decides all times

  /** What is found depends on the weekday and the minute only. */
  lemma {:induction false} SameWeekdaySameStart(ws: seq<Window>, t: Time, u: Time, ahead: int)
    requires WeekdayOf(DayOf(t)) == WeekdayOf(DayOf(u)) && MinuteOf(t) == MinuteOf(u)
    ensures EarliestStart(ws, t, ahead).Some? <==> EarliestStart(ws, u, ahead).Some?
    ensures EarliestStart(ws, t, ahead).Some? ==>
      EarliestStart(ws, t, ahead).value - Instant(DayOf(t), 0) ==
        EarliestStart(ws, u, ahead).value - Instant(DayOf(u), 0)
  {
    if ws != [] {
      SameWeekdaySameStart(ws[..|ws| - 1], t, u, ahead);
      assert WeekdayOf(DayOf(t) + ahead) == WeekdayOf(DayOf(u) + ahead);
    }
  }

  lemma {:induction false} SameWeekdaySameNext(ws: seq<Window>, t: Time, u: Time)
    requires WeekdayOf(DayOf(t)) == WeekdayOf(DayOf(u)) && MinuteOf(t) == MinuteOf(u)
    ensures NextSuspensionStart(ws, t).Some? <==> NextSuspensionStart(ws, u).Some?
    ensures NextSuspensionStart(ws, t).Some? ==>
      NextSuspensionStart(ws, t).value - Instant(DayOf(t), 0) == NextSuspensionStart(ws, u).value - Instant(DayOf(u), 0)
  {
    SameWeekdaySameStart(ws, t, u, 0);
    SameWeekdaySameStart(ws, t, u, 1);
  }

  lemma {:induction false} SeenNearby(ws: seq<Window>, t: Time, u: Time)
    requires SeenInTime(ws) && DayOf(u) <= DayOf(t) + 2
    ensures SeenAt(ws, t, u)
  {
    if !InAny(ws, t) && t < u && InAny(ws, u) {
      var day := DayOf(t);
      var t', u' := FirstWeek(t, day), FirstWeek(u, day);
      DayOrder(t, u);
      FirstWeekParts(t, day);
      FirstWeekParts(u, day);
      SameWeekdaySameWindows(ws, t, t');
      SameWeekdaySameWindows(ws, u, u');
      if day == DayOf(u) && MinuteOf(t) == MinuteOf(u) {
        SameWeekdaySameWindows(ws, t, u);
      }
      assert t' < u' by { InstantReached(DayOf(u'), MinuteOf(u'), t'); }
      assert SeenAt(ws, t', u');
      SameWeekdaySameNext(ws, t, t');
      InstantReached(DayOf(u), MinuteOf(u), u);
    }
  }

  /** Found in the last minute of a day, it starts on the next day, and then holds. */
  lemma {:induction false} FoundFromLastMinute(ws: seq<Window>, day: int)
    requires NextSuspensionStart(ws, Instant(day, 1439)).Some?
    ensures
      var s := NextSuspensionStart(ws, Instant(day, 1439)).value;
      DayOf(s) == day + 1 && InAny(ws, s)
  {
    var t := Instant(day, 1439);
    InstantParts(day, 1439);
    if EarliestStart(ws, t, 0).Some? {
      var w := StartFound(ws, t, 0);
      assert false;
    }
    var w := StartFound(ws, t, 1);
    InstantParts(day + 1, w.start);
    assert InWindow(w, Instant(day + 1, w.start));
  }

  /** Further ahead, an earlier suspension is found in its stead. */
  lemma {:induction false} SeenAlways(ws: seq<Window>, t: Time, u: Time)
    requires SeenInTime(ws)
    ensures SeenAt(ws, t, u)
    decreases DayOf(u) - DayOf(t)
  {
    if DayOf(u) <= DayOf(t) + 2 {
      SeenNearby(ws, t, u);
    } else {
      var day := DayOf(u) - 2;
      var v := Instant(day, 1439);
      InstantParts(day, 1439);
      InstantReached(day, 1439, t);
      InstantReached(day, 1439, u);
      if InAny(ws, v) {
        SeenAlways(ws, t, v);
      } else if InAny(ws, u) {
        SeenNearby(ws, v, u);
        FoundFromLastMinute(ws, day);
        var s := NextSuspensionStart(ws, v).value;
        DayBefore(t, s);
        SeenAlways(ws, t, s);
      }
    }
  }

  lemma {:induction false} DayBefore(t: Time, u: Time)
    requires DayOf(t) < DayOf(u)
    ensures t < u
  {
  }

  // ----- Missed wake-ups

  /** Hibernated now, awake at `t`, and the wake-up announced for later than that, if at all. */
  ghost predicate WakeMissed(base: seq<Window>, es: seq<Exception>, now: Time, t: Time) {
    var r, r' := Evaluation(base, es, now, 0), Evaluation(base, es, t, 0);
    && now <= t && r.Some? && r'.Some? && r.value.shouldHibernate && !r'.value.shouldHibernate
    && (r.value.nextWakeUp.None? || t < r.value.nextWakeUp.value)
  }

  /** If every suspension is found in time, no wake-up is missed, whatever the schedule. */
  lemma {:induction false} HibernatedMissesNothing(base: seq<Window>, es: seq<Exception>, now: Time, t: Time)
    requires PlainSuspend(es) && SeenInTime(SuspendWindows(es))
    ensures !WakeMissed(base, es, now, t)
  {
    if WakeMissed(base, es, now, t) {
      var ws := SuspendWindows(es);
      SuspendSubtracts(base, es, now);
      HibernatedHasWakeUp(base, es, now);
      WakeUpAnnouncement(Unsuspended(base, es, now).value, ws, Merged(es, Suspend).value.leadTime, now);
      OnlySuspensionWakes(base, es, now, t);
      SeenAlways(ws, now, t);
    }
  }

  /**
   Whatever suspend exceptions are active: some schedule misses a wake-up under them exactly when
   one of their suspensions is not found in time.
   */
  lemma {:induction false} HibernatedMissesIffUnseen(es: seq<Exception>)
    requires OnlySuspends(es)
    ensures (exists base, now, t :: WakeMissed(base, es, now, t)) <==> !SeenInTime(SuspendWindows(es))
  {
    if SeenInTime(SuspendWindows(es)) {
      forall base, now, t
        ensures !WakeMissed(base, es, now, t)
      {
        HibernatedMissesNothing(base, es, now, t);
      }
    } else {
      var ws := SuspendWindows(es);
      var d, m, d', m' :| 0 <= d < 7 && 0 <= m < 1440 && d <= d' <= d + 2 && 0 <= m' < 1440
        && !SeenAt(ws, Instant(d, m), Instant(d', m'));
      UnseenSuspension(es, d, m, d', m');
    }
  }

  /** Where a suspension is not found in time, a schedule that hibernates throughout misses it. */
  lemma {:induction false} UnseenSuspension(es: seq<Exception>, d: int, m: Minute, d': int, m': Minute)
    requires OnlySuspends(es) && d <= d' <= d + 3
    requires !SeenAt(SuspendWindows(es), Instant(d, m), Instant(d', m'))
    ensures WakeMissed([Throughout(d)], es, Instant(d, m), Instant(d', m'))
  {
    var base, now, t, ws := [Throughout(d)], Instant(d, m), Instant(d', m'), SuspendWindows(es);
    InstantParts(d, m);
    InstantParts(d', m');
    ThroughoutResult(d, now);
    ThroughoutResult(d, t);
    UnsuspendedAlone(base, es, now);
    UnsuspendedAlone(base, es, t);
    SuspendSubtracts(base, es, now);
    SuspendSubtracts(base, es, t);
    AnnouncedNext(EvalAll(base, now, 0), ws, Merged(es, Suspend).value.leadTime, now);
  }

  /** What is announced is the earlier of the two, exactly. */
  lemma {:induction false} AnnouncedNext(r: EvaluationResult, ws: seq<Window>, leadTime: int, now: Time)
    requires leadTime <= 0 && r.shouldHibernate && !InAny(ws, now) && r.nextWakeUp.Some?
    ensures ApplySuspend(r, ws, leadTime, now, 0).nextWakeUp == EarlierTime(r.nextWakeUp, NextSuspensionStart(ws, now))
  {
    assert ws == [] ==> NextSuspensionStart(ws, now) == None;
  }

  lemma {:induction false} SingleException(e: Exception)
    requires e.kind == Suspend && e.leadTime <= 0
    ensures OnlySuspends([e]) && SuspendWindows([e]) == e.windows
  {
    forall kind
      ensures OfKind([e], kind) == if kind == Suspend then [e] else []
    {
      OfKindStep([], e, kind);
      assert [] + [e] == [e];
    }
  }

  /**
   An input that shows it: suspended on Mondays from 09:00 to 17:00, hibernated on the Friday before,
   the schedule announces a wake-up after that Monday although it is awake at 09:00.
   */
  lemma {:induction false} MondayIsMissedOnFriday()
    ensures
      var es := [Exception(Suspend, 0, Instant(7, 0), 0, [Window(540, 1020, {1})])];
      WakeMissed([Window(1, 0, {4})], es, Instant(1, 0), Instant(4, 540))
  {
    var w := Window(540, 1020, {1});
    var e := Exception(Suspend, 0, Instant(7, 0), 0, [w]);
    SingleException(e);
    InstantParts(1, 0);
    InstantParts(4, 540);
    assert InWindow([w][0], Instant(4, 540));
    assert !InWindow(w, Instant(1, 0));
    NothingNearby(w);
    UnseenSuspension([e], 1, 0, 4, 540);
    assert Throughout(1) == Window(1, 0, {4});
  }

  lemma {:induction false} NothingNearby(w: Window)
    requires w.days == {1}
    ensures NextSuspensionStart([w], Instant(1, 0)) == None
  {
    InstantParts(1, 0);
    assert [w][..0] == [] && EarliestStart([w][..0], Instant(1, 0), 0) == None;
    assert EarliestStart([w][..0], Instant(1, 0), 1) == None;
  }
}
