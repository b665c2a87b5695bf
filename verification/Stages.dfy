/**
 The stages of evaluation under every buffer and every lead time.

 Everything here is told by instants and by the evaluation of single windows; what a single window
 evaluates to under a buffer is the subject of module Buffers.
 */
module Stages {
  import opened Wrappers
  import opened Calendar
  import opened Windows
  import opened Buffers
  import opened Schedule
  import opened ScheduleMeaning

  // ----- Lists of windows

  /** `n` is the least of the times that `f` gives for the windows, and absent if it gives none. */
  ghost predicate LeastOf(n: Option<Time>, ws: seq<Window>, f: Window -> Option<Time>) {
    && (n.Some? ==> exists w :: w in ws && f(w) == n)
    && (forall w :: w in ws && f(w).Some? ==> n.Some? && n.value <= f(w).value)
  }

  /** The earlier of two times, an absent one giving way. */
  lemma {:induction false} EarlierTells(a: Option<Time>, b: Option<Time>)
    ensures
      var n := EarlierTime(a, b);
      && (n.None? <==> a.None? && b.None?)
      && (n == a || n == b)
      && (a.Some? ==> n.value <= a.value) && (b.Some? ==> n.value <= b.value)
  {
  }

  lemma {:induction false} LeastStep(n: Option<Time>, ws: seq<Window>, w: Window, f: Window -> Option<Time>)
    requires LeastOf(n, ws, f)
    ensures LeastOf(EarlierTime(n, f(w)), ws + [w], f)
  {
    EarlierTells(n, f(w));
    assert forall x :: x in ws + [w] <==> x in ws || x == w;
  }

  /**
   The result of a list, from the results of its windows: any window hibernates, the earliest events,
   any window in a grace period, and the earliest grace period to end.
   */
  ghost predicate ListMeans(r: EvaluationResult, ws: seq<Window>, f: Window -> EvaluationResult) {
    && (r.shouldHibernate <==> exists w :: w in ws && f(w).shouldHibernate)
    && LeastOf(r.nextHibernate, ws, w => f(w).nextHibernate)
    && LeastOf(r.nextWakeUp, ws, w => f(w).nextWakeUp)
    && (r.inGracePeriod <==> exists w :: w in ws && f(w).inGracePeriod)
    && LeastOf(r.gracePeriodEnd, ws, w => f(w).gracePeriodEnd)
    && (r.gracePeriodEnd.Some? <==> r.inGracePeriod)
  }

  lemma {:induction false} CombineMeans(
    r: EvaluationResult, ws: seq<Window>, w: Window, f: Window -> EvaluationResult)
    requires ListMeans(r, ws, f) && (f(w).gracePeriodEnd.Some? <==> f(w).inGracePeriod)
    ensures ListMeans(Combine(r, f(w)), ws + [w], f)
  {
    assert forall x :: x in ws + [w] <==> x in ws || x == w;
    LeastStep(r.nextHibernate, ws, w, x => f(x).nextHibernate);
    LeastStep(r.nextWakeUp, ws, w, x => f(x).nextWakeUp);
    LeastStep(r.gracePeriodEnd, ws, w, x => f(x).gracePeriodEnd);
  }

  /** A list of windows under any buffer. */
  lemma {:induction false} ListTells(ws: seq<Window>, t: Time, b: int)
    ensures ListMeans(EvalAll(ws, t, b), ws, w => Eval(w, t, b))
  {
    if ws != [] {
      var n := |ws| - 1;
      var front, w := ws[..n], ws[n];
      assert ws == front + [w];
      ListTells(front, t, b);
      EvalAllStep(front, w, t, b);
      GraceHasEnd(w, t, b);
      CombineMeans(EvalAll(front, t, b), front, w, x => Eval(x, t, b));
    }
  }

  lemma {:induction false} GraceHasEnd(w: Window, t: Time, b: int)
    ensures Eval(w, t, b).gracePeriodEnd.Some? <==> Eval(w, t, b).inGracePeriod
  {
  }

  // ----- Extend

  /** Extending unites: either side hibernates, the earlier hibernation, and a grace period of either side. */
  lemma {:induction false} ExtendTells(base: EvaluationResult, ws: seq<Window>, ext: EvaluationResult)
    ensures
      var r := ApplyExtend(base, ws, ext);
      && (r.shouldHibernate <==> base.shouldHibernate || ext.shouldHibernate)
      && r.nextHibernate == EarlierTime(base.nextHibernate, ext.nextHibernate)
      && (r.inGracePeriod <==> base.inGracePeriod || ext.inGracePeriod)
  {
  }

  /** A wake-up of the base inside an extend window gives way to the extend's own. */
  lemma {:induction false} ExtendWakeUp(base: EvaluationResult, ws: seq<Window>, ext: EvaluationResult)
    ensures
      var r := ApplyExtend(base, ws, ext);
      && (base.nextWakeUp.Some? && (exists w :: w in ws && InWindow(w, base.nextWakeUp.value)) ==>
            r.nextWakeUp == ext.nextWakeUp)
      && (base.nextWakeUp.None? ==> r.nextWakeUp == ext.nextWakeUp)
      && (base.nextWakeUp.Some? && !(exists w :: w in ws && InWindow(w, base.nextWakeUp.value)) ==>
            && r.nextWakeUp.Some? && r.nextWakeUp.value <= base.nextWakeUp.value
            && (ext.nextWakeUp.Some? ==> r.nextWakeUp.value <= ext.nextWakeUp.value)
            && (r.nextWakeUp == base.nextWakeUp || r.nextWakeUp == ext.nextWakeUp))
  {
  }

  /** The grace period that ends is that of the side in one, or the earlier of both. */
  lemma {:induction false} ExtendGrace(base: EvaluationResult, ws: seq<Window>, ext: EvaluationResult)
    ensures
      var r := ApplyExtend(base, ws, ext);
      && (base.inGracePeriod && !ext.inGracePeriod ==> r.gracePeriodEnd == base.gracePeriodEnd)
      && (!base.inGracePeriod && ext.inGracePeriod ==> r.gracePeriodEnd == ext.gracePeriodEnd)
      && (!base.inGracePeriod && !ext.inGracePeriod ==> r.gracePeriodEnd == None)
      && (base.inGracePeriod && ext.inGracePeriod && base.gracePeriodEnd.Some? && ext.gracePeriodEnd.Some? ==>
            && r.gracePeriodEnd.Some?
            && r.gracePeriodEnd.value <= base.gracePeriodEnd.value && r.gracePeriodEnd.value <= ext.gracePeriodEnd.value
            && (r.gracePeriodEnd == base.gracePeriodEnd || r.gracePeriodEnd == ext.gracePeriodEnd))
  {
  }

  // ----- The lead time

  /** The current minute. */
  function ThisMinute(now: Time): Time {
    Instant(DayOf(now), MinuteOf(now))
  }

  /** Today is listed or, from 13:00 on, tomorrow is. */
  predicate DayCounts(w: Window, now: Time) {
    WeekdayOf(DayOf(now)) in w.days || (Instant(DayOf(now), 780) <= now && WeekdayOf(DayOf(now) + 1) in w.days)
  }

  /** The window's start of today lies ahead, by no more than so many minutes. */
  predicate StartsToday(w: Window, now: Time, minutes: int) {
    ThisMinute(now) < Instant(DayOf(now), w.start) <= ThisMinute(now) + minutes * 60_000_000_000
  }

  /** Its start of tomorrow does. */
  predicate StartsTomorrow(w: Window, now: Time, minutes: int) {
    Instant(DayOf(now) + 1, w.start) <= ThisMinute(now) + minutes * 60_000_000_000
  }

  /**
   In the lead of a window, with the lead time in whole minutes: on a day that counts, before a start
   of today or tomorrow. A lead time below a minute leads all day, and of one above a day only the
   rest counts.
   */
  predicate Leads(w: Window, now: Time, minutes: int) {
    && DayCounts(w, now)
    && (|| minutes == 0
        || (0 < minutes <= 1440 && (StartsToday(w, now, minutes) || StartsTomorrow(w, now, minutes)))
        || (minutes > 1440 && StartsToday(w, now, minutes - 1440)))
  }

  lemma {:induction false} MinuteSpan(now: Time)
    ensures ThisMinute(now) <= now < ThisMinute(now) + 60_000_000_000
    ensures Instant(DayOf(now), 780) <= now <==> MinuteOf(now) / 60 > 12
  {
    InstantReached(DayOf(now), MinuteOf(now), now);
    InstantReached(DayOf(now), 780, now);
  }

  /** The minute arithmetic of the lead time, told by instants. */
  lemma {:induction false} LeadTells(w: Window, now: Time, leadTime: int)
    requires leadTime > 0
    ensures InLeadTime(w, now, leadTime) <==> Leads(w, now, leadTime / 60_000_000_000)
  {
    MinuteSpan(now);
    LeadMinutes(w, now, leadTime / 60_000_000_000);
  }

  lemma {:induction false} LeadMinutes(w: Window, now: Time, minutes: int)
    requires minutes >= 0
    ensures
      var m := MinuteOf(now);
      && (StartsToday(w, now, minutes) <==> w.start - minutes <= m < w.start)
      && (StartsTomorrow(w, now, minutes) <==> w.start - minutes + 1440 <= m)
      && (minutes > 1440 ==> (StartsToday(w, now, minutes - 1440) <==> w.start - minutes + 1440 <= m < w.start))
  {
  }

  /** A lead time that stays within the day: before today's start, by no more than that. */
  lemma {:induction false} LeadWithinDay(w: Window, now: Time, leadTime: int)
    requires 0 < leadTime / 60_000_000_000 <= w.start
    ensures InLeadTime(w, now, leadTime) <==>
      DayCounts(w, now) && StartsToday(w, now, leadTime / 60_000_000_000)
  {
    LeadTells(w, now, leadTime);
    LeadMinutes(w, now, leadTime / 60_000_000_000);
  }

  // ----- A lead time that is what it says

  /** Before a start of today that is listed, or of tomorrow that is listed, by no more than the lead time. */
  predicate LeadsListed(w: Window, now: Time, minutes: int) {
    || (WeekdayOf(DayOf(now)) in w.days && StartsToday(w, now, minutes))
    || (WeekdayOf(DayOf(now) + 1) in w.days && StartsTomorrow(w, now, minutes))
  }

  /**
   A lead time of up to a day is that of a listed start, except: late on the last listed day, before
   a start of tomorrow that is not listed; from 13:00 on, a day early; and before 13:00, a day ahead.
   */
  lemma {:induction false} LeadIsListedIff(w: Window, now: Time, leadTime: int)
    requires 0 < leadTime / 60_000_000_000 <= 1440
    ensures
      var minutes := leadTime / 60_000_000_000;
      var today, tomorrow := WeekdayOf(DayOf(now)) in w.days, WeekdayOf(DayOf(now) + 1) in w.days;
      var s0, s1 := StartsToday(w, now, minutes), StartsTomorrow(w, now, minutes);
      var late := Instant(DayOf(now), 780) <= now;
      (InLeadTime(w, now, leadTime) <==> LeadsListed(w, now, minutes)) <==>
        && !(today && !tomorrow && s1 && !s0)
        && !(!today && tomorrow && late && s0 && !s1)
        && !(!today && tomorrow && !late && s1)
  {
    LeadTells(w, now, leadTime);
  }

  /** A day early: a window that opens tomorrow afternoon leads already today, a minute before that hour. */
  lemma {:induction false} LeadsADayEarly(w: Window, day: int, leadTime: int)
    requires w.start > 780 && 60_000_000_000 <= leadTime < 1440 * 60_000_000_000
    requires WeekdayOf(day) !in w.days && WeekdayOf(day + 1) in w.days
    ensures
      var now := Instant(day, w.start - 1);
      InLeadTime(w, now, leadTime) && !LeadsListed(w, now, leadTime / 60_000_000_000)
  {
    var now, minutes := Instant(day, w.start - 1), leadTime / 60_000_000_000;
    InstantParts(day, w.start - 1);
    assert 1 <= minutes < 1440;
    LeadTells(w, now, leadTime);
    LeadMinutes(w, now, minutes);
    MinuteSpan(now);
  }

  // ----- Suspend

  /** The cluster wakes by itself before, or just when, the next suspension opens. */
  ghost predicate WakesFirst(before: EvaluationResult, ws: seq<Window>, now: Time) {
    before.nextWakeUp.Some? && exists s :: IsNextStart(ws, now, s) && before.nextWakeUp.value <= s
  }

  /** `s` is the earliest upcoming start of today and tomorrow. */
  ghost predicate IsNextStart(ws: seq<Window>, now: Time, s: Time) {
    && (exists w :: w in ws && UpcomingStart(w, now, s))
    && (forall w, s' :: w in ws && UpcomingStart(w, now, s') ==> s <= s')
  }

  lemma {:induction false} NextStartIs(ws: seq<Window>, now: Time, s: Time)
    ensures NextSuspensionStart(ws, now) == Some(s) <==> IsNextStart(ws, now, s)
  {
    NextStartTells(ws, now);
  }

  /** A suspension, the grace period after one, or the lead of one keeps the cluster awake. */
  ghost predicate KeptAwake(before: EvaluationResult, ws: seq<Window>, leadTime: int, now: Time, buffer: int) {
    || (exists w :: w in ws && InWindow(w, now))
    || (buffer > 0 && exists w :: w in ws && EndedWithin(w, now, buffer))
    || (leadTime > 0 && (exists w :: w in ws && Leads(w, now, leadTime / 60_000_000_000))
        && !WakesFirst(before, ws, now))
  }

  /** The suspend stage under every lead time and every buffer. */
  lemma {:induction false} SuspendVerdict(
    before: EvaluationResult, ws: seq<Window>, leadTime: int, now: Time, buffer: int)
    ensures ApplySuspend(before, ws, leadTime, now, buffer).shouldHibernate <==>
      before.shouldHibernate && !KeptAwake(before, ws, leadTime, now, buffer)
  {
    forall w | w in ws
      ensures buffer > 0 ==> (InEndGrace(w, now, buffer) <==> EndedWithin(w, now, buffer))
      ensures leadTime > 0 ==> (InLeadTime(w, now, leadTime) <==> Leads(w, now, leadTime / 60_000_000_000))
    {
      EndGraceForm(w, now, buffer);
      if leadTime > 0 {
        LeadTells(w, now, leadTime);
      }
    }
    WakesFirstForm(before, ws, now);
  }

  lemma {:induction false} WakesFirstForm(before: EvaluationResult, ws: seq<Window>, now: Time)
    ensures WakesFirst(before, ws, now) <==>
      var start := NextSuspensionStart(ws, now);
      start.Some? && before.nextWakeUp.Some? && before.nextWakeUp.value <= start.value
  {
    var start := NextSuspensionStart(ws, now);
    if start.Some? {
      NextStartIs(ws, now, start.value);
    }
    if WakesFirst(before, ws, now) {
      var s :| IsNextStart(ws, now, s) && before.nextWakeUp.value <= s;
      NextStartIs(ws, now, s);
    }
  }

  /**
   The announced times: hibernated, the earlier of the wake-up before suspension and the next start.
   Awake, the hibernation before suspension, or the end of the suspension if that is earlier; and if
   that falls into a suspension, the end of it. Lead time and grace period have no part in it.
   */
  lemma {:induction false} SuspendTimes(
    before: EvaluationResult, ws: seq<Window>, leadTime: int, now: Time, buffer: int)
    requires ws != []
    ensures
      var r, end := ApplySuspend(before, ws, leadTime, now, buffer), SuspensionEnd(ws, now);
      var n := if InAny(ws, now) then EarlierTime(before.nextHibernate, end) else before.nextHibernate;
      && r.nextWakeUp == (if r.shouldHibernate then EarlierTime(before.nextWakeUp, NextSuspensionStart(ws, now))
                          else before.nextWakeUp)
      && r.nextHibernate ==
           if !r.shouldHibernate && n.Some? && InAny(ws, n.value) then SuspensionEnd(ws, n.value) else n
  {
    EndIffInside(ws, now);
    if before.nextHibernate.Some? {
      EndIffInside(ws, before.nextHibernate.value);
    }
    var end := SuspensionEnd(ws, now);
    if end.Some? {
      EndIffInside(ws, end.value);
    }
  }

  lemma {:induction false} EndIffInside(ws: seq<Window>, t: Time)
    ensures SuspensionEnd(ws, t).Some? <==> InAny(ws, t)
    ensures InAny(ws, t) ==> t < SuspensionEnd(ws, t).value
  {
    if ws != [] {
      var w := ws[0];
      if InWindow(w, t) {
        InstantReached(DayOf(t), w.end, t);
        InstantReached(DayOf(t) + 1, w.end, t);
      } else {
        EndIffInside(ws[1..], t);
        assert ws == [w] + ws[1..];
      }
    }
  }

  /** Its own grace period is announced, with the end of the one before. */
  lemma {:induction false} SuspendGrace(
    before: EvaluationResult, ws: seq<Window>, leadTime: int, now: Time, buffer: int)
    requires ws != []
    ensures
      var r := ApplySuspend(before, ws, leadTime, now, buffer);
      && r.gracePeriodEnd == before.gracePeriodEnd
      && (r.inGracePeriod <==>
            && buffer > 0 && !(exists w :: w in ws && InWindow(w, now))
            && exists w :: w in ws && EndedWithin(w, now, buffer))
  {
    forall w | w in ws
      ensures InEndGrace(w, now, buffer) <==> EndedWithin(w, now, buffer)
    {
      EndGraceForm(w, now, buffer);
    }
  }

  // ----- All stages

  /** The stages before suspend: a window of the base, or of its replacement, or of an extend hibernates. */
  ghost predicate HibernatesBefore(base: seq<Window>, es: seq<Option<Exception>>, now: Time, buffer: int) {
    || (if HasActive(es, now, Replace) then
          exists w :: Contributes(es, now, Replace, w) && Eval(w, now, buffer).shouldHibernate
        else
          exists w :: w in base && Eval(w, now, buffer).shouldHibernate)
    || (exists w :: Contributes(es, now, Extend, w) && Eval(w, now, buffer).shouldHibernate)
  }

  /** The result of the stages before suspend. */
  ghost function Before(
    base: seq<Window>, es: seq<Option<Exception>>, now: Time, buffer: int): Option<EvaluationResult>
  {
    Evaluation(base, WithoutSuspends(FilterActive(es, now)), now, buffer)
  }

  /** The suspend windows and the lead time in force. */
  ghost function Suspending(es: seq<Option<Exception>>, now: Time): Option<Exception> {
    Merged(FilterActive(es, now), Suspend)
  }

  lemma {:induction false} KindHibernates(es: seq<Option<Exception>>, now: Time, kind: ExceptionType, buffer: int)
    ensures
      var m := Merged(FilterActive(es, now), kind);
      && (m.Some? <==> HasActive(es, now, kind))
      && (m.Some? ==> (EvalAll(m.value.windows, now, buffer).shouldHibernate <==>
            exists w :: Contributes(es, now, kind, w) && Eval(w, now, buffer).shouldHibernate))
      && (m.None? ==> !exists w :: Contributes(es, now, kind, w))
  {
    var m := Merged(FilterActive(es, now), kind);
    ActiveMerged(es, now, kind, Window(0, 0, {}));
    ContributesNeeds(es, now, kind);
    if m.Some? {
      MergedIs(es, now, kind);
      AnyHibernates(m.value.windows, now, buffer);
    }
  }

  lemma {:induction false} MergedIs(es: seq<Option<Exception>>, now: Time, kind: ExceptionType)
    requires Merged(FilterActive(es, now), kind).Some?
    ensures forall w :: w in Merged(FilterActive(es, now), kind).value.windows <==> Contributes(es, now, kind, w)
  {
    forall w
      ensures w in Merged(FilterActive(es, now), kind).value.windows <==> Contributes(es, now, kind, w)
    {
      ActiveMerged(es, now, kind, w);
    }
  }

  lemma {:induction false} AnyHibernates(ws: seq<Window>, now: Time, buffer: int)
    ensures EvalAll(ws, now, buffer).shouldHibernate <==> exists w :: w in ws && Eval(w, now, buffer).shouldHibernate
  {
    ListTells(ws, now, buffer);
  }

  lemma {:induction false} ContributesNeeds(es: seq<Option<Exception>>, now: Time, kind: ExceptionType)
    ensures (exists w :: Contributes(es, now, kind, w)) ==> HasActive(es, now, kind)
  {
  }

  lemma {:induction false} BeforeTells(base: seq<Window>, es: seq<Option<Exception>>, now: Time, buffer: int)
    requires Before(base, es, now, buffer).Some?
    ensures Before(base, es, now, buffer).value.shouldHibernate <==> HibernatesBefore(base, es, now, buffer)
  {
    KindHibernates(es, now, Replace, buffer);
    KindHibernates(es, now, Extend, buffer);
    ListTells(base, now, buffer);
    StagesBeforeSuspend(base, FilterActive(es, now), now, buffer);
  }

  /**
   Evaluation under every buffer and every lead time: hibernated when the stages before suspend are
   and nothing of the suspend exceptions keeps the cluster awake.
   */
  lemma {:induction false} PipelineVerdict(base: seq<Window>, es: seq<Option<Exception>>, now: Time, buffer: int)
    ensures
      var r := Evaluation(base, FilterActive(es, now), now, buffer);
      var before, sus := Before(base, es, now, buffer), Suspending(es, now);
      && (r.Some? <==> before.Some?)
      && (r.Some? ==> (r.value.shouldHibernate <==>
            && HibernatesBefore(base, es, now, buffer)
            && (sus.Some? ==> !KeptAwake(before.value, sus.value.windows, sus.value.leadTime, now, buffer))))
  {
    var active, before := FilterActive(es, now), Before(base, es, now, buffer);
    StagesBeforeSuspend(base, active, now, buffer);
    if before.Some? {
      BeforeTells(base, es, now, buffer);
      var sus := Suspending(es, now);
      if sus.Some? {
        SuspendVerdict(before.value, sus.value.windows, sus.value.leadTime, now, buffer);
      }
    }
  }
}
