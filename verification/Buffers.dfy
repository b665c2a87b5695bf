/**
 The schedule buffer: what evaluation of one window means when boundaries have a grace period.

 Ideally the buffer is a pure delay: with buffer `b` a window is on at `t` exactly when without a
 buffer it was on just before `t - b`. This file gives evaluation in closed form for every window
 and every buffer, and proves for exactly which of them the ideal holds.
 */
module Buffers {
  import opened Wrappers
  import opened Calendar
  import opened Windows

  // ----- Days and instants

  lemma {:induction false} DayAt(t: Time, day: int)
    requires Instant(day, 0) <= t < Instant(day + 1, 0)
    ensures DayOf(t) == day
  {
  }

  lemma {:induction false} DaySpan(t: Time)
    ensures Instant(DayOf(t), 0) <= t < Instant(DayOf(t) + 1, 0)
    ensures t == Instant(DayOf(t), 0) + TimeOfDay(t)
  {
  }

  /** Whether a window is on, told by the boundaries of the current day. */
  predicate On(w: Window, t: Time) {
    OnDay(w, DayOf(t), t)
  }

  predicate OnDay(w: Window, day: int, t: Time) {
    if Overnight(w) then !(WeekdayOf(day) in w.days && Instant(day, w.end) <= t < Instant(day, w.start))
    else WeekdayOf(day) in w.days && Instant(day, w.start) <= t < Instant(day, w.end)
  }

  lemma {:induction false} CoversByInstants(w: Window, t: Time)
    ensures Covers(w, t) <==> On(w, t)
  {
    InstantReached(DayOf(t), w.start, t);
    InstantReached(DayOf(t), w.end, t);
  }

  // ----- The closed form

  /** Some listed day of the last seven, today included, started at most `b` ago. */
  ghost predicate StartedWithin(w: Window, t: Time, b: int) {
    exists day :: DayOf(t) - 6 <= day <= DayOf(t) && StartedOn(w, day, t, b)
  }

  predicate StartedOn(w: Window, day: int, t: Time, b: int) {
    WeekdayOf(day) in w.days && Instant(day, w.start) <= t <= Instant(day, w.start) + b
  }

  /** Today is listed and ended at most `b` ago; midnight cuts this short. */
  predicate EndedWithin(w: Window, t: Time, b: int) {
    Listed(w, t) && Instant(DayOf(t), w.end) <= t <= Instant(DayOf(t), w.end) + b
  }

  /** The pause before the current stretch is no longer than the buffer, which bridges it. */
  ghost predicate Bridged(w: Window, t: Time, b: int) {
    if Overnight(w) then (w.start - w.end) * 60_000_000_000 <= b
    else exists day :: day < DayOf(t) && BridgedFrom(w, day, t, b)
  }

  predicate BridgedFrom(w: Window, day: int, t: Time, b: int) {
    WeekdayOf(day) in w.days && Instant(DayOf(t), w.start) <= Instant(day, w.end) + b
  }

  lemma {:induction false} RecentDay(t: Time, day: int)
    requires DayOf(t) - 6 <= day <= DayOf(t)
    ensures MostRecentWeekday(t, WeekdayOf(day)) == day
  {
  }

  lemma {:induction false} RecentWeekday(t: Time, d: Weekday)
    ensures DayOf(t) - 6 <= MostRecentWeekday(t, d) <= DayOf(t)
    ensures WeekdayOf(MostRecentWeekday(t, d)) == d
  {
  }

  lemma {:induction false} StartGraceForm(w: Window, t: Time, b: int)
    ensures InStartGrace(w, t, b) <==> StartedWithin(w, t, b)
  {
    if InStartGrace(w, t, b) {
      var d :| d in w.days &&
        Instant(MostRecentWeekday(t, d), w.start) <= t <= Instant(MostRecentWeekday(t, d), w.start) + b;
      RecentWeekday(t, d);
      assert StartedOn(w, MostRecentWeekday(t, d), t, b);
    }
    if StartedWithin(w, t, b) {
      var day :| DayOf(t) - 6 <= day <= DayOf(t) && StartedOn(w, day, t, b);
      RecentDay(t, day);
    }
  }

  lemma {:induction false} MostRecentIsToday(t: Time)
    ensures MostRecentWeekday(t, WeekdayOf(DayOf(t))) == DayOf(t)
  {
  }

  lemma {:induction false} EndGraceForm(w: Window, t: Time, b: int)
    ensures InEndGrace(w, t, b) <==> EndedWithin(w, t, b)
  {
    MostRecentIsToday(t);
  }

  /** While a window is on, the code's test for a bridged pause is the pause before its last start. */
  lemma {:induction false} BridgedForm(w: Window, t: Time, b: int)
    requires Valid(w) && Covers(w, t)
    ensures Last(EndRule(w), t) + b >= Last(StartRule(w), t) <==> Bridged(w, t, b)
  {
    LastIsGreatest(StartRule(w), t);
    LastIsGreatest(EndRule(w), t);
    RawClosedForm(w, t);
    var l, e := Last(StartRule(w), t), Last(EndRule(w), t);
    if Overnight(w) {
      FiringAt(EndRule(w), DayOf(l));
      assert Instant(DayOf(l), w.end) <= e < l;
      SameDayEnd(w, l, e);
    } else {
      CoversByInstants(w, t);
      FiringAt(StartRule(w), DayOf(t));
      StartIsToday(w, t, l);
      BridgedSameDay(w, t, b);
    }
  }

  lemma {:induction false} SameDayEnd(w: Window, l: Time, e: Time)
    requires Fires(StartRule(w), l) && Fires(EndRule(w), e) && Instant(DayOf(l), w.end) <= e < l
    ensures l - e == (w.start - w.end) * 60_000_000_000
  {
    InstantParts(DayOf(l), w.start);
    InstantParts(DayOf(e), w.end);
    assert DayOf(e) == DayOf(l);
  }

  lemma {:induction false} StartIsToday(w: Window, t: Time, l: Time)
    requires Fires(StartRule(w), l) && Instant(DayOf(t), w.start) <= l <= t
    ensures l == Instant(DayOf(t), w.start)
  {
    DaySpan(t);
    DayAt(l, DayOf(t));
  }

  lemma {:induction false} BridgedSameDay(w: Window, t: Time, b: int)
    requires Valid(w) && !Overnight(w) && Covers(w, t)
    ensures Last(EndRule(w), t) + b >= Instant(DayOf(t), w.start) <==> Bridged(w, t, b)
  {
    var e := Last(EndRule(w), t);
    LastIsGreatest(EndRule(w), t);
    CoversByInstants(w, t);
    DaySpan(t);
    DaySpan(e);
    if e + b >= Instant(DayOf(t), w.start) {
      assert DayOf(e) < DayOf(t);
      assert BridgedFrom(w, DayOf(e), t, b);
    }
    if Bridged(w, t, b) {
      var day :| day < DayOf(t) && BridgedFrom(w, day, t, b);
      FiringAt(EndRule(w), day);
      assert Instant(day, w.end) <= e;
    }
  }

  /** On, unless just started after a real pause; off, unless just ended. */
  ghost predicate Buffered(w: Window, t: Time, b: int) {
    if On(w, t) then Bridged(w, t, b) || !StartedWithin(w, t, b) else EndedWithin(w, t, b)
  }

  /** Evaluation of every valid window under every positive buffer. */
  lemma {:induction false} BufferedClosedForm(w: Window, t: Time, b: int)
    requires Valid(w) && b > 0
    ensures Eval(w, t, b).shouldHibernate <==> Buffered(w, t, b)
  {
    CoversByInstants(w, t);
    RawClosedForm(w, t);
    StartGraceForm(w, t, b);
    EndGraceForm(w, t, b);
    if Covers(w, t) {
      BridgedForm(w, t, b);
    }
  }

  /** Started at most `b` ago, after a pause longer than that. */
  ghost predicate Starting(w: Window, t: Time, b: int) {
    b > 0 && On(w, t) && !Bridged(w, t, b) && StartedWithin(w, t, b)
  }

  /** Ended today, at most `b` ago. */
  ghost predicate Ending(w: Window, t: Time, b: int) {
    b > 0 && !On(w, t) && EndedWithin(w, t, b)
  }

  lemma {:induction false} DecideTells(w: Window, t: Time, b: int, l: Time, e: Time, h: Time, u: Time)
    ensures
      var r := Decide(w, t, b, l, e, h, u);
      var starting := b > 0 && l > e && e + b < l && InStartGrace(w, t, b);
      var ending := b > 0 && l <= e && InEndGrace(w, t, b);
      && (r.inGracePeriod <==> starting || ending)
      && r.nextHibernate == Some(if starting && l + b < h then l + b else h)
      && r.nextWakeUp == Some(if ending && e + b < u then e + b else u)
      && r.gracePeriodEnd == (if starting then Some(l + b) else if ending then Some(e + b) else None)
      && (r.shouldHibernate <==> (l > e && !starting) || ending)
  {
  }

  lemma {:induction false} StartingForm(w: Window, t: Time, b: int)
    requires Valid(w)
    ensures
      var l, e := Last(StartRule(w), t), Last(EndRule(w), t);
      Starting(w, t, b) <==> b > 0 && l > e && e + b < l && InStartGrace(w, t, b)
  {
    CoversByInstants(w, t);
    RawClosedForm(w, t);
    StartGraceForm(w, t, b);
    if Covers(w, t) {
      BridgedForm(w, t, b);
    }
  }

  lemma {:induction false} EndingForm(w: Window, t: Time, b: int)
    requires Valid(w)
    ensures Ending(w, t, b) <==>
      b > 0 && Last(StartRule(w), t) <= Last(EndRule(w), t) && InEndGrace(w, t, b)
  {
    CoversByInstants(w, t);
    RawClosedForm(w, t);
    EndGraceForm(w, t, b);
  }

  /** The times that go with the verdict: the next firings, brought forward to the end of a grace period. */
  lemma {:induction false} EvalTimes(w: Window, t: Time, b: int)
    requires Valid(w)
    ensures
      var r := Eval(w, t, b);
      var h, u, l, e := Next(StartRule(w), t), Next(EndRule(w), t), Last(StartRule(w), t), Last(EndRule(w), t);
      && (r.inGracePeriod <==> Starting(w, t, b) || Ending(w, t, b))
      && r.nextHibernate == Some(if Starting(w, t, b) && l + b < h then l + b else h)
      && r.nextWakeUp == Some(if Ending(w, t, b) && e + b < u then e + b else u)
      && r.gracePeriodEnd ==
           (if Starting(w, t, b) then Some(l + b) else if Ending(w, t, b) then Some(e + b) else None)
  {
    StartingForm(w, t, b);
    EndingForm(w, t, b);
    DecideTells(w, t, b, Last(StartRule(w), t), Last(EndRule(w), t), Next(StartRule(w), t), Next(EndRule(w), t));
  }

  /**
   A full-day window with at least a minute of buffer bridges two listed days: from 23:59 of the
   first to 23:59 of the second, both included, it is never awake.
   */
  lemma {:induction false} FullDaysAreBridged(w: Window, t: Time, b: int, day: int)
    requires w.start == 0 && w.end == 1439 && b >= 60_000_000_000
    requires WeekdayOf(day) in w.days && WeekdayOf(day + 1) in w.days
    requires Instant(day, 1439) <= t <= Instant(day + 1, 1439)
    ensures Eval(w, t, b).shouldHibernate
  {
    BufferedClosedForm(w, t, b);
    if t < Instant(day + 1, 0) {
      DayAt(t, day);
    } else {
      DayAt(t, day + 1);
      assert BridgedFrom(w, day, t, b);
    }
  }

  // ----- When the buffer is a pure delay

  /** Two listed weekdays follow each other. */
  predicate Adjacent(days: set<Weekday>) {
    exists d, d' :: d in days && d' in days && d' == (d + 1) % 7
  }

  /**
   The buffer fits: shorter than the window and over before midnight, or, overnight, shorter than
   the pause and, between two listed days in a row, shorter than the night.
   */
  predicate Fits(w: Window, b: int) {
    if Overnight(w) then
      && b < (w.start - w.end) * 60_000_000_000
      && (b < 86_400_000_000_000 - (w.start - w.end) * 60_000_000_000 || !Adjacent(w.days))
    else
      && b < (w.end - w.start) * 60_000_000_000
      && w.end * 60_000_000_000 + b < 86_400_000_000_000
  }

  /** The closed form at `t`, against the state without a buffer just before `t - b`. */
  ghost predicate Agrees(w: Window, t: Time, b: int) {
    Buffered(w, t, b) <==> On(w, t - b - 1)
  }

  /** Evaluation at `t` is the state without a buffer just before `t - b`. */
  ghost predicate Delayed(w: Window, t: Time, b: int) {
    Eval(w, t, b).shouldHibernate <==> On(w, t - b - 1)
  }

  lemma {:induction false} AgreesIsDelayed(w: Window, t: Time, b: int)
    requires Valid(w) && b > 0
    ensures Agrees(w, t, b) <==> Delayed(w, t, b)
  {
    BufferedClosedForm(w, t, b);
  }

  /** The buffer is a pure delay, at all times, exactly when it fits the window. */
  lemma {:induction false} DelayIffFits(w: Window, b: int)
    requires Valid(w) && b > 0
    ensures (forall t :: Delayed(w, t, b)) <==> Fits(w, b)
  {
    AgreesIffFits(w, b);
    forall t
      ensures Agrees(w, t, b) <==> Delayed(w, t, b)
    {
      AgreesIsDelayed(w, t, b);
    }
  }

  lemma {:induction false} FittingDelays(w: Window, t: Time, b: int)
    requires Valid(w) && b > 0 && Fits(w, b)
    ensures Delayed(w, t, b)
  {
    DelayIffFits(w, b);
  }

  /** For a same-day window that the buffer fits: hibernated in (start + b, end + b] of listed days. */
  lemma {:induction false} BufferIsDelay(w: Window, t: Time, b: int)
    requires Valid(w) && !Overnight(w) && b > 0 && Fits(w, b)
    ensures Eval(w, t, b).shouldHibernate <==>
      Listed(w, t) && w.start * 60_000_000_000 + b < TimeOfDay(t) <= w.end * 60_000_000_000 + b
  {
    BufferedClosedForm(w, t, b);
    SameDayDelay(w, t, b);
    SameDayShift(w, t, b);
    DaySpan(t);
  }

  /** The delayed window stays within its day. */
  lemma {:induction false} SameDayShift(w: Window, t: Time, b: int)
    requires !Overnight(w) && b > 0 && Fits(w, b)
    ensures On(w, t - b - 1) <==>
      Listed(w, t) && Instant(DayOf(t), w.start) + b < t <= Instant(DayOf(t), w.end) + b
  {
    var x := t - b - 1;
    DaySpan(t);
    DaySpan(x);
    if On(w, x) {
      DayAt(t, DayOf(x));
    } else if Instant(DayOf(t), w.start) + b < t <= Instant(DayOf(t), w.end) + b {
      DayAt(x, DayOf(t));
    }
  }

  lemma {:induction false} AgreesIffFits(w: Window, b: int)
    requires Valid(w) && b > 0
    ensures (forall t :: Agrees(w, t, b)) <==> Fits(w, b)
  {
    if Fits(w, b) {
      forall t
        ensures Agrees(w, t, b)
      {
        if Overnight(w) {
          OvernightDelay(w, t, b);
        } else {
          SameDayDelay(w, t, b);
        }
      }
    } else if Overnight(w) {
      var t := OvernightMisfit(w, b);
      assert !Agrees(w, t, b);
    } else {
      var t := SameDayMisfit(w, b);
      assert !Agrees(w, t, b);
    }
  }

  lemma {:induction false} SameDayDelay(w: Window, t: Time, b: int)
    requires Valid(w) && !Overnight(w) && b > 0 && Fits(w, b)
    ensures Agrees(w, t, b)
  {
    SameDayShift(w, t, b);
    DaySpan(t);
    if On(w, t) {
      var today := DayOf(t);
      assert StartedOn(w, today, t, b) <==> t <= Instant(today, w.start) + b;
      forall day | day < today
        ensures !StartedOn(w, day, t, b) && !BridgedFrom(w, day, t, b)
      {
        assert Instant(day, w.end) + b < Instant(today, 0);
      }
    }
  }

  /** Overnight, just started: the delayed state is still in the pause before. */
  lemma {:induction false} OvernightPause(w: Window, l: Time, b: int, x: Time)
    requires Overnight(w) && Fires(StartRule(w), l) && b < (w.start - w.end) * 60_000_000_000 && l - b - 1 <= x < l
    ensures !On(w, x)
  {
    InThePause(w, DayOf(l), x);
  }

  /** After a start, and with no end since, a window is on. */
  lemma {:induction false} OnSinceStart(w: Window, t: Time, x: Time)
    requires Valid(w) && Covers(w, t) && Last(StartRule(w), t) <= x <= t
    ensures Covers(w, x)
  {
    RawClosedForm(w, t);
    RawClosedForm(w, x);
    LastIsGreatest(StartRule(w), t);
    LastIsGreatest(EndRule(w), t);
    LastIsGreatest(StartRule(w), x);
    LastIsGreatest(EndRule(w), x);
  }

  /** Overnight, while on: up to the buffer after the last start the delayed state is still off. */
  lemma {:induction false} OvernightOn(w: Window, t: Time, b: int)
    requires Valid(w) && Overnight(w) && b > 0 && Fits(w, b) && On(w, t)
    ensures Agrees(w, t, b)
  {
    var l, x := Last(StartRule(w), t), t - b - 1;
    LastIsGreatest(StartRule(w), t);
    StartedSinceLast(w, t, b);
    if t <= l + b {
      OvernightPause(w, l, b, x);
    } else {
      CoversByInstants(w, t);
      OnSinceStart(w, t, x);
      CoversByInstants(w, x);
    }
  }

  /** A buffer of less than a day looks at the last start only. */
  lemma {:induction false} StartedSinceLast(w: Window, t: Time, b: int)
    requires Valid(w) && 0 < b < 86_400_000_000_000
    ensures StartedWithin(w, t, b) <==> t <= Last(StartRule(w), t) + b
  {
    var l := Last(StartRule(w), t);
    LastIsGreatest(StartRule(w), t);
    DaySpan(t);
    DaySpan(l);
    if t <= l + b {
      assert StartedOn(w, DayOf(l), t, b);
    }
    if StartedWithin(w, t, b) {
      var day :| DayOf(t) - 6 <= day <= DayOf(t) && StartedOn(w, day, t, b);
      FiringAt(StartRule(w), day);
    }
  }

  /** Overnight, while off: up to the buffer after today's end the delayed state is still on. */
  lemma {:induction false} OvernightOff(w: Window, t: Time, b: int)
    requires Valid(w) && Overnight(w) && b > 0 && Fits(w, b) && !On(w, t)
    ensures Agrees(w, t, b)
  {
    var x, day := t - b - 1, DayOf(t);
    DaySpan(t);
    DaySpan(x);
    if DayOf(x) == day {
      assert On(w, x) <==> x < Instant(day, w.end);
    } else {
      assert t <= Instant(day, w.end) + b;
      assert DayOf(x) == day - 1;
      if Listed(w, x) {
        AdjacentDays(w.days, day - 1);
        assert Instant(day - 1, w.start) <= x;
      }
      assert On(w, x);
    }
  }

  lemma {:induction false} AdjacentDays(days: set<Weekday>, day: int)
    requires WeekdayOf(day) in days && WeekdayOf(day + 1) in days
    ensures Adjacent(days)
  {
    assert (WeekdayOf(day) + 1) % 7 == WeekdayOf(day + 1);
  }

  lemma {:induction false} OvernightDelay(w: Window, t: Time, b: int)
    requires Valid(w) && Overnight(w) && b > 0 && Fits(w, b)
    ensures Agrees(w, t, b)
  {
    if On(w, t) {
      OvernightOn(w, t, b);
    } else {
      OvernightOff(w, t, b);
    }
  }

  // ----- Where a buffer that does not fit shows

  lemma {:induction false} SomeListedDay(w: Window) returns (day: int)
    requires w.days != {}
    ensures WeekdayOf(day) in w.days
  {
    var d :| d in w.days;
    day := d + 3;
  }

  /** At its end on a listed day a window is off. */
  lemma {:induction false} OffAtEnd(w: Window, day: int)
    requires Valid(w) && WeekdayOf(day) in w.days
    ensures !On(w, Instant(day, w.end)) && DayOf(Instant(day, w.end)) == day
  {
    InstantParts(day, w.end);
  }

  /** A buffer no shorter than the pause bridges every pause. */
  lemma {:induction false} AlwaysBridged(w: Window, t: Time, b: int)
    requires Overnight(w) && b >= (w.start - w.end) * 60_000_000_000
    ensures Buffered(w, t, b)
  {
  }

  /** A buffer no shorter than the night between two listed days: at the second end it starts anew. */
  lemma {:induction false} NightTooShort(w: Window, b: int, day: int)
    requires Valid(w) && Overnight(w) && WeekdayOf(day) in w.days && WeekdayOf(day + 1) in w.days
    requires 0 < b < (w.start - w.end) * 60_000_000_000
    requires b >= 86_400_000_000_000 - (w.start - w.end) * 60_000_000_000
    ensures !Agrees(w, Instant(day + 1, w.end), b)
  {
    var t := Instant(day + 1, w.end);
    var x := t - b - 1;
    assert Instant(day, w.end) <= x < Instant(day, w.start);
    InThePause(w, day, x);
    BufferedAtEnd(w, day + 1, b);
  }

  lemma {:induction false} BufferedAtEnd(w: Window, day: int, b: int)
    requires Valid(w) && WeekdayOf(day) in w.days && b > 0
    ensures Buffered(w, Instant(day, w.end), b) && DayOf(Instant(day, w.end)) == day
  {
    OffAtEnd(w, day);
    assert EndedWithin(w, Instant(day, w.end), b);
  }

  lemma {:induction false} InThePause(w: Window, day: int, x: Time)
    requires Overnight(w) && WeekdayOf(day) in w.days && Instant(day, w.end) <= x < Instant(day, w.start)
    ensures !On(w, x) && DayOf(x) == day
  {
    DayAt(x, day);
  }

  lemma {:induction false} OvernightMisfit(w: Window, b: int) returns (t: Time)
    requires Valid(w) && Overnight(w) && b > 0 && !Fits(w, b)
    ensures !Agrees(w, t, b)
  {
    if b >= (w.start - w.end) * 60_000_000_000 {
      var day := SomeListedDay(w);
      OffAtEnd(w, day);
      t := Instant(day, w.end) + b + 1;
      AlwaysBridged(w, t, b);
    } else {
      var d, d' :| d in w.days && d' in w.days && d' == (d + 1) % 7;
      var day := d + 3;
      assert WeekdayOf(day) == d && WeekdayOf(day + 1) == d';
      t := Instant(day + 1, w.end);
      NightTooShort(w, b, day);
    }
  }

  /** Past midnight a same-day window is hibernated only if the next day is listed and bridged. */
  lemma {:induction false} PastMidnight(w: Window, b: int, day: int, t: Time)
    requires !Overnight(w) && DayOf(t) == day + 1 && Buffered(w, t, b)
    requires t < Instant(day + 1, w.end) && t <= Instant(day + 1, w.start) + b
    ensures On(w, t) && Bridged(w, t, b)
  {
    if On(w, t) {
      assert StartedOn(w, day + 1, t, b);
    }
  }

  /** A bridged day is hibernated from its start until the buffer after its end. */
  lemma {:induction false} BridgedDay(w: Window, b: int, t: Time, u: Time)
    requires !Overnight(w) && On(w, t) && Bridged(w, t, b) && b > 0
    requires DayOf(u) == DayOf(t) && t <= u <= Instant(DayOf(t), w.end)
    ensures Buffered(w, u, b)
  {
    var from :| from < DayOf(t) && BridgedFrom(w, from, t, b);
    assert BridgedFrom(w, from, u, b);
  }

  /** The buffer reaches past midnight: it stops short there, or runs on too long. */
  lemma {:induction false} CutAtMidnight(w: Window, b: int, day: int) returns (t: Time)
    requires Valid(w) && !Overnight(w) && WeekdayOf(day) in w.days
    requires 0 < b < (w.end - w.start) * 60_000_000_000
    requires w.end * 60_000_000_000 + b >= 86_400_000_000_000
    ensures !Agrees(w, t, b)
  {
    t := Instant(day, w.end) + b;
    DayAt(t, day + 1);
    if !Buffered(w, t, b) {
      DayAt(t - b - 1, day);
    } else {
      PastMidnight(w, b, day, t);
      DayAt(t + 1, day + 1);
      BridgedDay(w, b, t, t + 1);
      OffAtEnd(w, day);
      t := t + 1;
    }
  }

  /** A buffer of a day or more that bridges: on from the start to midnight, longer than any window. */
  lemma {:induction false} OnUntilMidnight(w: Window, b: int, day: int, t: Time)
    requires Valid(w) && !Overnight(w) && WeekdayOf(day) in w.days && b >= 86_400_000_000_000
    requires exists from :: from < day && WeekdayOf(from) in w.days && Instant(day, w.start) <= Instant(from, w.end) + b
    requires DayOf(t) == day && Instant(day, w.start) <= t
    ensures Buffered(w, t, b)
  {
    DaySpan(t);
    var from :| from < day && WeekdayOf(from) in w.days && Instant(day, w.start) <= Instant(from, w.end) + b;
    assert BridgedFrom(w, from, t, b);
  }

  lemma {:induction false} LongerThanWindow(w: Window, b: int, day: int) returns (t: Time)
    requires Valid(w) && !Overnight(w) && WeekdayOf(day) in w.days
    requires b >= (w.end - w.start) * 60_000_000_000
    ensures !Agrees(w, t, b)
  {
    var end, start := Instant(day, w.end), Instant(day, w.start);
    var x := end - b - 1;
    OffAtEnd(w, day);
    DaySpan(x);
    if !On(w, x) {
      t := end;
    } else {
      assert DayOf(x) < day;
      assert start <= Instant(DayOf(x), w.end) + b;
      InstantParts(day, w.start);
      OnUntilMidnight(w, b, day, start);
      t := TooLong(w, b, day);
    }
  }

  lemma {:induction false} TooLong(w: Window, b: int, day: int) returns (t: Time)
    requires Valid(w) && !Overnight(w) && WeekdayOf(day) in w.days && b >= 86_400_000_000_000
    requires exists from :: from < day && WeekdayOf(from) in w.days && Instant(day, w.start) <= Instant(from, w.end) + b
    ensures !Agrees(w, t, b)
  {
    var start := Instant(day, w.start);
    var x := start - b - 1;
    InstantParts(day, w.start);
    if !On(w, x) {
      t := start;
    } else {
      OffAtEnd(w, DayOf(x));
      t := Instant(DayOf(x), w.end) + b + 1;
      assert start < t <= Instant(day, w.end);
      DayAt(t, day);
    }
    OnUntilMidnight(w, b, day, t);
  }

  lemma {:induction false} SameDayMisfit(w: Window, b: int) returns (t: Time)
    requires Valid(w) && !Overnight(w) && b > 0 && !Fits(w, b)
    ensures !Agrees(w, t, b)
  {
    var day := SomeListedDay(w);
    if b >= (w.end - w.start) * 60_000_000_000 {
      t := LongerThanWindow(w, b, day);
    } else {
      t := CutAtMidnight(w, b, day);
    }
  }
}
