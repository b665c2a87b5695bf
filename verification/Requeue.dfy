/**
 When the controller looks again, under a schedule buffer.

 The requeue time is computed from the grace period if there is one, and from the next firing plus
 the buffer if not. Where the buffer is a pure delay, both come to the same: the controller looks
 again ten seconds after the last instant of the current state.
 */
module Requeue {
  import opened Wrappers
  import opened Calendar
  import opened Windows
  import opened Buffers
  import opened Events

  // ----- Firings and the buffer

  lemma {:induction false} FitsWithinDay(w: Window, b: int)
    requires Valid(w) && Fits(w, b)
    ensures b < 86_400_000_000_000
  {
  }

  /** Two firings of one rule are at least a day apart. */
  lemma {:induction false} DayApart(r: Rule, f: Time, f': Time)
    requires Fires(r, f) && Fires(r, f') && f < f'
    ensures f' - f >= 86_400_000_000_000
  {
    assert f' - f == (DayOf(f') - DayOf(f)) * 86_400_000_000_000;
  }

  /** A buffer that fits is shorter than any pause. */
  lemma {:induction false} PauseIsLonger(w: Window, b: int, e: Time, s: Time)
    requires Valid(w) && Fits(w, b) && Fires(EndRule(w), e) && Fires(StartRule(w), s) && e < s
    ensures s - e > b
  {
    var days := DayOf(s) - DayOf(e);
    assert s - e == days * 86_400_000_000_000 + (w.start - w.end) * 60_000_000_000;
    assert days >= (if Overnight(w) then 0 else 1);
  }

  /** And shorter than any stretch of hibernation. */
  lemma {:induction false} StretchIsLonger(w: Window, b: int, s: Time, e: Time)
    requires Valid(w) && Fits(w, b) && Fires(StartRule(w), s) && Fires(EndRule(w), e) && s < e
    ensures e - s > b
  {
    var days := DayOf(e) - DayOf(s);
    assert e - s == days * 86_400_000_000_000 - (w.start - w.end) * 60_000_000_000;
    assert days >= (if Overnight(w) then 1 else 0);
    if Overnight(w) && days == 1 {
      AdjacentDays(w.days, DayOf(s));
    }
  }

  /** After an end, and with no start since, a window is off. */
  lemma {:induction false} OffSinceEnd(w: Window, t: Time, x: Time)
    requires Valid(w) && !Covers(w, t) && Last(EndRule(w), t) <= x <= t
    ensures !Covers(w, x)
  {
    RawClosedForm(w, t);
    RawClosedForm(w, x);
    LastIsGreatest(StartRule(w), t);
    LastIsGreatest(EndRule(w), t);
    LastIsGreatest(StartRule(w), x);
    LastIsGreatest(EndRule(w), x);
  }

  /** No firing in between: the next one is the same from both instants. */
  lemma {:induction false} SameNext(r: Rule, x: Time, t: Time)
    requires r.days != {} && x <= t < Next(r, x)
    ensures Next(r, x) == Next(r, t)
  {
    NextIsLeast(r, x);
    NextIsLeast(r, t);
  }

  // ----- Within one buffer

  /** When a window took on its state at `t`. */
  function LastTurn(w: Window, t: Time): Time {
    if Covers(w, t) then Last(StartRule(w), t) else Last(EndRule(w), t)
  }

  /** A window in the same state a buffer apart has not changed in between. */
  lemma {:induction false} NoChange(w: Window, b: int, x: Time, t: Time)
    requires Valid(w) && b > 0 && Fits(w, b) && t == x + b + 1 && (Covers(w, x) <==> Covers(w, t))
    ensures NextChange(w, x) == NextChange(w, t)
  {
    RawClosedForm(w, t);
    LastIsGreatest(StartRule(w), t);
    LastIsGreatest(EndRule(w), t);
    var s, e := Last(StartRule(w), t), Last(EndRule(w), t);
    if Covers(w, t) {
      var n := Next(EndRule(w), x);
      NextIsLeast(EndRule(w), x);
      if n <= t {
        PauseIsLonger(w, b, n, s);
      }
      SameNext(EndRule(w), x, t);
    } else {
      var n := Next(StartRule(w), x);
      NextIsLeast(StartRule(w), x);
      if n <= t {
        StretchIsLonger(w, b, n, e);
      }
      SameNext(StartRule(w), x, t);
    }
  }

  /** One in another state has changed once, at its last firing. */
  lemma {:induction false} OneChange(w: Window, b: int, x: Time, t: Time)
    requires Valid(w) && b > 0 && Fits(w, b) && t == x + b + 1 && (Covers(w, x) <==> !Covers(w, t))
    ensures NextChange(w, x) == LastTurn(w, t)
  {
    FitsWithinDay(w, b);
    var r := if Covers(w, t) then StartRule(w) else EndRule(w);
    LastIsGreatest(r, t);
    if Last(r, t) <= x {
      if Covers(w, t) {
        OnSinceStart(w, t, x);
      } else {
        OffSinceEnd(w, t, x);
      }
    }
    NextIsLeast(r, x);
    if Next(r, x) < Last(r, t) {
      DayApart(r, Next(r, x), Last(r, t));
    }
  }

  // ----- The evaluation result

  /** A grace period shows that the evaluated state is not the unbuffered one, and when that ends. */
  lemma {:induction false} GraceTells(w: Window, t: Time, b: int)
    requires Valid(w) && b > 0
    ensures
      var r := Eval(w, t, b);
      && (r.inGracePeriod <==> r.shouldHibernate != Covers(w, t))
      && (r.inGracePeriod ==> r.gracePeriodEnd == Some(LastTurn(w, t) + b))
  {
    RawClosedForm(w, t);
    var l, e := Last(StartRule(w), t), Last(EndRule(w), t);
    assert LastTurn(w, t) == if l > e then l else e;
  }

  /** It is not over. */
  lemma {:induction false} GraceIsOn(w: Window, t: Time, b: int)
    requires Valid(w) && b > 0
    ensures Eval(w, t, b).inGracePeriod ==> t <= LastTurn(w, t) + b
  {
    RawClosedForm(w, t);
    if Covers(w, t) {
      StartGraceForm(w, t, b);
      if StartedWithin(w, t, b) {
        StartedSince(w, t, b);
      }
    } else {
      EndGraceForm(w, t, b);
      if EndedWithin(w, t, b) {
        EndedSince(w, t, b);
      }
    }
  }

  lemma {:induction false} StartedSince(w: Window, t: Time, b: int)
    requires Valid(w) && StartedWithin(w, t, b)
    ensures t <= Last(StartRule(w), t) + b
  {
    var day :| DayOf(t) - 6 <= day <= DayOf(t) && StartedOn(w, day, t, b);
    FiringAt(StartRule(w), day);
    LastIsGreatest(StartRule(w), t);
  }

  lemma {:induction false} EndedSince(w: Window, t: Time, b: int)
    requires Valid(w) && EndedWithin(w, t, b)
    ensures t <= Last(EndRule(w), t) + b
  {
    FiringAt(EndRule(w), DayOf(t));
    LastIsGreatest(EndRule(w), t);
  }

  /** Without a grace period the announced time is that of the next change. */
  lemma {:induction false} PlainTells(w: Window, t: Time, b: int)
    requires Valid(w) && b > 0
    ensures
      var r := Eval(w, t, b);
      !r.inGracePeriod ==> (if r.shouldHibernate then r.nextWakeUp else r.nextHibernate) == Some(NextChange(w, t))
  {
    RawClosedForm(w, t);
  }

  lemma {:induction false} DelayedAt(w: Window, t: Time, b: int, x: Time)
    requires Valid(w) && b > 0 && Fits(w, b) && t == x + b + 1
    ensures Eval(w, t, b).shouldHibernate <==> Covers(w, x)
  {
    FittingDelays(w, t, b);
    CoversByInstants(w, x);
  }

  // ----- The requeue time

  lemma {:induction false} RequeueInGrace(r: EvaluationResult, t: Time, b: int, end: Time)
    requires r.inGracePeriod && r.gracePeriodEnd == Some(end) && t <= end
    ensures t + NextRequeue(r, t, b) == end + 10_000_000_000
  {
  }

  lemma {:induction false} RequeueWithoutGrace(r: EvaluationResult, t: Time, b: int, next: Time)
    requires !r.inGracePeriod && (if r.shouldHibernate then r.nextWakeUp else r.nextHibernate) == Some(next) && t < next
    ensures t + NextRequeue(r, t, b) == next + b + 10_000_000_000
  {
  }

  /** Every result: the end of the grace period, the next event and the buffer, or a minute if there is none ahead. */
  lemma {:induction false} RequeueTells(r: EvaluationResult, t: Time, b: int)
    ensures
      var next := if r.shouldHibernate then r.nextWakeUp else r.nextHibernate;
      && (r.inGracePeriod && r.gracePeriodEnd.Some? && t <= r.gracePeriodEnd.value ==>
            t + NextRequeue(r, t, b) == r.gracePeriodEnd.value + 10_000_000_000)
      && (r.inGracePeriod && (r.gracePeriodEnd.None? || r.gracePeriodEnd.value < t) ==>
            NextRequeue(r, t, b) == 10_000_000_000)
      && (!r.inGracePeriod && next.Some? && t <= next.value ==>
            t + NextRequeue(r, t, b) == next.value + b + 10_000_000_000)
      && (!r.inGracePeriod && (next.None? || next.value < t) ==> NextRequeue(r, t, b) == b + 70_000_000_000)
  {
  }

  /**
   Where the buffer is a pure delay, the state at `t` is the unbuffered state at `x`, which lasts
   until the buffer after the next unbuffered change. The controller looks again ten seconds later.
   */
  lemma {:induction false} RequeueAfterChange(w: Window, b: int, x: Time, t: Time)
    requires Valid(w) && b > 0 && Fits(w, b) && t == x + b + 1
    ensures t + NextRequeue(Eval(w, t, b), t, b) == NextChange(w, x) + b + 10_000_000_000
  {
    DelayedAt(w, t, b, x);
    GraceTells(w, t, b);
    RequeueFromGrace(w, b, x, t);
    RequeueFromState(w, b, x, t);
  }

  lemma {:induction false} RequeueFromGrace(w: Window, b: int, x: Time, t: Time)
    requires Valid(w) && b > 0 && Fits(w, b) && t == x + b + 1
    ensures Eval(w, t, b).inGracePeriod && (Covers(w, x) <==> !Covers(w, t)) ==>
      t + NextRequeue(Eval(w, t, b), t, b) == NextChange(w, x) + b + 10_000_000_000
  {
    RequeueAfterGrace(w, b, t);
    if Covers(w, x) <==> !Covers(w, t) {
      OneChange(w, b, x, t);
    }
  }

  lemma {:induction false} RequeueAfterGrace(w: Window, b: int, t: Time)
    requires Valid(w) && b > 0
    ensures Eval(w, t, b).inGracePeriod ==>
      t + NextRequeue(Eval(w, t, b), t, b) == LastTurn(w, t) + b + 10_000_000_000
  {
    var r := Eval(w, t, b);
    GraceTells(w, t, b);
    GraceIsOn(w, t, b);
    if r.inGracePeriod {
      RequeueInGrace(r, t, b, LastTurn(w, t) + b);
    }
  }

  lemma {:induction false} RequeueFromState(w: Window, b: int, x: Time, t: Time)
    requires Valid(w) && b > 0 && Fits(w, b) && t == x + b + 1
    ensures !Eval(w, t, b).inGracePeriod && (Covers(w, x) <==> Covers(w, t)) ==>
      t + NextRequeue(Eval(w, t, b), t, b) == NextChange(w, x) + b + 10_000_000_000
  {
    var r := Eval(w, t, b);
    PlainTells(w, t, b);
    if !r.inGracePeriod && (Covers(w, x) <==> Covers(w, t)) {
      NoChange(w, b, x, t);
      ChangesNext(w, t);
      RequeueWithoutGrace(r, t, b, NextChange(w, t));
    }
  }

  /** Until then the evaluated state holds, and right after it is the other one. */
  lemma {:induction false} HoldsUntilRequeue(w: Window, b: int, x: Time, t: Time, y: Time, u: Time)
    requires Valid(w) && b > 0 && Fits(w, b) && t == x + b + 1 && u == y + b + 1
    ensures x <= y < NextChange(w, x) ==> Eval(w, u, b).shouldHibernate == Eval(w, t, b).shouldHibernate
    ensures y == NextChange(w, x) ==> Eval(w, u, b).shouldHibernate != Eval(w, t, b).shouldHibernate
  {
    DelayedAt(w, t, b, x);
    DelayedAt(w, u, b, y);
    ChangesNext(w, x);
  }
}
