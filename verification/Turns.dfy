/**
 Lists of windows: when the announced next event is a change of state, and when it is not.

 Awake, the announced hibernation always is one. Hibernated, the earliest end is announced, although
 another window may still hold then. This file gives the condition on the windows under which every
 announced wake-up is real.
 */
module Turns {
  import opened Wrappers
  import opened Calendar
  import opened Windows
  import opened Schedule
  import opened ScheduleMeaning

  /** The state of a window at a minute of a weekday. */
  predicate OnAt(w: Window, d: Weekday, m: Minute) {
    if d in w.days then ContainsMinute(w, m) else Overnight(w)
  }

  /** No window ends where another one, or itself, is on. */
  predicate EndsClear(ws: seq<Window>) {
    forall w, v, d | w in ws && v in ws && d in w.days :: !OnAt(v, d, w.end)
  }

  /** A single window never ends inside itself. */
  lemma {:induction false} SingleEndsClear(w: Window)
    requires Valid(w)
    ensures EndsClear([w])
  {
  }

  /** The event announced from `t` on: the wake-up if hibernated, the hibernation if awake. */
  ghost function NextTurn(ws: seq<Window>, t: Time): Option<Time> {
    if CoveredBy(ws, t) then EvalAll(ws, t, 0).nextWakeUp else EvalAll(ws, t, 0).nextHibernate
  }

  /** Up to it the state holds. */
  lemma {:induction false} SteadyUntilTurn(ws: seq<Window>, t: Time, u: Time)
    requires AllValid(ws) && ws != []
    ensures NextTurn(ws, t).Some? && t < NextTurn(ws, t).value
    ensures t <= u < NextTurn(ws, t).value ==> (CoveredBy(ws, u) <==> CoveredBy(ws, t))
  {
    var n := NextTurn(ws, t);
    EvalAllMeaning(ws, t);
    if CoveredBy(ws, t) {
      EarliestEnd(ws, n, t);
      if t <= u < n.value {
        HibernatedUntil(ws, n, t, t, u);
      }
    } else {
      EarliestStartCovers(ws, n, t);
      if t <= u < n.value {
        AwakeUntil(ws, n, t, u);
      }
    }
  }

  /** It is a firing of one of the windows' rules. */
  lemma {:induction false} TurnFires(ws: seq<Window>, t: Time) returns (r: Rule)
    requires AllValid(ws) && ws != []
    ensures NextTurn(ws, t).Some? && Fires(r, NextTurn(ws, t).value)
  {
    EvalAllMeaning(ws, t);
    var n := NextTurn(ws, t).value;
    if CoveredBy(ws, t) {
      var w :| w in ws && n == Next(EndRule(w), t);
      NextIsLeast(EndRule(w), t);
      r := EndRule(w);
    } else {
      var w :| w in ws && n == Next(StartRule(w), t);
      NextIsLeast(StartRule(w), t);
      r := StartRule(w);
    }
  }

  /** Where no window ends inside another, no window is on at any end. */
  lemma {:induction false} ClearAtEnd(ws: seq<Window>, w: Window, e: Time)
    requires EndsClear(ws) && w in ws && Fires(EndRule(w), e)
    ensures !CoveredBy(ws, e)
  {
    InstantParts(DayOf(e), w.end);
    forall v | v in ws
      ensures !Covers(v, e)
    {
      assert !OnAt(v, WeekdayOf(DayOf(e)), w.end);
    }
  }

  /** The announced event changes the state. */
  lemma {:induction false} TurnIsFlip(ws: seq<Window>, t: Time)
    requires AllValid(ws) && ws != [] && EndsClear(ws)
    ensures NextTurn(ws, t).Some? && (CoveredBy(ws, NextTurn(ws, t).value) <==> !CoveredBy(ws, t))
  {
    var n := NextTurn(ws, t);
    EvalAllMeaning(ws, t);
    if CoveredBy(ws, t) {
      var w :| w in ws && n.value == Next(EndRule(w), t);
      NextIsLeast(EndRule(w), t);
      ClearAtEnd(ws, w, n.value);
    } else {
      EarliestStartCovers(ws, n, t);
    }
  }

  /** No window changes within ten seconds after it: all changes fall on whole minutes. */
  lemma {:induction false} SteadyAfterTurn(ws: seq<Window>, t: Time, n: Time, u: Time)
    requires AllValid(ws) && ws != [] && NextTurn(ws, t) == Some(n) && n <= u <= n + 10_000_000_000
    ensures CoveredBy(ws, u) <==> CoveredBy(ws, n)
  {
    var r := TurnFires(ws, t);
    forall v | v in ws
      ensures Covers(v, u) == Covers(v, n)
    {
      SteadyAfterFiring(r, n, v, u);
    }
  }

  lemma {:induction false} SteadyAfterFiring(r: Rule, n: Time, v: Window, u: Time)
    requires Fires(r, n) && Valid(v) && n <= u <= n + 10_000_000_000
    ensures Covers(v, u) == Covers(v, n)
  {
    NextIsLeast(StartRule(v), n);
    NextIsLeast(EndRule(v), n);
    FiringsApart(r, StartRule(v), n, Next(StartRule(v), n));
    FiringsApart(r, EndRule(v), n, Next(EndRule(v), n));
    SteadyWithoutFirings(v, n, u);
  }

  // ----- Wake-ups that are not

  /** Just before its own end a window is on. */
  lemma {:induction false} OnBeforeEnd(w: Window, day: int)
    requires Valid(w) && WeekdayOf(day) in w.days
    ensures Covers(w, Instant(day, w.end) - 1)
  {
    var t := Instant(day, w.end) - 1;
    InstantReached(day, w.start, t);
    InstantReached(day, w.end, t);
    InstantReached(day, 0, t);
    InstantReached(day - 1, w.start, t);
    InstantReached(day - 1, 1439, t);
  }

  lemma {:induction false} FiringIsNext(r: Rule, e: Time, t: Time)
    requires Fires(r, e) && t + 1 == e
    ensures Next(r, t) == e
  {
    NextIsLeast(r, t);
  }

  lemma {:induction false} EarliestIs(n: Option<Time>, ws: seq<Window>, w: Window, e: Time, t: Time)
    requires IsEarliest(n, ws, EndRule, t) && w in ws && Next(EndRule(w), t) == e
    requires n.Some? ==> e <= n.value
    ensures n == Some(e)
  {
  }

  /** Just before an end of some window, that end is announced. */
  lemma {:induction false} EndIsAnnounced(ws: seq<Window>, w: Window, e: Time, t: Time)
    requires AllValid(ws) && w in ws && Fires(EndRule(w), e) && t + 1 == e
    ensures EvalAll(ws, t, 0).nextWakeUp == Some(e)
  {
    var n := EvalAll(ws, t, 0).nextWakeUp;
    EvalAllMeaning(ws, t);
    if n.Some? {
      EarliestEnd(ws, n, t);
    }
    FiringIsNext(EndRule(w), e, t);
    EarliestIs(n, ws, w, e, t);
  }

  /** The wake-up announced from `t` finds every window off. */
  ghost predicate WakesForReal(ws: seq<Window>, t: Time) {
    var n := EvalAll(ws, t, 0).nextWakeUp;
    n.Some? && !CoveredBy(ws, n.value)
  }

  /** Whenever hibernated, the announced wake-up is real, exactly when no window ends inside another. */
  lemma {:induction false} WakeUpsAreRealIff(ws: seq<Window>)
    requires AllValid(ws)
    ensures (forall t :: CoveredBy(ws, t) ==> WakesForReal(ws, t)) <==> EndsClear(ws)
  {
    if EndsClear(ws) {
      forall t | CoveredBy(ws, t)
        ensures WakesForReal(ws, t)
      {
        TurnIsFlip(ws, t);
      }
    } else {
      var w, v, d :| w in ws && v in ws && d in w.days && OnAt(v, d, w.end);
      var t := FalseWakeUp(ws, w, v, d);
      assert !WakesForReal(ws, t);
    }
  }

  /** Where a window ends inside another, a wake-up is announced that does not come. */
  lemma {:induction false} FalseWakeUp(ws: seq<Window>, w: Window, v: Window, d: Weekday) returns (t: Time)
    requires AllValid(ws) && w in ws && v in ws && d in w.days && OnAt(v, d, w.end)
    ensures CoveredBy(ws, t) && !WakesForReal(ws, t)
    ensures NextTurn(ws, t).Some? && t < NextTurn(ws, t).value && CoveredBy(ws, NextTurn(ws, t).value)
  {
    var day := d + 3;
    assert WeekdayOf(day) == d;
    OnBeforeEnd(w, day);
    FiringAt(EndRule(w), day);
    OnAtEnd(v, d, w, day);
    t := Instant(day, w.end) - 1;
    FalseAt(ws, w, v, Instant(day, w.end), t);
  }

  lemma {:induction false} OnAtEnd(v: Window, d: Weekday, w: Window, day: int)
    requires OnAt(v, d, w.end) && WeekdayOf(day) == d
    ensures Covers(v, Instant(day, w.end))
  {
    InstantParts(day, w.end);
  }

  lemma {:induction false} FalseAt(ws: seq<Window>, w: Window, v: Window, e: Time, t: Time)
    requires AllValid(ws) && w in ws && v in ws && Fires(EndRule(w), e) && t + 1 == e
    requires Covers(w, t) && Covers(v, e)
    ensures CoveredBy(ws, t) && NextTurn(ws, t) == Some(e) && CoveredBy(ws, e) && !WakesForReal(ws, t)
  {
    EndIsAnnounced(ws, w, e, t);
  }
}
