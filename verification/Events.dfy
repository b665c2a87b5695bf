/**
 The upcoming-events listing: the evaluator run forward from event to event.
 */
module Events {
  import opened Wrappers
  import opened Calendar
  import opened Windows
  import opened Schedule
  import opened Turns

  datatype Operation = Hibernate | WakeUp

  /** `delay` is measured from the instant the listing was asked for. */
  datatype ScheduleEvent = ScheduleEvent(time: Time, operation: Operation, delay: int)

  /** When to look again, from `now`: at the next event, or at the end of the grace period. */
  function NextRequeue(r: EvaluationResult, now: Time, buffer: int): int {
    if r.inGracePeriod then
      var duration := (if r.gracePeriodEnd.Some? then r.gracePeriodEnd.value else now) - now;
      (if duration < 0 then 0 else duration) + 10_000_000_000
    else
      var next := if r.shouldHibernate then r.nextWakeUp else r.nextHibernate;
      var duration := (if next.Some? then next.value else now - 1) - now;
      (if duration < 0 then 60_000_000_000 else duration) + buffer + 10_000_000_000
  }

  /** The state just before `t` differs from the state at `t`. */
  ghost predicate Flip(ws: seq<Window>, t: Time) {
    CoveredBy(ws, t) != CoveredBy(ws, t - 1)
  }

  /** The events so far are all the flips after `start` and up to `cursor`, each as announced. */
  ghost predicate ListsFlips(events: seq<ScheduleEvent>, ws: seq<Window>, start: Time, cursor: Time) {
    && Increasing(events)
    && (forall i :: 0 <= i < |events| ==> start < events[i].time <= cursor && TellsFlip(events[i], ws, start))
    && (forall t :: start < t <= cursor && Flip(ws, t) ==> exists i :: 0 <= i < |events| && events[i].time == t)
  }

  ghost predicate TellsFlip(e: ScheduleEvent, ws: seq<Window>, start: Time) {
    && Flip(ws, e.time)
    && (e.operation == Hibernate <==> CoveredBy(ws, e.time))
    && e.delay == e.time - start
  }

  /** Neighbouring events name opposite operations. */
  ghost predicate Alternates(events: seq<ScheduleEvent>) {
    forall i, j :: 0 <= i && j == i + 1 && j < |events| ==> events[i].operation != events[j].operation
  }

  /** With no flip in between, the operations of two events differ. */
  lemma {:induction false} ListedEventsAlternate(events: seq<ScheduleEvent>, ws: seq<Window>, start: Time, cursor: Time)
    requires ListsFlips(events, ws, start, cursor)
    ensures Alternates(events)
  {
    forall i, j | 0 <= i && j == i + 1 && j < |events|
      ensures events[i].operation != events[j].operation
    {
      var a, b := events[i].time, events[j].time;
      forall t | a < t <= b - 1
        ensures !Flip(ws, t)
      {
        NothingBetween(events, ws, start, cursor, i, t);
      }
      SteadyBetweenFlips(ws, a, b - 1);
      assert TellsFlip(events[i], ws, start) && TellsFlip(events[j], ws, start);
    }
  }

  lemma {:induction false} NothingBetween(
    events: seq<ScheduleEvent>, ws: seq<Window>, start: Time, cursor: Time, i: nat, t: Time)
    requires ListsFlips(events, ws, start, cursor) && i + 1 < |events| && events[i].time < t < events[i + 1].time
    ensures !Flip(ws, t)
  {
    assert forall k :: 0 <= k < |events| ==>
      && (k < i ==> events[k].time < events[i].time)
      && (k > i + 1 ==> events[i + 1].time < events[k].time);
  }

  lemma {:induction false} SteadyBetweenFlips(ws: seq<Window>, a: Time, b: Time)
    requires a <= b && forall t :: a < t <= b ==> !Flip(ws, t)
    ensures CoveredBy(ws, a) == CoveredBy(ws, b)
    decreases b - a
  {
    if a < b {
      SteadyBetweenFlips(ws, a, b - 1);
      assert !Flip(ws, b);
    }
  }

  /** Valid windows, none of which ends inside another. */
  ghost predicate ClearWindows(ws: seq<Window>) {
    ws != [] && AllValid(ws) && EndsClear(ws)
  }

  lemma {:induction false} QuietBeforeTurn(ws: seq<Window>, cursor: Time, t: Time)
    requires ClearWindows(ws)
    requires NextTurn(ws, cursor).Some? && cursor < t < NextTurn(ws, cursor).value
    ensures !Flip(ws, t)
  {
    SteadyUntilTurn(ws, cursor, t);
    SteadyUntilTurn(ws, cursor, t - 1);
  }

  /** No flip lies within ten seconds after a change: changes fall on whole minutes. */
  lemma {:induction false} QuietAfterTurn(ws: seq<Window>, cursor: Time, t: Time)
    requires ClearWindows(ws)
    requires NextTurn(ws, cursor).Some?
    requires NextTurn(ws, cursor).value < t <= NextTurn(ws, cursor).value + 10_000_000_000
    ensures !Flip(ws, t)
  {
    var n := NextTurn(ws, cursor).value;
    SteadyAfterTurn(ws, cursor, n, t);
    SteadyAfterTurn(ws, cursor, n, t - 1);
  }

  lemma {:induction false} FlipAtTurn(ws: seq<Window>, cursor: Time)
    requires ClearWindows(ws)
    ensures NextTurn(ws, cursor).Some? && cursor < NextTurn(ws, cursor).value
    ensures Flip(ws, NextTurn(ws, cursor).value)
    ensures CoveredBy(ws, NextTurn(ws, cursor).value) <==> !CoveredBy(ws, cursor)
  {
    TurnIsFlip(ws, cursor);
    var n := NextTurn(ws, cursor).value;
    SteadyUntilTurn(ws, cursor, n - 1);
  }

  ghost function NextEvent(ws: seq<Window>, start: Time, cursor: Time): ScheduleEvent
    requires NextTurn(ws, cursor).Some?
  {
    var f := NextTurn(ws, cursor).value;
    ScheduleEvent(f, if CoveredBy(ws, cursor) then WakeUp else Hibernate, f - start)
  }

  /** Appending the announced event and moving on keeps the list exact. */
  lemma {:induction false} ListStep(events: seq<ScheduleEvent>, ws: seq<Window>, start: Time, cursor: Time)
    requires ClearWindows(ws) && start <= cursor && ListsFlips(events, ws, start, cursor)
    ensures NextTurn(ws, cursor).Some?
    ensures
      var e := NextEvent(ws, start, cursor);
      ListsFlips(events + [e], ws, start, e.time + 10_000_000_000)
  {
    FlipAtTurn(ws, cursor);
    var e := NextEvent(ws, start, cursor);
    var f, after := e.time, events + [e];
    assert TellsFlip(e, ws, start);
    forall t | start < t <= f + 10_000_000_000 && Flip(ws, t)
      ensures exists i :: 0 <= i < |after| && after[i].time == t
    {
      if t <= cursor {
        var i :| 0 <= i < |events| && events[i].time == t;
        assert after[i].time == t;
      } else if t < f {
        QuietBeforeTurn(ws, cursor, t);
      } else if t > f {
        QuietAfterTurn(ws, cursor, t);
      } else {
        assert after[|events|].time == t;
      }
    }
  }

  lemma {:induction false} ListsFlipsUpTo(events: seq<ScheduleEvent>, ws: seq<Window>, start: Time, cursor: Time)
    requires ListsFlips(events, ws, start, cursor) && start <= cursor
    ensures ListsFlips(events, ws, start, if events == [] then start else events[|events| - 1].time)
    ensures Alternates(events)
  {
    ListedEventsAlternate(events, ws, start, cursor);
  }

  // ----- Any schedule

  lemma {:induction false} NoGraceWithoutBuffer(ws: seq<Window>, now: Time)
    ensures !EvalAll(ws, now, 0).inGracePeriod
  {
    if |ws| > 1 {
      NoGraceWithoutBuffer(ws[..|ws| - 1], now);
    }
  }

  /** What the evaluator has to say: an error, nothing, or a later event. */
  datatype Outlook = Failed | Nothing | Found(event: ScheduleEvent)

  ghost function Announcement(base: seq<Window>, es: seq<Option<Exception>>, start: Time, cursor: Time): Outlook {
    OutlookOf(Evaluation(base, FilterActive(es, cursor), cursor, 0), start, cursor)
  }

  ghost function OutlookOf(r: Option<EvaluationResult>, start: Time, cursor: Time): Outlook {
    if r.None? then Failed
    else
      var next := if r.value.shouldHibernate then r.value.nextWakeUp else r.value.nextHibernate;
      if next.None? || next.value <= cursor then Nothing
      else Found(ScheduleEvent(next.value, if r.value.shouldHibernate then WakeUp else Hibernate, next.value - start))
  }

  ghost function Announcer(base: seq<Window>, es: seq<Option<Exception>>, start: Time): Time -> Outlook {
    cursor => Announcement(base, es, start, cursor)
  }

  /** Without a buffer the cursor comes to rest ten seconds after the announced event. */
  lemma {:induction false} CursorAfterEvent(base: seq<Window>, es: seq<Exception>, cursor: Time)
    ensures
      var r := Evaluation(base, es, cursor, 0);
      r.Some? ==>
        var next := if r.value.shouldHibernate then r.value.nextWakeUp else r.value.nextHibernate;
        next.Some? && cursor < next.value ==> cursor + NextRequeue(r.value, cursor, 0) == next.value + 10_000_000_000
  {
    var rep, ext := Merged(es, Replace), Merged(es, Extend);
    NoGraceWithoutBuffer(if rep.Some? then rep.value.windows else base, cursor);
    if ext.Some? {
      NoGraceWithoutBuffer(ext.value.windows, cursor);
    }
  }

  /** Where the evaluator stands before event `i`. */
  ghost function CursorBefore(events: seq<ScheduleEvent>, start: Time, i: nat): Time
    requires i <= |events|
  {
    if i == 0 then start else events[i - 1].time + 10_000_000_000
  }

  ghost predicate Increasing(events: seq<ScheduleEvent>) {
    forall i, j :: 0 <= i < j < |events| ==> events[i].time < events[j].time
  }

  /** Each event is what is announced ten seconds after the event before it. */
  ghost predicate Chained(events: seq<ScheduleEvent>, announce: Time -> Outlook, start: Time) {
    forall i {:trigger CursorBefore(events, start, i)} ::
      0 <= i < |events| ==> announce(CursorBefore(events, start, i)) == Found(events[i])
  }

  lemma {:induction false} ChainStep(
    events: seq<ScheduleEvent>, announce: Time -> Outlook, start: Time, e: ScheduleEvent)
    requires Chained(events, announce, start) && announce(CursorBefore(events, start, |events|)) == Found(e)
    ensures Chained(events + [e], announce, start)
  {
    var after := events + [e];
    forall i | 0 <= i < |after|
      ensures announce(CursorBefore(after, start, i)) == Found(after[i])
    {
      assert CursorBefore(after, start, i) == CursorBefore(events, start, i);
    }
  }

  /** If only later events are announced, a chain runs strictly forward. */
  lemma {:induction false} ChainGrows(
    events: seq<ScheduleEvent>, announce: Time -> Outlook, start: Time, i: nat, j: nat)
    requires Chained(events, announce, start) && i < j < |events|
    requires forall c: Time :: announce(c).Found? ==> c < announce(c).event.time
    ensures events[i].time < events[j].time
  {
    assert announce(CursorBefore(events, start, j)) == Found(events[j]);
    if i < j - 1 {
      ChainGrows(events, announce, start, i, j - 1);
    }
  }

  /** Without exceptions the announced event is the next turn of the windows. */
  lemma {:induction false} PlainAnnouncement(base: seq<Window>, start: Time, cursor: Time)
    requires base != [] && AllValid(base)
    ensures NextTurn(base, cursor).Some?
    ensures Announcement(base, [], start, cursor) == Found(NextEvent(base, start, cursor))
  {
    TurnOutlook(base, start, cursor);
    PlainEvaluation(base, cursor);
  }

  lemma {:induction false} TurnOutlook(base: seq<Window>, start: Time, cursor: Time)
    requires base != [] && AllValid(base)
    ensures NextTurn(base, cursor).Some?
    ensures OutlookOf(Some(EvalAll(base, cursor, 0)), start, cursor) == Found(NextEvent(base, start, cursor))
  {
    SteadyUntilTurn(base, cursor, cursor);
    TellsState(base, cursor);
    OutlookIs(EvalAll(base, cursor, 0), CoveredBy(base, cursor), NextTurn(base, cursor).value, start, cursor);
  }

  lemma {:induction false} TellsState(base: seq<Window>, cursor: Time)
    requires AllValid(base)
    ensures EvalAll(base, cursor, 0).shouldHibernate <==> CoveredBy(base, cursor)
  {
    EvalAllMeaning(base, cursor);
  }

  lemma {:induction false} OutlookIs(r: EvaluationResult, on: bool, n: Time, start: Time, cursor: Time)
    requires r.shouldHibernate == on && (if on then r.nextWakeUp else r.nextHibernate) == Some(n) && cursor < n
    ensures OutlookOf(Some(r), start, cursor) == Found(ScheduleEvent(n, if on then WakeUp else Hibernate, n - start))
  {
  }

  lemma {:induction false} PlainEvaluation(base: seq<Window>, cursor: Time)
    requires AllValid(base)
    ensures Evaluation(base, FilterActive([], cursor), cursor, 0) == Some(EvalAll(base, cursor, 0))
  {
    assert OfKind([], Replace) == [] && OfKind([], Extend) == [] && OfKind([], Suspend) == [];
  }

  lemma {:induction false} PlainStep(base: seq<Window>, start: Time, cursor: Time, events: seq<ScheduleEvent>)
    requires ClearWindows(base) && start <= cursor && ListsFlips(events, base, start, cursor)
    ensures
      var o := Announcer(base, [], start)(cursor);
      o.Found? && ListsFlips(events + [o.event], base, start, o.event.time + 10_000_000_000)
  {
    PlainAnnouncement(base, start, cursor);
    ListStep(events, base, start, cursor);
  }

  /** The event announced from `start` is a flip of the evaluated state. */
  ghost predicate AnnouncesFlip(base: seq<Window>, start: Time) {
    var o := Announcement(base, [], start, start);
    o.Found? && TellsFlip(o.event, base, start)
  }

  /** Without exceptions every announced event is a flip exactly when no window ends inside another. */
  lemma {:induction false} AnnouncedIsFlipIff(base: seq<Window>)
    requires base != [] && AllValid(base)
    ensures (forall start :: AnnouncesFlip(base, start)) <==> EndsClear(base)
  {
    if EndsClear(base) {
      forall start
        ensures AnnouncesFlip(base, start)
      {
        PlainAnnouncement(base, start, start);
        FlipAtTurn(base, start);
      }
    } else {
      var w, v, d :| w in base && v in base && d in w.days && OnAt(v, d, w.end);
      var t := FalseWakeUp(base, w, v, d);
      PlainAnnouncement(base, t, t);
      assert !AnnouncesFlip(base, t);
    }
  }

  /** One step: the outlook from the cursor, and where the cursor moves. */
  method Step(base: seq<Window>, es: seq<Option<Exception>>, start: Time, cursor: Time)
    returns (o: Outlook, next: Time)
    ensures o == Announcer(base, es, start)(cursor)
    ensures o.Failed? <==> Evaluation(base, FilterActive(es, cursor), cursor, 0).None?
    ensures o.Found? ==> cursor < o.event.time && next == o.event.time + 10_000_000_000
  {
    next := cursor;
    var result := Evaluate(base, es, cursor, 0);
    if result.None? {
      return Failed, cursor;
    }
    CursorAfterEvent(base, FilterActive(es, cursor), cursor);
    var r := result.value;
    var event := if r.shouldHibernate then r.nextWakeUp else r.nextHibernate;
    if event.None? || event.value <= cursor {
      return Nothing, cursor;
    }
    o := Found(ScheduleEvent(event.value, if r.shouldHibernate then WakeUp else Hibernate, event.value - start));
    next := cursor + NextRequeue(r, cursor, 0);
  }

  /** The list stops short only where the evaluator announces nothing. */
  ghost predicate Complete(
    events: seq<ScheduleEvent>, announce: Time -> Outlook, start: Time, count: int)
  {
    |events| < count ==> announce(CursorBefore(events, start, |events|)) == Nothing
  }

  /** Following the announcements, the evaluator fails before `count` events are listed. */
  ghost predicate FailsWithin(announce: Time -> Outlook, start: Time, count: int) {
    exists events :: Chained(events, announce, start) && FailsAfter(events, announce, start, count)
  }

  ghost predicate FailsAfter(events: seq<ScheduleEvent>, announce: Time -> Outlook, start: Time, count: int) {
    |events| < count && announce(CursorBefore(events, start, |events|)) == Failed
  }

  /** Chains only ever differ in length. */
  lemma {:induction false} ChainsAgree(
    a: seq<ScheduleEvent>, b: seq<ScheduleEvent>, announce: Time -> Outlook, start: Time, i: nat)
    requires Chained(a, announce, start) && Chained(b, announce, start) && i <= |a| && i <= |b|
    ensures a[..i] == b[..i] && CursorBefore(a, start, i) == CursorBefore(b, start, i)
  {
    if i > 0 {
      ChainsAgree(a, b, announce, start, i - 1);
      assert announce(CursorBefore(a, start, i - 1)) == Found(a[i - 1]);
      assert announce(CursorBefore(b, start, i - 1)) == Found(b[i - 1]);
      assert a[..i] == a[..i - 1] + [a[i - 1]] && b[..i] == b[..i - 1] + [b[i - 1]];
    }
  }

  /** A complete list rules a failure out. */
  lemma {:induction false} CompleteMeansNoFailure(
    events: seq<ScheduleEvent>, announce: Time -> Outlook, start: Time, count: int)
    requires Chained(events, announce, start) && Complete(events, announce, start, count)
    requires |events| <= count || events == []
    ensures !FailsWithin(announce, start, count)
  {
    forall other | Chained(other, announce, start)
      ensures !FailsAfter(other, announce, start, count)
    {
      var i := if |events| < |other| then |events| else |other|;
      ChainsAgree(events, other, announce, start, i);
      if |events| > |other| {
        assert announce(CursorBefore(events, start, i)) == Found(events[i]);
      } else if |events| < |other| {
        assert announce(CursorBefore(other, start, i)) == Found(other[i]);
      }
    }
  }

  lemma {:induction false} AnnouncedIsLater(base: seq<Window>, es: seq<Option<Exception>>, start: Time, c: Time)
    ensures Announcer(base, es, start)(c).Found? ==> c < Announcer(base, es, start)(c).event.time
  {
  }

  /**
   Lists the next `count` events, or fails if the evaluator fails on the way. Each event is what the
   evaluator announces after the one before, and times strictly increase. For windows none of which
   ends inside another, and no exceptions, these are exactly the next `count` flips of the evaluated
   state, alternating in operation.
   */
  method ComputeUpcomingEvents(base: seq<Window>, es: seq<Option<Exception>>, start: Time, count: int)
    returns (r: Option<seq<ScheduleEvent>>)
    ensures r.None? <==> base == [] || FailsWithin(Announcer(base, es, start), start, count)
    ensures r.Some? ==> Chained(r.value, Announcer(base, es, start), start)
    ensures r.Some? ==> Complete(r.value, Announcer(base, es, start), start, count)
    ensures r.Some? ==> |r.value| <= count || r.value == []
    ensures r.Some? ==> Increasing(r.value)
    ensures ClearWindows(base) && es == [] ==>
      && r.Some? && |r.value| == (if count < 0 then 0 else count)
      && ListsFlips(r.value, base, start, if r.value == [] then start else r.value[|r.value| - 1].time)
      && Alternates(r.value)
  {
    if |base| == 0 {
      return None;
    }
    var ok, events, cursor := ListEvents(base, es, start, count);
    if !ok {
      return None;
    }
    CompleteMeansNoFailure(events, Announcer(base, es, start), start, count);
    EventsGrow(base, es, start, events);
    if ClearWindows(base) && es == [] {
      ListsFlipsUpTo(events, base, start, cursor);
    }
    return Some(events);
  }

  lemma {:induction false} EventsGrow(
    base: seq<Window>, es: seq<Option<Exception>>, start: Time, events: seq<ScheduleEvent>)
    requires Chained(events, Announcer(base, es, start), start)
    ensures Increasing(events)
  {
    var announce := Announcer(base, es, start);
    forall c: Time
      ensures announce(c).Found? ==> c < announce(c).event.time
    {
      AnnouncedIsLater(base, es, start, c);
    }
    forall i, j | 0 <= i < j < |events|
      ensures events[i].time < events[j].time
    {
      ChainGrows(events, announce, start, i, j);
    }
  }

  /** The loop: append the next event, move the cursor past it. */
  method ListEvents(base: seq<Window>, es: seq<Option<Exception>>, start: Time, count: int)
    returns (ok: bool, events: seq<ScheduleEvent>, cursor: Time)
    ensures !ok ==> FailsWithin(Announcer(base, es, start), start, count)
    ensures ok ==> Chained(events, Announcer(base, es, start), start)
    ensures ok ==> Complete(events, Announcer(base, es, start), start, count)
    ensures ok ==> |events| <= count || events == []
    ensures ClearWindows(base) && es == [] ==>
      && ok && |events| == (if count < 0 then 0 else count)
      && start <= cursor && ListsFlips(events, base, start, cursor)
  {
    ok, events, cursor := true, [], start;
    while |events| < count
      invariant |events| <= count || events == []
      invariant start <= cursor == CursorBefore(events, start, |events|)
      invariant Chained(events, Announcer(base, es, start), start)
      invariant ClearWindows(base) && es == [] ==> ListsFlips(events, base, start, cursor)
      decreases count - |events|
    {
      if ClearWindows(base) && es == [] {
        PlainStep(base, start, cursor, events);
      }
      var o, next := Step(base, es, start, cursor);
      if o.Failed? {
        assert FailsAfter(events, Announcer(base, es, start), start, count);
        return false, [], cursor;
      }
      if o.Nothing? {
        return;
      }
      ChainStep(events, Announcer(base, es, start), start, o.event);
      events := events + [o.event];
      cursor := next;
    }
  }
}
