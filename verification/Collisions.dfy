/**
 The webhook's collision test between two lists of windows, which decides from minute ranges what
 the scheduler's membership test decides at single instants.
 */
module Collisions {
  import opened Calendar
  import opened Windows

  datatype Span = Span(start: int, end: int)

  /** One half-open range, or two for an overnight window; equal boundaries give none. */
  function ExpandTimeRange(start: Minute, end: Minute): seq<Span> {
    if start < end then [Span(start, end)]
    else if start == end then []
    else [Span(start, 1440), Span(0, end)]
  }

  predicate TimeRangesOverlap(a: Window, b: Window) {
    exists x, y :: x in ExpandTimeRange(a.start, a.end) && y in ExpandTimeRange(b.start, b.end) &&
      x.start < y.end && y.start < x.end
  }

  predicate WindowPairCollides(a: Window, b: Window) {
    a.days * b.days != {} && TimeRangesOverlap(a, b)
  }

  predicate WindowsCollide(a: seq<Window>, b: seq<Window>) {
    exists x, y :: x in a && y in b && WindowPairCollides(x, y)
  }

  /** A minute is in a window exactly when one of the window's ranges holds it. */
  lemma {:induction false} SpansHoldMinutes(w: Window, m: Minute)
    requires w.start != w.end
    ensures ContainsMinute(w, m) <==> exists s :: s in ExpandTimeRange(w.start, w.end) && s.start <= m < s.end
  {
    var spans := ExpandTimeRange(w.start, w.end);
    if w.start < w.end {
      assert spans[0] in spans;
    } else {
      assert spans[0] in spans && spans[1] in spans;
    }
  }

  lemma {:induction false} OverlapHasMinute(a: Window, b: Window) returns (m: Minute)
    requires a.start != a.end && b.start != b.end && TimeRangesOverlap(a, b)
    ensures ContainsMinute(a, m) && ContainsMinute(b, m)
  {
    var x, y :| x in ExpandTimeRange(a.start, a.end) && y in ExpandTimeRange(b.start, b.end) &&
      x.start < y.end && y.start < x.end;
    m := if x.start < y.start then y.start else x.start;
    SpansHoldMinutes(a, m);
    SpansHoldMinutes(b, m);
  }

  lemma {:induction false} CommonMinuteOverlaps(a: Window, b: Window, m: Minute)
    requires a.start != a.end && b.start != b.end && ContainsMinute(a, m) && ContainsMinute(b, m)
    ensures TimeRangesOverlap(a, b)
  {
    SpansHoldMinutes(a, m);
    SpansHoldMinutes(b, m);
    var x :| x in ExpandTimeRange(a.start, a.end) && x.start <= m < x.end;
    var y :| y in ExpandTimeRange(b.start, b.end) && y.start <= m < y.end;
  }

  lemma {:induction false} OverlapIsCommonMinute(a: Window, b: Window)
    requires a.start != a.end && b.start != b.end
    ensures TimeRangesOverlap(a, b) <==> exists m: Minute :: ContainsMinute(a, m) && ContainsMinute(b, m)
  {
    if TimeRangesOverlap(a, b) {
      var m := OverlapHasMinute(a, b);
    }
    if m: Minute :| ContainsMinute(a, m) && ContainsMinute(b, m) {
      CommonMinuteOverlaps(a, b, m);
    }
  }

  /** Every weekday has an instant at every minute. */
  lemma {:induction false} SomeInstant(d: Weekday, m: Minute) returns (t: Time)
    ensures WeekdayOf(DayOf(t)) == d && MinuteOf(t) == m
  {
    t := Instant(d + 3, m);
    InstantParts(d + 3, m);
  }

  predicate ProperWindow(w: Window) {
    w.start != w.end
  }

  /** Two windows collide exactly when both have different boundaries and some instant is in both. */
  lemma {:induction false} PairCollisionIsExact(x: Window, y: Window)
    ensures WindowPairCollides(x, y) <==>
      ProperWindow(x) && ProperWindow(y) && exists t :: InWindow(x, t) && InWindow(y, t)
  {
    if ProperWindow(x) && ProperWindow(y) {
      OverlapIsCommonMinute(x, y);
      if WindowPairCollides(x, y) {
        var m: Minute :| ContainsMinute(x, m) && ContainsMinute(y, m);
        var d :| d in x.days * y.days;
        var t := SomeInstant(d, m);
        assert InWindow(x, t) && InWindow(y, t);
      }
      if t :| InWindow(x, t) && InWindow(y, t) {
        assert WeekdayOf(DayOf(t)) in x.days * y.days;
        assert ContainsMinute(x, MinuteOf(t)) && ContainsMinute(y, MinuteOf(t));
      }
    }
  }

  /**
   A collision of two lists implies a common instant; for lists of windows with different
   boundaries it is nothing else.
   */
  lemma {:induction false} CollisionIsExact(a: seq<Window>, b: seq<Window>)
    ensures WindowsCollide(a, b) ==> exists t :: InAny(a, t) && InAny(b, t)
    ensures (forall w :: w in a || w in b ==> ProperWindow(w)) ==>
      (WindowsCollide(a, b) <==> exists t :: InAny(a, t) && InAny(b, t))
  {
    if WindowsCollide(a, b) {
      var x, y :| x in a && y in b && WindowPairCollides(x, y);
      PairCollisionIsExact(x, y);
      var t :| InWindow(x, t) && InWindow(y, t);
      assert InAny(a, t) && InAny(b, t);
    }
    if t :| InAny(a, t) && InAny(b, t) {
      var x :| x in a && InWindow(x, t);
      var y :| y in b && InWindow(y, t);
      PairCollisionIsExact(x, y);
    }
  }

  /** Equal boundaries tell the two tests apart: no collision, yet the scheduler is inside all day. */
  lemma {:induction false} EqualBoundariesDisagree(m: Minute, t: Time)
    ensures
      var w := Window(m, m, {WeekdayOf(DayOf(t))});
      InAny([w], t) && !WindowsCollide([w], [w])
  {
    var w := Window(m, m, {WeekdayOf(DayOf(t))});
    assert w in [w] && InWindow(w, t);
  }
}
