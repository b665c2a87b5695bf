/**
 Local wall-clock time at a fixed offset, and weekly cron rules on it.

 An instant is a number of nanoseconds since local midnight of 1 January 1970, a Thursday. A rule
 fires at one minute of the day on each of its weekdays; that is the only kind of expression the
 schedule code generates.
 */
module Calendar {
  import opened Wrappers

  type Time = int

  type Minute = m: int | 0 <= m < 1440

  /** Sunday is 0. */
  type Weekday = d: int | 0 <= d < 7

  function DayOf(t: Time): int {
    t / 86_400_000_000_000
  }

  function TimeOfDay(t: Time): int {
    t % 86_400_000_000_000
  }

  function MinuteOf(t: Time): Minute {
    TimeOfDay(t) / 60_000_000_000
  }

  function WeekdayOf(day: int): Weekday {
    (day + 4) % 7
  }

  /** The epoch is a Thursday, and the weekdays follow each other round. */
  lemma {:induction false} WeekdaysGoRound(day: int)
    ensures WeekdayOf(0) == 4 && WeekdayOf(day + 1) == if WeekdayOf(day) == 6 then 0 else WeekdayOf(day) + 1
  {
  }

  lemma {:induction false} WholeWeeks(day: int, weeks: int)
    ensures WeekdayOf(day - 7 * weeks) == WeekdayOf(day)
  {
  }

  /** Two days with the same weekday are whole weeks apart. */
  lemma {:induction false} SameWeekdayApart(a: int, b: int)
    requires WeekdayOf(a) == WeekdayOf(b) && a < b
    ensures a + 7 <= b
  {
    assert (b - a) % 7 == 0;
  }

  function Instant(day: int, minute: int): Time {
    day * 86_400_000_000_000 + minute * 60_000_000_000
  }

  lemma {:induction false} InstantParts(day: int, minute: Minute)
    ensures DayOf(Instant(day, minute)) == day
    ensures TimeOfDay(Instant(day, minute)) == minute * 60_000_000_000
    ensures MinuteOf(Instant(day, minute)) == minute
  {
    var t := Instant(day, minute);
    assert t == day * 86_400_000_000_000 + minute * 60_000_000_000 && 0 <= minute * 60_000_000_000 < 86_400_000_000_000;
  }

  /** Reaching a given minute is a matter of days first and minutes second. */
  lemma {:induction false} InstantReached(day: int, minute: Minute, t: Time)
    ensures Instant(day, minute) <= t <==> day < DayOf(t) || (day == DayOf(t) && minute <= MinuteOf(t))
  {
    assert t == DayOf(t) * 86_400_000_000_000 + TimeOfDay(t) && 0 <= TimeOfDay(t) < 86_400_000_000_000;
    assert TimeOfDay(t) >= MinuteOf(t) * 60_000_000_000 && TimeOfDay(t) < (MinuteOf(t) + 1) * 60_000_000_000;
  }

  // ----- Weekly rules

  datatype Rule = Rule(minute: Minute, days: set<Weekday>)

  predicate Fires(r: Rule, f: Time) {
    WeekdayOf(DayOf(f)) in r.days && f == Instant(DayOf(f), r.minute)
  }

  /** The first listed day from `day` on, looking at most `n` days ahead. */
  function DayAhead(days: set<Weekday>, day: int, n: nat): (r: int)
    ensures day <= r <= day + n
    ensures forall d :: day <= d < r ==> WeekdayOf(d) !in days
    ensures WeekdayOf(r) in days || r == day + n
    decreases n
  {
    if n == 0 || WeekdayOf(day) in days then day else DayAhead(days, day + 1, n - 1)
  }

  /** The last listed day up to `day`, looking at most `n` days back. */
  function DayBack(days: set<Weekday>, day: int, n: nat): (r: int)
    ensures day - n <= r <= day
    ensures forall d :: r < d <= day ==> WeekdayOf(d) !in days
    ensures WeekdayOf(r) in days || r == day - n
    decreases n
  {
    if n == 0 || WeekdayOf(day) in days then day else DayBack(days, day - 1, n - 1)
  }

  /** Every weekday comes up within a week, in either direction. */
  lemma {:induction false} WithinAWeek(days: set<Weekday>, day: int)
    requires days != {}
    ensures WeekdayOf(DayAhead(days, day, 6)) in days
    ensures WeekdayOf(DayBack(days, day, 6)) in days
  {
    var w :| w in days;
    var ahead, back := DaysOn(w, day);
  }

  lemma {:induction false} DaysOn(w: Weekday, day: int) returns (ahead: int, back: int)
    ensures day <= ahead <= day + 6 && WeekdayOf(ahead) == w
    ensures day - 6 <= back <= day && WeekdayOf(back) == w
  {
    var d := WeekdayOf(day);
    ahead := if w >= d then day + (w - d) else day + (w - d) + 7;
    back := if w <= d then day - (d - w) else day - (d - w) - 7;
  }

  /** The least firing strictly after `t`. */
  function Next(r: Rule, t: Time): Time {
    var from := if r.minute > MinuteOf(t) then DayOf(t) else DayOf(t) + 1;
    Instant(DayAhead(r.days, from, 6), r.minute)
  }

  /** The greatest firing up to and including `t`. */
  function Last(r: Rule, t: Time): Time {
    var from := if r.minute <= MinuteOf(t) then DayOf(t) else DayOf(t) - 1;
    Instant(DayBack(r.days, from, 6), r.minute)
  }

  lemma {:induction false} FiringAt(r: Rule, day: int)
    requires WeekdayOf(day) in r.days
    ensures Fires(r, Instant(day, r.minute))
  {
    InstantParts(day, r.minute);
  }

  lemma {:induction false} NextIsLeast(r: Rule, t: Time)
    requires r.days != {}
    ensures Fires(r, Next(r, t)) && t < Next(r, t)
    ensures forall f :: Fires(r, f) && t < f ==> Next(r, t) <= f
  {
    var from := if r.minute > MinuteOf(t) then DayOf(t) else DayOf(t) + 1;
    WithinAWeek(r.days, from);
    var d := DayAhead(r.days, from, 6);
    FiringAt(r, d);
    InstantReached(d, r.minute, t);
    forall f | Fires(r, f) && t < f
      ensures Next(r, t) <= f
    {
      InstantReached(DayOf(f), r.minute, t);
      assert DayOf(f) >= from;
      assert d <= DayOf(f);
    }
  }

  lemma {:induction false} LastIsGreatest(r: Rule, t: Time)
    requires r.days != {}
    ensures Fires(r, Last(r, t)) && Last(r, t) <= t
    ensures forall f :: Fires(r, f) && f <= t ==> f <= Last(r, t)
  {
    var from := if r.minute <= MinuteOf(t) then DayOf(t) else DayOf(t) - 1;
    WithinAWeek(r.days, from);
    var d := DayBack(r.days, from, 6);
    FiringAt(r, d);
    InstantReached(d, r.minute, t);
    forall f | Fires(r, f) && f <= t
      ensures f <= Last(r, t)
    {
      InstantReached(DayOf(f), r.minute, t);
      assert DayOf(f) <= from;
      assert DayOf(f) <= d;
    }
  }

  /** A firing a week before another instant repeats at that instant. */
  lemma {:induction false} FiresWeekly(r: Rule, f: Time)
    requires Fires(r, f)
    ensures Fires(r, f + 7 * 86_400_000_000_000)
  {
    var d := DayOf(f);
    assert f + 7 * 86_400_000_000_000 == Instant(d + 7, r.minute);
    InstantParts(d + 7, r.minute);
    assert WeekdayOf(d + 7) == WeekdayOf(d);
  }

  /** Any two different firings, of whatever rules, lie at least a minute apart. */
  lemma {:induction false} FiringsApart(r: Rule, r': Rule, f: Time, f': Time)
    requires Fires(r, f) && Fires(r', f') && f < f'
    ensures f + 60_000_000_000 <= f'
  {
    InstantParts(DayOf(f), r.minute);
    InstantParts(DayOf(f'), r'.minute);
    assert f == (DayOf(f) * 1440 + r.minute) * 60_000_000_000;
    assert f' == (DayOf(f') * 1440 + r'.minute) * 60_000_000_000;
  }

  /**
   The search for the last firing: forward from a day ago, and if that finds nothing, forward from
   a week ago. It finds the greatest firing up to now for every rule with a day.
   */
  method FindLastOccurrence(r: Rule, now: Time) returns (last: Option<Time>)
    requires r.days != {}
    ensures last == Some(Last(r, now))
    ensures last.Some? && Fires(r, last.value) && last.value <= now
    ensures forall f :: Fires(r, f) && f <= now ==> f <= last.value
  {
    LastIsGreatest(r, now);
    last := SearchFrom(r, now - 86_400_000_000_000, now);
    if last.None? {
      last := SearchFrom(r, now - 7 * 86_400_000_000_000, now);
      var f := Last(r, now);
      if f <= now - 7 * 86_400_000_000_000 {
        FiresWeekly(r, f);
      }
    }
  }

  /** Steps through the firings after `start` and keeps the last one not past `now`. */
  method SearchFrom(r: Rule, start: Time, now: Time) returns (last: Option<Time>)
    requires r.days != {}
    ensures last == if Last(r, now) > start then Some(Last(r, now)) else None
  {
    LastIsGreatest(r, now);
    last := None;
    var current := Next(r, start);
    NextIsLeast(r, start);
    while current <= now
      invariant Fires(r, current) && start < current
      invariant last.Some? ==> Fires(r, last.value) && start < last.value <= now
      invariant forall f :: Fires(r, f) && start < f < current ==> last.Some? && f <= last.value
      decreases now - current
    {
      last := Some(current);
      NextIsLeast(r, current);
      current := Next(r, current);
    }
  }
}
