/**
 Error recovery: exponential backoff and the retry budget, over runs of the recovery handler.

 Durations are signed 64-bit nanoseconds, as in the source, so that the absence of overflow is
 checked. How an error is classified is an input.
 */
module Recovery {
  import opened Wrappers

  newtype int64 = x: int | -0x8000_0000_0000_0000 <= x < 0x8000_0000_0000_0000

  datatype Classification = Transient | Permanent | ExecutionFailed | Unknown

  const MINUTE: int64 := 60_000_000_000
  const MAX_BACKOFF: int64 := 1_800_000_000_000

  ghost function Power2(n: nat): int {
    if n == 0 then 1 else 2 * Power2(n - 1)
  }

  lemma {:induction false} Power2Grows(n: nat, m: nat)
    requires n <= m
    ensures 1 <= Power2(n) <= Power2(m)
  {
    if n < m {
      Power2Grows(n, m - 1);
    } else if n > 0 {
      Power2Grows(n - 1, n - 1);
    }
  }

  /** min(1 minute * 2^attempt, 30 minutes), attempts below zero counting as zero. */
  ghost function Backoff(attempt: int): int {
    var b := 60_000_000_000 * Power2(if attempt < 0 then 0 else attempt);
    if b < 1_800_000_000_000 then b else 1_800_000_000_000
  }

  /** The doubling loop, which leaves as soon as the cap is reached and so cannot overflow. */
  method CalculateBackoff(attempt: int) returns (backoff: int64)
    ensures backoff as int == Backoff(attempt)
  {
    var n := if attempt < 0 then 0 else attempt;
    var multiplier: int64 := 1;
    var i := 0;
    while i < n
      invariant 0 <= i <= n
      invariant 1 <= multiplier <= 30 && multiplier as int == Power2(i)
      invariant multiplier * MINUTE < MAX_BACKOFF
    {
      multiplier := multiplier * 2;
      i := i + 1;
      if multiplier * MINUTE >= MAX_BACKOFF {
        Power2Grows(i, n);
        return MAX_BACKOFF;
      }
    }
    backoff := multiplier * MINUTE;
    if backoff > MAX_BACKOFF {
      backoff := MAX_BACKOFF;
    }
  }

  lemma {:induction false} BackoffGrows(a: nat, b: nat)
    requires a <= b
    ensures 60_000_000_000 <= Backoff(a) <= Backoff(b) <= 1_800_000_000_000
  {
    Power2Grows(0, a);
    Power2Grows(a, b);
  }

  /** One minute at first, doubled with every attempt, never more than half an hour. */
  lemma {:induction false} BackoffDoubles(n: nat)
    ensures Backoff(0) == 60_000_000_000
    ensures Backoff(n + 1) == if 2 * Backoff(n) < 1_800_000_000_000 then 2 * Backoff(n) else 1_800_000_000_000
    ensures forall k: int :: k < 0 ==> Backoff(k) == Backoff(0)
  {
    Power2Grows(0, n);
  }

  // ----- The plan's retry status

  datatype RetryStatus = RetryStatus(retryCount: int, lastRetryTime: Option<int>)

  datatype Strategy = Abort | WaitFor(duration: int) | RetryNow

  ghost function Determine(s: RetryStatus, maxRetries: int, classification: Classification, now: int): Strategy {
    if s.retryCount >= maxRetries then Abort
    else if classification == Permanent then Abort
    else if s.lastRetryTime.Some? && now - s.lastRetryTime.value < Backoff(s.retryCount) then
      WaitFor(Backoff(s.retryCount) - (now - s.lastRetryTime.value))
    else RetryNow
  }

  /** A call within five seconds of the last recorded one is taken for a duplicate. */
  function Recorded(s: RetryStatus, now: int): RetryStatus {
    if s.lastRetryTime.Some? && now - s.lastRetryTime.value < 5_000_000_000 then s
    else RetryStatus(s.retryCount + 1, Some(now))
  }

  class Plan {
    var status: RetryStatus
    var errorMessage: string

    constructor ()
      ensures status == RetryStatus(0, None) && errorMessage == ""
    {
      status, errorMessage := RetryStatus(0, None), "";
    }

    method DetermineRecoveryStrategy(maxRetries: int, classification: Classification, now: int) returns (r: Strategy)
      ensures r == Determine(status, maxRetries, classification, now)
      ensures r == Abort <==> classification == Permanent || status.retryCount >= maxRetries
      ensures r.WaitFor? ==>
        && r.duration > 0 && status.lastRetryTime.Some?
        && now + r.duration == status.lastRetryTime.value + Backoff(status.retryCount)
      ensures r == RetryNow ==>
        status.lastRetryTime.Some? ==> now >= status.lastRetryTime.value + Backoff(status.retryCount)
    {
      if status.retryCount >= maxRetries { return Abort; }
      if classification == Permanent { return Abort; }
      var backoff := CalculateBackoff(status.retryCount);
      if status.lastRetryTime.Some? {
        var elapsed := now - status.lastRetryTime.value;
        if elapsed < backoff as int {
          return WaitFor(backoff as int - elapsed);
        }
      }
      return RetryNow;
    }

    method RecordRetryAttempt(now: int, error: Option<string>) returns (recorded: bool)
      modifies this
      ensures status == Recorded(old(status), now)
      ensures recorded <==> !(old(status).lastRetryTime.Some? && now < old(status).lastRetryTime.value + 5_000_000_000)
      ensures recorded ==> status.retryCount == old(status).retryCount + 1 && status.lastRetryTime == Some(now)
      ensures !recorded ==> status == old(status)
      ensures errorMessage ==
        if error.Some? then error.value else if recorded then "unknown error" else old(errorMessage)
    {
      if status.lastRetryTime.Some? && now - status.lastRetryTime.value < 5_000_000_000 {
        if error.Some? { errorMessage := error.value; }
        return false;
      }
      status := RetryStatus(status.retryCount + 1, Some(now));
      errorMessage := if error.Some? then error.value else "unknown error";
      return true;
    }
  }

  // ----- Runs of the handler

  /**
   The handler decides from the status; the status writer records the attempt later. A manual retry
   resets the status.
   */
  datatype Event = Decide(classification: Classification, now: int) | Record(now: int) | Reset

  /** The plan's status, and when the decisions were taken that are still to be recorded. */
  datatype Handler = Handler(status: RetryStatus, decided: seq<int>)

  ghost function Step(h: Handler, maxRetries: int, e: Event): Handler {
    match e
    case Decide(classification, now) =>
      if Determine(h.status, maxRetries, classification, now) == RetryNow then h.(decided := h.decided + [now]) else h
    case Record(now) =>
      if h.decided == [] then h else Handler(Recorded(h.status, now), h.decided[1..])
    case Reset => h.(status := RetryStatus(0, None))
  }

  ghost function Run(maxRetries: int, events: seq<Event>): Handler {
    if events == [] then Handler(RetryStatus(0, None), [])
    else Step(Run(maxRetries, events[..|events| - 1]), maxRetries, events[|events| - 1])
  }

  /** When the retries since the last reset were recorded. */
  ghost function RetryTimes(maxRetries: int, events: seq<Event>): seq<int> {
    if events == [] || events[|events| - 1].Reset? then []
    else
      var n := |events| - 1;
      RetryTimes(maxRetries, events[..n]) +
      if Run(maxRetries, events).status == Run(maxRetries, events[..n]).status then [] else [events[n].now]
  }

  /** At no time more than `p` decisions wait to be recorded, and none is recorded before it was taken. */
  ghost predicate Orderly(maxRetries: int, events: seq<Event>, p: nat) {
    events == [] ||
    var n := |events| - 1;
    var before := Run(maxRetries, events[..n]);
    && Orderly(maxRetries, events[..n], p)
    && |Run(maxRetries, events).decided| <= p
    && (events[n].Record? && before.decided != [] ==> before.decided[0] <= events[n].now)
  }

  /** Each retry comes no sooner after the one before than the backoff of its attempt. */
  ghost predicate Spaced(times: seq<int>) {
    forall i, j :: 0 <= i && j == i + 1 && j < |times| ==> times[j] - times[i] >= Backoff(j)
  }

  /** The status counts the recorded retries and knows the last of them. */
  ghost predicate Counts(s: RetryStatus, times: seq<int>) {
    s.retryCount == |times| && s.lastRetryTime == if times == [] then None else Some(times[|times| - 1])
  }

  lemma {:induction false} StatusCounts(maxRetries: int, events: seq<Event>)
    ensures Counts(Run(maxRetries, events).status, RetryTimes(maxRetries, events))
  {
    if events != [] {
      StatusCounts(maxRetries, events[..|events| - 1]);
    }
  }

  /** Told to wait, and asked again after exactly that time, the handler retries. */
  lemma {:induction false} WaitingPaysOff(s: RetryStatus, maxRetries: int, classification: Classification, now: int)
    requires Determine(s, maxRetries, classification, now).WaitFor?
    ensures
      var d := Determine(s, maxRetries, classification, now).duration;
      && Determine(s, maxRetries, classification, now + d) == RetryNow
      && forall t :: now <= t < now + d ==>
           Determine(s, maxRetries, classification, t) == WaitFor(now + d - t)
  {
  }

  /** A permanent error never leads to a retry. */
  lemma {:induction false} PermanentNeverRetries(h: Handler, maxRetries: int, now: int)
    ensures Step(h, maxRetries, Decide(Permanent, now)) == h
  {
  }

  ghost predicate AllPermanent(events: seq<Event>) {
    forall e :: e in events && e.Decide? ==> e.classification == Permanent
  }

  /** A run in which every error is permanent records no retry. */
  lemma {:induction false} PermanentRunsRecordNothing(maxRetries: int, events: seq<Event>)
    requires AllPermanent(events)
    ensures Run(maxRetries, events) == Handler(RetryStatus(0, None), []) && RetryTimes(maxRetries, events) == []
  {
    if events != [] {
      var n := |events| - 1;
      assert events[n] in events && forall e :: e in events[..n] ==> e in events;
      PermanentRunsRecordNothing(maxRetries, events[..n]);
    }
  }

  /** Any other error is retried at once if the budget allows and the backoff is over. */
  lemma {:induction false} OthersAreRetried(h: Handler, maxRetries: int, classification: Classification, now: int)
    requires classification != Permanent && h.status.retryCount < maxRetries
    requires h.status.lastRetryTime.Some? ==> now >= h.status.lastRetryTime.value + Backoff(h.status.retryCount)
    ensures Step(h, maxRetries, Decide(classification, now)) == h.(decided := h.decided + [now])
  {
  }

  /** After a manual reset the next error, unless permanent, is retried at once. */
  lemma {:induction false} ResetRetriesAtOnce(h: Handler, maxRetries: int, classification: Classification, now: int)
    requires classification != Permanent && maxRetries > 0
    ensures
      var h' := Step(Step(h, maxRetries, Reset), maxRetries, Decide(classification, now));
      h'.status == RetryStatus(0, None) && h'.decided == h.decided + [now]
  {
  }

  /** With up to `p` decisions waiting, retries exceed the budget by less than `p`. */
  lemma {:induction false} RetriesNearBudget(maxRetries: int, events: seq<Event>, p: nat)
    requires p > 0 && Orderly(maxRetries, events, p)
    ensures
      var h := Run(maxRetries, events);
      h.status.retryCount + |h.decided| > 0 ==> h.status.retryCount + |h.decided| <= maxRetries + p - 1
  {
    if events != [] {
      RetriesNearBudget(maxRetries, events[..|events| - 1], p);
      StatusCounts(maxRetries, events[..|events| - 1]);
    }
  }

  /** A waiting decision was taken within the budget, after the backoff. */
  ghost predicate DecidedWell(h: Handler, maxRetries: int) {
    h.decided != [] ==>
      && h.status.retryCount < maxRetries
      && (h.status.lastRetryTime.Some? ==> h.decided[0] - h.status.lastRetryTime.value >= Backoff(h.status.retryCount))
  }

  /**
   Whatever the errors and the times, as long as each decision is recorded before the next one is
   taken: retries since the last reset never exceed the budget, and successive ones keep the backoff
   of their attempt number apart.
   */
  lemma {:induction false} RetriesAreBoundedAndSpaced(maxRetries: int, events: seq<Event>)
    requires Orderly(maxRetries, events, 1)
    ensures DecidedWell(Run(maxRetries, events), maxRetries)
    ensures
      var s, times := Run(maxRetries, events).status, RetryTimes(maxRetries, events);
      && Counts(s, times)
      && (times != [] ==> |times| <= maxRetries)
      && Spaced(times)
  {
    if events != [] {
      var n := |events| - 1;
      RetriesAreBoundedAndSpaced(maxRetries, events[..n]);
      var before := Run(maxRetries, events[..n]);
      if events[n].Record? && before.decided != [] {
        BackoffGrows(0, before.status.retryCount);
        SpacedStep(RetryTimes(maxRetries, events[..n]), events[n].now);
      }
    }
  }

  lemma {:induction false} SpacedStep(times: seq<int>, now: int)
    requires Spaced(times) && (times != [] ==> now - times[|times| - 1] >= Backoff(|times|))
    ensures Spaced(times + [now])
  {
  }

  // ----- Decisions that overlap

  /** `k` retries in a row, half an hour apart. */
  ghost function Serial(k: nat): seq<Event> {
    if k == 0 then [] else Serial(k - 1) + [Decide(Transient, k * 1_800_000_000_000), Record(k * 1_800_000_000_000)]
  }

  lemma {:induction false} TwoMore(maxRetries: int, events: seq<Event>, a: Event, b: Event, p: nat)
    requires Orderly(maxRetries, events, p)
    ensures
      var h1 := Step(Run(maxRetries, events), maxRetries, a);
      var h2 := Step(h1, maxRetries, b);
      && Run(maxRetries, events + [a, b]) == h2
      && (Orderly(maxRetries, events + [a, b], p) <==>
            && |h1.decided| <= p && |h2.decided| <= p
            && (a.Record? && Run(maxRetries, events).decided != [] ==> Run(maxRetries, events).decided[0] <= a.now)
            && (b.Record? && h1.decided != [] ==> h1.decided[0] <= b.now))
  {
    var one, two := events + [a], events + [a, b];
    assert one[..|events|] == events && two[..|events| + 1] == one;
  }

  lemma {:induction false} SerialRetries(maxRetries: int, k: nat, p: nat)
    requires k <= maxRetries && p > 0
    ensures Orderly(maxRetries, Serial(k), p)
    ensures Run(maxRetries, Serial(k)) ==
      Handler(RetryStatus(k, if k == 0 then None else Some(k * 1_800_000_000_000)), [])
  {
    if k > 0 {
      SerialRetries(maxRetries, k - 1, p);
      BackoffGrows(0, k - 1);
      var t := k * 1_800_000_000_000;
      TwoMore(maxRetries, Serial(k - 1), Decide(Transient, t), Record(t), p);
    }
  }

  /** Two decisions before either is recorded, for the last attempt in the budget. */
  lemma {:induction false} OverlapExceedsBudget(maxRetries: int, p: nat) returns (events: seq<Event>)
    requires maxRetries > 0 && p > 1
    ensures Orderly(maxRetries, events, p) && Run(maxRetries, events).status.retryCount == maxRetries + 1
  {
    var k := maxRetries - 1;
    var t := maxRetries * 1_800_000_000_000;
    SerialRetries(maxRetries, k, p);
    BackoffGrows(0, k);
    TwoMore(maxRetries, Serial(k), Decide(Transient, t), Decide(Transient, t), p);
    events := Serial(k) + [Decide(Transient, t), Decide(Transient, t)];
    TwoMore(maxRetries, events, Record(t), Record(t + 5_000_000_000), p);
    events := events + [Record(t), Record(t + 5_000_000_000)];
  }

  /** The budget, a negative one counting as none, holds in every run exactly when decisions do not overlap. */
  lemma {:induction false} BudgetHoldsIffSerial(maxRetries: int, p: nat)
    requires p > 0
    ensures p == 1 || maxRetries <= 0 <==>
      forall events :: Orderly(maxRetries, events, p) ==>
        Run(maxRetries, events).status.retryCount <= if maxRetries < 0 then 0 else maxRetries
  {
    if maxRetries <= 0 {
      forall events
        ensures Run(maxRetries, events).status.retryCount <= if maxRetries < 0 then 0 else maxRetries
      {
        NoBudgetNoRetries(maxRetries, events);
      }
    } else if p == 1 {
      forall events | Orderly(maxRetries, events, p)
        ensures Run(maxRetries, events).status.retryCount <= maxRetries
      {
        RetriesNearBudget(maxRetries, events, p);
      }
    } else {
      var events := OverlapExceedsBudget(maxRetries, p);
    }
  }

  lemma {:induction false} NoBudgetNoRetries(maxRetries: int, events: seq<Event>)
    requires maxRetries <= 0
    ensures Run(maxRetries, events) == Handler(RetryStatus(0, None), [])
  {
    if events != [] {
      NoBudgetNoRetries(maxRetries, events[..|events| - 1]);
    }
  }
}
