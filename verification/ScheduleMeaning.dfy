/**
 What the exception pipeline means, and that its next-event times miss nothing.
 */
module ScheduleMeaning {
  import opened Wrappers
  import opened Calendar
  import opened Windows
  import opened Schedule

  // ----- Windows by exception type

  /** `w` belongs to an active exception of the given type. */
  ghost predicate Contributes(es: seq<Option<Exception>>, now: Time, kind: ExceptionType, w: Window) {
    exists e :: Some(e) in es && e.validFrom <= now <= e.validUntil && e.kind == kind && w in e.windows
  }

  ghost predicate HasActive(es: seq<Option<Exception>>, now: Time, kind: ExceptionType) {
    exists e :: Some(e) in es && e.validFrom <= now <= e.validUntil && e.kind == kind
  }

  /** Active from the first to the last instant of the validity, both included. */
  lemma {:induction false} FilterActiveMembers(es: seq<Option<Exception>>, now: Time, e: Exception)
    ensures e in FilterActive(es, now) <==> Some(e) in es && e.validFrom <= now <= e.validUntil
  {
    if es != [] {
      var n := |es| - 1;
      FilterActiveMembers(es[..n], now, e);
      assert es == es[..n] + [es[n]];
    }
  }

  /** In the order of the list: the first exception comes first if it is active, then those of the rest. */
  lemma {:induction false} FilterActiveInOrder(e: Option<Exception>, es: seq<Option<Exception>>, now: Time)
    ensures FilterActive([e] + es, now) ==
      (if e.Some? && e.value.validFrom <= now <= e.value.validUntil then [e.value] else []) + FilterActive(es, now)
  {
    var all := [e] + es;
    if es == [] {
      assert all[..0] == [] && all[0] == e;
    } else {
      var n := |es| - 1;
      FilterActiveInOrder(e, es[..n], now);
      assert all[..n + 1] == [e] + es[..n] && all[n + 1] == es[n];
    }
  }

  lemma {:induction false} OfKindMembers(es: seq<Exception>, kind: ExceptionType, e: Exception)
    ensures e in OfKind(es, kind) <==> e in es && e.kind == kind
  {
    if es != [] {
      var n := |es| - 1;
      OfKindMembers(es[..n], kind, e);
      assert es == es[..n] + [es[n]];
    }
  }

  lemma {:induction false} AbsorbAllMembers(kind: ExceptionType, es: seq<Exception>, w: Window)
    requires es != []
    ensures w in AbsorbAll(kind, es).windows <==> exists e :: e in es && w in e.windows
  {
    var n := |es| - 1;
    var front, last := es[..n], es[n];
    assert es == front + [last];
    if n == 0 {
      assert AbsorbAll(kind, es).windows == [] + last.windows;
      assert forall e :: e in es <==> e == last;
    } else {
      AbsorbAllMembers(kind, front, w);
      assert AbsorbAll(kind, es).windows == AbsorbAll(kind, front).windows + last.windows;
      assert forall e :: e in es <==> e in front || e == last;
    }
  }

  lemma {:induction false} AbsorbAllLeadTime(kind: ExceptionType, es: seq<Exception>)
    requires es != [] && forall e :: e in es ==> e.leadTime <= 0
    ensures AbsorbAll(kind, es).leadTime <= 0
  {
    var n := |es| - 1;
    assert es[n] in es;
    if n > 0 {
      AbsorbAllLeadTime(kind, es[..n]);
    }
  }

  /** The merge of a type keeps exactly the windows of its exceptions. */
  lemma {:induction false} MergedMembers(es: seq<Exception>, kind: ExceptionType, w: Window)
    ensures Merged(es, kind).Some? <==> exists e :: e in es && e.kind == kind
    ensures Merged(es, kind).Some? ==>
      (w in Merged(es, kind).value.windows <==> exists e :: e in es && e.kind == kind && w in e.windows)
    ensures Merged(es, kind).Some? && (forall e :: e in es ==> e.leadTime <= 0) ==> Merged(es, kind).value.leadTime <= 0
  {
    var matches := OfKind(es, kind);
    forall e
      ensures e in matches <==> e in es && e.kind == kind
    {
      OfKindMembers(es, kind, e);
    }
    if matches != [] {
      assert matches[0] in matches;
      AbsorbAllMembers(kind, matches, w);
      if forall e :: e in es ==> e.leadTime <= 0 {
        AbsorbAllLeadTime(kind, matches);
      }
    }
  }

  lemma {:induction false} ActiveMerged(es: seq<Option<Exception>>, now: Time, kind: ExceptionType, w: Window)
    ensures
      var m := Merged(FilterActive(es, now), kind);
      && (m.Some? <==> HasActive(es, now, kind))
      && (m.Some? ==> (w in m.value.windows <==> Contributes(es, now, kind, w)))
  {
    var active := FilterActive(es, now);
    forall e
      ensures e in active <==> Some(e) in es && e.validFrom <= now <= e.validUntil
    {
      FilterActiveMembers(es, now, e);
    }
    MergedMembers(active, kind, w);
  }

  // ----- What a merge carries

  /** The windows of the exceptions of one type, in order. */
  ghost function Joined(es: seq<Exception>, kind: ExceptionType): seq<Window> {
    if es == [] then []
    else
      var n := |es| - 1;
      Joined(es[..n], kind) + if es[n].kind == kind then es[n].windows else []
  }

  /** The longest lead time, the widest validity. */
  ghost predicate Spans(es: seq<Exception>, m: Exception) {
    && (forall e :: e in es ==> e.leadTime <= m.leadTime && m.validFrom <= e.validFrom && e.validUntil <= m.validUntil)
    && (m.leadTime == 0 || exists e :: e in es && e.leadTime == m.leadTime)
    && (exists e :: e in es && e.validFrom == m.validFrom)
    && (exists e :: e in es && e.validUntil == m.validUntil)
  }

  lemma {:induction false} AbsorbSpans(es: seq<Exception>, m: Exception, e: Exception)
    requires Spans(es, m)
    ensures Spans(es + [e], Absorb(m, e))
  {
    assert (es + [e])[|es|] == e;
    assert forall x :: x in es + [e] <==> x in es || x == e;
  }

  lemma {:induction false} AbsorbAllSpans(kind: ExceptionType, es: seq<Exception>)
    requires es != []
    ensures Spans(es, AbsorbAll(kind, es)) && AbsorbAll(kind, es).kind == kind
  {
    var n := |es| - 1;
    if n == 0 {
      assert es[0] in es;
    } else {
      AbsorbAllSpans(kind, es[..n]);
      AbsorbSpans(es[..n], AbsorbAll(kind, es[..n]), es[n]);
      assert es == es[..n] + [es[n]];
    }
  }

  lemma {:induction false} AbsorbAllJoins(kind: ExceptionType, es: seq<Exception>)
    requires es != [] && forall e :: e in es ==> e.kind == kind
    ensures AbsorbAll(kind, es).windows == Joined(es, kind)
  {
    var n := |es| - 1;
    var front := es[..n];
    assert es[n] in es;
    if n == 0 {
      assert front == [] && Joined(front, kind) == [];
    } else {
      AbsorbAllJoins(kind, front);
    }
  }

  lemma {:induction false} JoinedOfKind(es: seq<Exception>, kind: ExceptionType)
    ensures Joined(OfKind(es, kind), kind) == Joined(es, kind)
  {
    if es != [] {
      var n := |es| - 1;
      var front := OfKind(es[..n], kind);
      JoinedOfKind(es[..n], kind);
      if es[n].kind == kind {
        assert (front + [es[n]])[..|front|] == front;
      } else {
        assert OfKind(es, kind) == front;
      }
    }
  }

  /**
   What the merge of a type carries: its kind, its windows in order, the longest lead time and the
   widest validity. One exception alone is taken as it is.
   */
  lemma {:induction false} MergeTells(es: seq<Exception>, kind: ExceptionType)
    ensures Merged(es, kind).Some? ==>
      var m := Merged(es, kind).value;
      && m.kind == kind && m.windows == Joined(es, kind)
      && Spans(OfKind(es, kind), m)
  {
    var matches := OfKind(es, kind);
    forall e | e in matches
      ensures e.kind == kind
    {
      OfKindMembers(es, kind, e);
    }
    JoinedOfKind(es, kind);
    if |matches| == 1 {
      assert matches[0] in matches;
      assert matches[..0] == [] && Joined(matches[..0], kind) == [];
      assert Joined(matches, kind) == [] + matches[0].windows;
    } else if |matches| > 1 {
      AbsorbAllSpans(kind, matches);
      AbsorbAllJoins(kind, matches);
    }
  }

  // ----- The pipeline as a set expression

  ghost predicate CoveredByKind(es: seq<Option<Exception>>, now: Time, kind: ExceptionType) {
    exists w :: Contributes(es, now, kind, w) && Covers(w, now)
  }

  ghost predicate InsideKind(es: seq<Option<Exception>>, now: Time, kind: ExceptionType) {
    exists w :: Contributes(es, now, kind, w) && InWindow(w, now)
  }

  ghost predicate ValidKind(es: seq<Option<Exception>>, now: Time, kind: ExceptionType) {
    forall w :: Contributes(es, now, kind, w) ==> Valid(w)
  }

  /** Every window that is turned into cron rules can be. */
  ghost predicate Evaluable(base: seq<Window>, es: seq<Option<Exception>>, now: Time) {
    && (if HasActive(es, now, Replace) then ValidKind(es, now, Replace) else AllValid(base))
    && ValidKind(es, now, Extend)
  }

  /** (replacement if there is one, else base) or extend, and not suspend. */
  ghost predicate Intended(base: seq<Window>, es: seq<Option<Exception>>, now: Time) {
    && ((if HasActive(es, now, Replace) then CoveredByKind(es, now, Replace) else CoveredBy(base, now))
        || CoveredByKind(es, now, Extend))
    && !InsideKind(es, now, Suspend)
  }

  ghost predicate NoLeadTime(es: seq<Option<Exception>>) {
    forall e :: Some(e) in es ==> e.leadTime <= 0
  }

  lemma {:induction false} KindCovered(es: seq<Option<Exception>>, now: Time, kind: ExceptionType)
    ensures
      var m := Merged(FilterActive(es, now), kind);
      && (m.Some? <==> HasActive(es, now, kind))
      && (m.Some? ==> (CoveredBy(m.value.windows, now) <==> CoveredByKind(es, now, kind)))
      && (m.Some? ==> (InAny(m.value.windows, now) <==> InsideKind(es, now, kind)))
      && (m.Some? ==> (AllValid(m.value.windows) <==> ValidKind(es, now, kind)))
      && (m.None? ==> !CoveredByKind(es, now, kind) && !InsideKind(es, now, kind) && ValidKind(es, now, kind))
      && (m.Some? && NoLeadTime(es) ==> m.value.leadTime <= 0)
  {
    var m := Merged(FilterActive(es, now), kind);
    var anyWindow := Window(0, 0, {});
    ActiveMerged(es, now, kind, anyWindow);
    forall w
      ensures m.Some? ==> (w in m.value.windows <==> Contributes(es, now, kind, w))
    {
      ActiveMerged(es, now, kind, w);
    }
    forall e | e in FilterActive(es, now)
      ensures Some(e) in es
    {
      FilterActiveMembers(es, now, e);
    }
    MergedMembers(FilterActive(es, now), kind, anyWindow);
  }

  /** Evaluation fails exactly when some window it must turn into cron rules has none. */
  lemma {:induction false} PipelineFails(base: seq<Window>, es: seq<Option<Exception>>, now: Time, buffer: int)
    ensures Evaluation(base, FilterActive(es, now), now, buffer).Some? <==> Evaluable(base, es, now)
  {
    KindCovered(es, now, Replace);
    KindCovered(es, now, Extend);
  }

  /** With no buffer and no lead time, the pipeline computes the set expression. */
  lemma {:induction false} PipelineMeaning(base: seq<Window>, es: seq<Option<Exception>>, now: Time)
    requires NoLeadTime(es) && Evaluable(base, es, now)
    ensures Evaluation(base, FilterActive(es, now), now, 0).Some?
    ensures Evaluation(base, FilterActive(es, now), now, 0).value.shouldHibernate <==> Intended(base, es, now)
  {
    var active := FilterActive(es, now);
    PipelineFails(base, es, now, 0);
    KindCovered(es, now, Replace);
    KindCovered(es, now, Extend);
    KindCovered(es, now, Suspend);
    var rep, ext := Merged(active, Replace), Merged(active, Extend);
    EvalAllMeaning(if rep.Some? then rep.value.windows else base, now);
    if ext.Some? {
      EvalAllMeaning(ext.value.windows, now);
    }
  }

  /** Both lists fail, or both succeed with the same verdict. */
  ghost predicate SameVerdict(base: seq<Window>, es: seq<Option<Exception>>, es': seq<Option<Exception>>, now: Time) {
    var r, r' := Evaluation(base, FilterActive(es, now), now, 0), Evaluation(base, FilterActive(es', now), now, 0);
    (r.Some? <==> r'.Some?) && (r.Some? && r'.Some? ==> r.value.shouldHibernate == r'.value.shouldHibernate)
  }

  /**
   Only which windows are active under which type matters: not the order of the exceptions, not
   how windows are spread over several exceptions of one type.
   */
  lemma {:induction false} OnlyWindowsMatter(
    base: seq<Window>, es: seq<Option<Exception>>, es': seq<Option<Exception>>, now: Time)
    requires NoLeadTime(es) && NoLeadTime(es')
    requires forall kind, w :: Contributes(es, now, kind, w) <==> Contributes(es', now, kind, w)
    requires HasActive(es, now, Replace) <==> HasActive(es', now, Replace)
    ensures SameVerdict(base, es, es', now)
  {
    PipelineFails(base, es, now, 0);
    PipelineFails(base, es', now, 0);
    if Evaluable(base, es, now) {
      PipelineMeaning(base, es, now);
      PipelineMeaning(base, es', now);
    }
  }

  lemma {:induction false} OrderIsIrrelevant(
    base: seq<Window>, es: seq<Option<Exception>>, es': seq<Option<Exception>>, now: Time)
    requires multiset(es) == multiset(es') && NoLeadTime(es)
    ensures SameVerdict(base, es, es', now)
  {
    forall e: Option<Exception>
      ensures e in es <==> e in es'
    {
      assert e in es <==> e in multiset(es);
      assert e in es' <==> e in multiset(es');
    }
    OnlyWindowsMatter(base, es, es', now);
  }

  /** Cutting one exception into two of the same type and validity changes nothing. */
  lemma {:induction false} SplitIsIrrelevant(
    base: seq<Window>, es: seq<Option<Exception>>, e: Exception, k: nat, now: Time)
    requires k <= |e.windows| && NoLeadTime(es + [Some(e)])
    ensures SameVerdict(base, es + [Some(e)], Split(es, e, k), now)
  {
    var whole, parts := es + [Some(e)], Split(es, e, k);
    forall kind, w
      ensures Contributes(whole, now, kind, w) <==> Contributes(parts, now, kind, w)
    {
      SplitContributes(es, e, k, now, kind, w);
    }
    SplitActive(es, e, k, now);
    SplitLeadTime(es, e, k);
    OnlyWindowsMatter(base, whole, parts, now);
  }

  lemma {:induction false} SplitLeadTime(es: seq<Option<Exception>>, e: Exception, k: nat)
    requires k <= |e.windows| && NoLeadTime(es + [Some(e)])
    ensures NoLeadTime(Split(es, e, k))
  {
    assert Some(e) in es + [Some(e)];
    assert forall x :: x in es ==> x in es + [Some(e)];
  }

  ghost function Split(es: seq<Option<Exception>>, e: Exception, k: nat): seq<Option<Exception>>
    requires k <= |e.windows|
  {
    es + [Some(e.(windows := e.windows[..k])), Some(e.(windows := e.windows[k..]))]
  }

  lemma {:induction false} SplitContributes(
    es: seq<Option<Exception>>, e: Exception, k: nat, now: Time, kind: ExceptionType, w: Window)
    requires k <= |e.windows|
    ensures Contributes(es + [Some(e)], now, kind, w) <==> Contributes(Split(es, e, k), now, kind, w)
  {
    var whole, parts := es + [Some(e)], Split(es, e, k);
    var a, b := e.(windows := e.windows[..k]), e.(windows := e.windows[k..]);
    assert e.windows == a.windows + b.windows;
    assert Some(e) in whole && Some(a) in parts && Some(b) in parts;
    assert forall x :: x in es ==> x in whole && x in parts;
    if Contributes(whole, now, kind, w) {
      var x :| Some(x) in whole && x.validFrom <= now <= x.validUntil && x.kind == kind && w in x.windows;
      assert x == e ==> w in a.windows || w in b.windows;
    }
  }

  lemma {:induction false} SplitActive(es: seq<Option<Exception>>, e: Exception, k: nat, now: Time)
    requires k <= |e.windows|
    ensures HasActive(es + [Some(e)], now, Replace) <==> HasActive(Split(es, e, k), now, Replace)
  {
    var whole, parts := es + [Some(e)], Split(es, e, k);
    var a := e.(windows := e.windows[..k]);
    assert Some(e) in whole && Some(a) in parts;
    assert forall x :: x in es ==> x in whole && x in parts;
  }

  // ----- Suspension only wakes

  ghost function WithoutSuspends(es: seq<Exception>): seq<Exception> {
    if es == [] then []
    else
      var n := |es| - 1;
      WithoutSuspends(es[..n]) + if es[n].kind == Suspend then [] else [es[n]]
  }

  lemma {:induction false} WithoutSuspendsKeeps(es: seq<Exception>, kind: ExceptionType)
    ensures OfKind(WithoutSuspends(es), kind) == if kind == Suspend then [] else OfKind(es, kind)
  {
    if es != [] {
      var n := |es| - 1;
      var front := WithoutSuspends(es[..n]);
      WithoutSuspendsKeeps(es[..n], kind);
      if es[n].kind != Suspend {
        OfKindStep(front, es[n], kind);
      } else {
        assert WithoutSuspends(es) == front;
      }
    }
  }

  lemma {:induction false} OfKindStep(es: seq<Exception>, e: Exception, kind: ExceptionType)
    ensures OfKind(es + [e], kind) == OfKind(es, kind) + if e.kind == kind then [e] else []
  {
    var all := es + [e];
    assert all[..|all| - 1] == es && all[|all| - 1] == e;
  }

  /** Dropping the suspend exceptions drops the suspend stage and nothing else. */
  lemma {:induction false} StagesBeforeSuspend(base: seq<Window>, es: seq<Exception>, now: Time, buffer: int)
    ensures Merged(WithoutSuspends(es), Replace) == Merged(es, Replace)
    ensures Merged(WithoutSuspends(es), Extend) == Merged(es, Extend)
    ensures Merged(WithoutSuspends(es), Suspend) == None
    ensures
      var before, sus := Evaluation(base, WithoutSuspends(es), now, buffer), Merged(es, Suspend);
      Evaluation(base, es, now, buffer) ==
        if before.None? || sus.None? then before
        else Some(ApplySuspend(before.value, sus.value.windows, sus.value.leadTime, now, buffer))
  {
    WithoutSuspendsKeeps(es, Replace);
    WithoutSuspendsKeeps(es, Extend);
    WithoutSuspendsKeeps(es, Suspend);
  }

  /** Whatever the buffer and the lead times, suspend exceptions can only turn hibernation off. */
  lemma {:induction false} SuspendOnlyWakes(base: seq<Window>, es: seq<Exception>, now: Time, buffer: int)
    ensures Evaluation(base, es, now, buffer).Some? <==> Evaluation(base, WithoutSuspends(es), now, buffer).Some?
    ensures Evaluation(base, es, now, buffer).Some? && Evaluation(base, es, now, buffer).value.shouldHibernate ==>
      Evaluation(base, WithoutSuspends(es), now, buffer).value.shouldHibernate
  {
    StagesBeforeSuspend(base, es, now, buffer);
  }

  // ----- No missed transition

  /** Nothing starts before the earliest start. */
  lemma {:induction false} AwakeUntil(ws: seq<Window>, n: Option<Time>, now: Time, t: Time)
    requires AllValid(ws) && IsEarliest(n, ws, StartRule, now) && !CoveredBy(ws, now)
    requires now <= t && (n.Some? ==> t < n.value)
    ensures !CoveredBy(ws, t)
  {
    forall w | w in ws
      ensures !Covers(w, t)
    {
      SteadyWithoutFirings(w, now, t);
    }
  }

  /** A window that is on stays on until its own end, which is not before the earliest end. */
  lemma {:induction false} HibernatedUntil(ws: seq<Window>, n: Option<Time>, now: Time, from: Time, t: Time)
    requires AllValid(ws) && IsEarliest(n, ws, EndRule, now)
    requires now <= from <= t && n.Some? && t < n.value && CoveredBy(ws, from)
    ensures CoveredBy(ws, t)
  {
    var w :| w in ws && Covers(w, from);
    NextIsLeast(EndRule(w), now);
    NextIsLeast(EndRule(w), from);
    SteadyWithoutFirings(w, from, t);
  }

  /** The windows that hibernate when no suspend exception is active. */
  ghost function Effective(base: seq<Window>, es: seq<Exception>): seq<Window> {
    var rep, ext := Merged(es, Replace), Merged(es, Extend);
    (if rep.Some? then rep.value.windows else base) + if ext.Some? then ext.value.windows else []
  }

  ghost predicate Selected(r: EvaluationResult, next: Option<Time>) {
    next == if r.shouldHibernate then r.nextWakeUp else r.nextHibernate
  }

  lemma {:induction false} CoveredByConcat(a: seq<Window>, b: seq<Window>, t: Time)
    ensures CoveredBy(a + b, t) <==> CoveredBy(a, t) || CoveredBy(b, t)
  {
    assert forall w :: w in a + b <==> w in a || w in b;
  }

  lemma {:induction false} EffectiveMeaning(base: seq<Window>, es: seq<Exception>, t: Time)
    requires Merged(es, Suspend).None? && Evaluation(base, es, t, 0).Some?
    ensures Evaluation(base, es, t, 0).value.shouldHibernate <==> CoveredBy(Effective(base, es), t)
  {
    var rep, ext := Merged(es, Replace), Merged(es, Extend);
    var b, x := if rep.Some? then rep.value.windows else base, if ext.Some? then ext.value.windows else [];
    EvalAllMeaning(b, t);
    EvalAllMeaning(x, t);
    CoveredByConcat(b, x, t);
  }

  /**
   With no buffer and no suspend exception, and while the same exceptions are active, the state
   does not change before the selected next event; an awake schedule hibernates exactly then.
   */
  lemma {:induction false} NoMissedTransition(
    base: seq<Window>, es: seq<Exception>, now: Time, next: Option<Time>, t: Time)
    requires Merged(es, Suspend).None? && Evaluation(base, es, now, 0).Some?
    requires Selected(Evaluation(base, es, now, 0).value, next)
    requires now <= t
    ensures Evaluation(base, es, t, 0).Some?
    ensures (next.None? || t < next.value) ==>
      Evaluation(base, es, t, 0).value.shouldHibernate == Evaluation(base, es, now, 0).value.shouldHibernate
    ensures next.Some? ==> now < next.value
    ensures !Evaluation(base, es, now, 0).value.shouldHibernate && next == Some(t) ==>
      Evaluation(base, es, t, 0).value.shouldHibernate
  {
    var rep, ext := Merged(es, Replace), Merged(es, Extend);
    var b, x := if rep.Some? then rep.value.windows else base, if ext.Some? then ext.value.windows else [];
    EffectiveMeaning(base, es, now);
    EffectiveMeaning(base, es, t);
    CoveredByConcat(b, x, now);
    CoveredByConcat(b, x, t);
    EvalAllMeaning(b, now);
    EvalAllMeaning(x, now);
    var rb, rx := EvalAll(b, now, 0), EvalAll(x, now, 0);
    if CoveredBy(b + x, now) {
      HibernatedCase(b, x, rb.nextWakeUp, rx.nextWakeUp, now, t);
    } else {
      AwakeCase(b, x, rb.nextHibernate, rx.nextHibernate, now, t);
    }
  }

  lemma {:induction false} AwakeCase(
    b: seq<Window>, x: seq<Window>, nb: Option<Time>, nx: Option<Time>, now: Time, t: Time)
    requires AllValid(b) && AllValid(x) && now <= t && !CoveredBy(b, now) && !CoveredBy(x, now)
    requires IsEarliest(nb, b, StartRule, now) && IsEarliest(nx, x, StartRule, now)
    ensures
      var n := EarlierTime(nb, nx);
      && (n.None? || t < n.value ==> !CoveredBy(b, t) && !CoveredBy(x, t))
      && (n.Some? ==> now < n.value)
      && (n == Some(t) ==> CoveredBy(b, t) || CoveredBy(x, t))
  {
    if nb.Some? { EarliestStartCovers(b, nb, now); }
    if nx.Some? { EarliestStartCovers(x, nx, now); }
    var n := EarlierTime(nb, nx);
    if n.None? || t < n.value {
      AwakeUntil(b, nb, now, t);
      AwakeUntil(x, nx, now, t);
    }
  }

  /** At the earliest start some window is on. */
  lemma {:induction false} EarliestStartCovers(ws: seq<Window>, n: Option<Time>, now: Time)
    requires AllValid(ws) && IsEarliest(n, ws, StartRule, now) && n.Some?
    ensures now < n.value && CoveredBy(ws, n.value)
  {
    var w :| w in ws && n.value == Next(StartRule(w), now);
    NextIsLeast(StartRule(w), now);
    StateAtFirings(w, n.value);
  }

  lemma {:induction false} EarliestEnd(ws: seq<Window>, n: Option<Time>, now: Time)
    requires AllValid(ws) && IsEarliest(n, ws, EndRule, now) && n.Some?
    ensures now < n.value
  {
    var w :| w in ws && n.value == Next(EndRule(w), now);
    NextIsLeast(EndRule(w), now);
  }

  lemma {:induction false} HibernatedCase(
    b: seq<Window>, x: seq<Window>, nb: Option<Time>, nx: Option<Time>, now: Time, t: Time)
    requires AllValid(b) && AllValid(x) && now <= t && (CoveredBy(b, now) || CoveredBy(x, now))
    requires IsEarliest(nb, b, EndRule, now) && IsEarliest(nx, x, EndRule, now)
    ensures
      var n := if nb.Some? && InAny(x, nb.value) then nx else EarlierTime(nb, nx);
      && n.Some? && now < n.value
      && (t < n.value ==> CoveredBy(b, t) || CoveredBy(x, t))
  {
    if nb.Some? { EarliestEnd(b, nb, now); }
    if nx.Some? { EarliestEnd(x, nx, now); }
    var n := if nb.Some? && InAny(x, nb.value) then nx else EarlierTime(nb, nx);
    if t < n.value {
      if CoveredBy(x, now) {
        HibernatedUntil(x, nx, now, now, t);
      } else if t < nb.value {
        HibernatedUntil(b, nb, now, now, t);
      } else {
        InsideIsCovered(x, nb.value);
        HibernatedUntil(x, nx, now, nb.value, t);
      }
    }
  }

  lemma {:induction false} InsideIsCovered(ws: seq<Window>, t: Time)
    requires InAny(ws, t)
    ensures CoveredBy(ws, t)
  {
    var w :| w in ws && InWindow(w, t);
    assert Covers(w, t);
  }
}
