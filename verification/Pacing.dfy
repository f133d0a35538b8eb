/** Two-level pacing over whole runs, whatever the clock and the wake-ups do. */
module Pacing {
  import opened Outcomes
  import opened Collections
  import opened JsonText
  import opened ResultDocument
  import opened Plans
  import opened TaskLedger
  import opened TaskInvariants
  import opened TaskTheorems
  import opened TaskRuns

  /** The admissions to one address, in order. */
  function To(begun: seq<Begun>, key: string): seq<Begun> {
    if begun == [] then []
    else
      To(begun[..|begun| - 1], key)
      + (if begun[|begun| - 1].key == key then [begun[|begun| - 1]] else [])
  }

  /** Successive accounted starts lie at least `gap` apart, and so will the next one. */
  ghost predicate Paced(begun: seq<Begun>, gap: real, next: real) {
    && (forall i :: 0 < i < |begun| ==> begun[i].at >= begun[i - 1].at + gap)
    && (begun != [] ==> next >= begun[|begun| - 1].at + gap)
  }

  function GlobalGap(t: Task): real {
    Gap(t.plan.limits.maxGlobalRate)
  }

  function TargetGap(t: Task): real {
    Gap(t.plan.limits.maxTargetRate)
  }

  ghost predicate TargetPaced(t: Task, begun: seq<Begun>, next: map<string, real>, key: string) {
    if key in next then Paced(To(begun, key), TargetGap(t), next[key]) else To(begun, key) == []
  }

  ghost predicate StartRespects(m: Machine) {
    m.admission.Waiting? ==>
      var next, key := m.ledger.pacing.nextTarget, ExpectedTarget(m.admission.prepared);
      && m.admission.startAt >= m.ledger.pacing.nextGlobal
      && (key in next ==> m.admission.startAt >= next[key])
  }

  ghost predicate PaceValid(t: Task, m: Machine, key: string) {
    && Paced(m.begun, GlobalGap(t), m.ledger.pacing.nextGlobal)
    && TargetPaced(t, m.begun, m.ledger.pacing.nextTarget, key)
    && StartRespects(m)
    && (forall i :: 0 <= i < |m.begun| ==> m.begun[i].actual <= m.begun[i].at)
  }

  lemma PacedAppend(begun: seq<Begun>, gap: real, next: real, b: Begun)
    requires Paced(begun, gap, next) && b.at >= next
    ensures Paced(begun + [b], gap, b.at + gap)
  {
  }

  /** Pacing also moves when the reservation checks refuse the step. */
  lemma PacedLater(begun: seq<Begun>, gap: real, next: real, later: real)
    requires Paced(begun, gap, next) && later >= next
    ensures Paced(begun, gap, later)
  {
  }

  lemma TargetPacedMove(t: Task, begun: seq<Begun>, next: map<string, real>, key: string, b: Begun)
    requires TargetPaced(t, begun, next, key)
    requires b.key in next ==> b.at >= next[b.key]
    ensures TargetPaced(t, begun + [b], next[b.key := b.at + TargetGap(t)], key)
    ensures TargetPaced(t, begun, next[b.key := b.at + TargetGap(t)], key)
  {
    assert (begun + [b])[..|begun|] == begun;
    hide Gap, TargetGap;
    GapsNotNegative(t);
    if b.key == key && key in next {
      PacedAppend(To(begun, key), TargetGap(t), next[key], b);
      PacedLater(To(begun, key), TargetGap(t), next[key], b.at + TargetGap(t));
    }
  }

  lemma GapsNotNegative(t: Task)
    ensures GlobalGap(t) >= 0.0 && TargetGap(t) >= 0.0
  {
  }

  /** A wake-up moves both pacing marks by one start, whether or not that start counts. */
  lemma Advanced(t: Task, m: Machine, m': Machine, b: Begun, key: string)
    requires PaceValid(t, m, key) && m'.admission.Idle? && b.actual <= b.at
    requires b.at >= m.ledger.pacing.nextGlobal
    requires b.key in m.ledger.pacing.nextTarget ==> b.at >= m.ledger.pacing.nextTarget[b.key]
    requires m'.ledger.pacing
          == Pacing(b.at + GlobalGap(t), m.ledger.pacing.nextTarget[b.key := b.at + TargetGap(t)])
    requires m'.begun == m.begun || m'.begun == m.begun + [b]
    ensures PaceValid(t, m', key)
  {
    hide Gap, Paced, TargetPaced, TargetGap, GlobalGap, ExpectedTarget, To;
    GapsNotNegative(t);
    PacedAppend(m.begun, GlobalGap(t), m.ledger.pacing.nextGlobal, b);
    PacedLater(m.begun, GlobalGap(t), m.ledger.pacing.nextGlobal, b.at + GlobalGap(t));
    TargetPacedMove(t, m.begun, m.ledger.pacing.nextTarget, key, b);
  }

  lemma WakePaces(t: Task, m: Machine, actual: real, timedOut: bool, key: string)
    requires PaceValid(t, m, key)
    ensures PaceValid(t, Wake(t, m, actual, timedOut).next, key)
  {
    hide Gap, Paced, TargetPaced, Wake, TargetGap, GlobalGap, ExpectedTarget;
    WakeQuiet(t, m, actual, timedOut);
    if m.admission.Waiting? && timedOut {
      var b := Begun(ExpectedTarget(m.admission.prepared), Max(m.admission.startAt, actual), actual);
      WakeEffect(t, m, actual, b);
      Advanced(t, m, Wake(t, m, actual, timedOut).next, b, key);
    }
  }

  lemma WakeQuiet(t: Task, m: Machine, actual: real, timedOut: bool)
    ensures var next := Wake(t, m, actual, timedOut).next;
            !(m.admission.Waiting? && timedOut) ==>
              next.ledger == m.ledger && next.begun == m.begun && (next == m || next.admission.Idle?)
  {
  }

  lemma WakeEffect(t: Task, m: Machine, actual: real, b: Begun)
    requires m.admission.Waiting?
    requires b == Begun(ExpectedTarget(m.admission.prepared), Max(m.admission.startAt, actual), actual)
    ensures var next := Wake(t, m, actual, true).next;
            && next.admission.Idle?
            && next.ledger.pacing
               == Pacing(b.at + GlobalGap(t), m.ledger.pacing.nextTarget[b.key := b.at + TargetGap(t)])
            && (next.begun == m.begun || next.begun == m.begun + [b])
  {
  }

  lemma PrepareRespects(t: Task, m: Machine, now: real, preflight: Result<Prepared, Failure>)
    requires StartRespects(m)
    ensures var next := Prepare(t, m, now, preflight).next;
            StartRespects(next) && next.begun == m.begun && next.ledger == m.ledger
  {
    hide StepOf;
  }

  lemma PacingUntouched(t: Task, m: Machine, a: Action)
    requires !a.AdmitWake? && !a.AdmitPrepare?
    ensures var next := React(t, m, a).next;
            && next.begun == m.begun && next.ledger.pacing == m.ledger.pacing
            && (next.admission.Waiting? ==> next.admission == m.admission)
  {
    hide Bind, AllowedEvidence, Refusal, ReserveOutput, Ids, StepOf;
  }

  lemma ActionPaced(t: Task, m: Machine, a: Action, key: string)
    requires PaceValid(t, m, key)
    ensures PaceValid(t, React(t, m, a).next, key)
  {
    hide Gap, TargetPaced, Paced, Begin, RecordBound, Append, CompleteStep, CompleteAggregateStep, Conclude, Claim,
         Complain, Wake, Prepare;
    match a
    case AdmitWake(actual, timedOut) => WakePaces(t, m, actual, timedOut, key);
    case AdmitPrepare(now, preflight) => PrepareRespects(t, m, now, preflight);
    case _ => PacingUntouched(t, m, a);
  }

  lemma {:induction false} RunPaced(t: Task, now: real, actions: seq<Action>, key: string)
    ensures PaceValid(t, Run(t, now, actions), key)
  {
    if actions != [] {
      hide React, PaceValid;
      RunPaced(t, now, actions[..|actions| - 1], key);
      ActionPaced(t, Run(t, now, actions[..|actions| - 1]), actions[|actions| - 1], key);
    }
  }

  lemma {:induction false} SpanOf(begun: seq<Begun>, gap: real, next: real, i: nat, j: nat)
    requires Paced(begun, gap, next) && i <= j < |begun|
    ensures begun[j].at >= begun[i].at + (j - i) as real * gap
  {
    if i < j {
      SpanOf(begun, gap, next, i, j - 1);
      assert (j - i) as real * gap == (j - 1 - i) as real * gap + gap;
    }
  }

  lemma {:induction false} ToMembers(begun: seq<Begun>, key: string)
    requires forall i :: 0 <= i < |begun| ==> begun[i].actual <= begun[i].at
    ensures forall i :: 0 <= i < |To(begun, key)| ==> To(begun, key)[i].actual <= To(begun, key)[i].at
  {
    if begun != [] {
      ToMembers(begun[..|begun| - 1], key);
    }
  }

  /** The committed admissions of a run: all of them, or those to one address. */
  function Starts(t: Task, now: real, actions: seq<Action>, key: Option<string>): seq<Begun> {
    var begun := Run(t, now, actions).begun;
    if key.Some? then To(begun, key.value) else begun
  }

  function Rate(t: Task, key: Option<string>): nat {
    if key.Some? then t.plan.limits.maxTargetRate else t.plan.limits.maxGlobalRate
  }

  /** Any k+1 successive admissions span at least k / max_global_rate, and any k+1 to
      one address at least k / max_target_rate, measured between accounted start times. */
  lemma {:induction false} PacingBound(t: Task, now: real, actions: seq<Action>, key: Option<string>, i: nat, j: nat)
    requires i <= j < |Starts(t, now, actions, key)|
    ensures var s := Starts(t, now, actions, key);
            s[j].at >= s[i].at + (j - i) as real * Gap(Rate(t, key))
  {
    hide Run, Gap, Paced, To, StartRespects;
    var m := Run(t, now, actions);
    if key.None? {
      RunPaced(t, now, actions, "");
      SpanOf(m.begun, GlobalGap(t), m.ledger.pacing.nextGlobal, i, j);
    } else {
      RunPaced(t, now, actions, key.value);
      SpanOf(To(m.begun, key.value), TargetGap(t), m.ledger.pacing.nextTarget[key.value], i, j);
    }
  }

  /** Between real clock readings the same spans hold up to how early the last
      waiter woke: `at - actual`, which is zero unless a wait ended before its time. */
  lemma {:induction false} ActualSpan(t: Task, now: real, actions: seq<Action>, key: Option<string>, i: nat, j: nat)
    requires i <= j < |Starts(t, now, actions, key)|
    ensures var s := Starts(t, now, actions, key);
            && s[j].actual <= s[j].at
            && s[j].actual >= s[i].actual + (j - i) as real * Gap(Rate(t, key)) - (s[j].at - s[j].actual)
  {
    PacingBound(t, now, actions, key, i, j);
    RunPaced(t, now, actions, "");
    hide Run, Gap;
    if key.Some? {
      ToMembers(Run(t, now, actions).begun, key.value);
    }
  }

  /** A window of length `w` holds at most floor(w * rate) + 1 starts. */
  lemma {:induction false} WindowBound(t: Task, now: real, actions: seq<Action>, key: Option<string>, i: nat, j: nat, w: real)
    requires Rate(t, key) >= 1 && i <= j < |Starts(t, now, actions, key)|
    requires var s := Starts(t, now, actions, key); s[j].at <= s[i].at + w
    ensures j - i + 1 <= (w * Rate(t, key) as real).Floor + 1
  {
    hide Run, Gap, Starts, Rate;
    PacingBound(t, now, actions, key, i, j);
    FitsWindow(j - i, w, Rate(t, key));
  }

  lemma {:induction false} FitsWindow(k: nat, w: real, rate: nat)
    requires rate >= 1 && k as real * Gap(rate) <= w
    ensures k <= (w * rate as real).Floor
  {
    var r := rate as real;
    assert (k as real * (1.0 / r)) * r == k as real;
    assert (w - k as real * (1.0 / r)) * r >= 0.0;
    assert w * r >= k as real;
  }

  // --- the clock ------------------------------------------------------------------------

  predicate OnTime(b: Begun) {
    b.actual == b.at
  }

  /** No waiter of the run wakes before its start time. */
  ghost predicate Punctual(t: Task, now: real, actions: seq<Action>) {
    forall k :: 0 <= k < |actions| ==> WakesInTime(Run(t, now, actions[..k]), actions[k])
  }

  predicate WakesInTime(m: Machine, a: Action) {
    a.AdmitWake? && a.timedOut && m.admission.Waiting? ==> a.actual >= m.admission.startAt
  }

  /** The spans that pacing promises, measured on the clock. */
  ghost predicate ClockSpans(s: seq<Begun>, gap: real) {
    forall i, j :: 0 <= i <= j < |s| ==> s[j].actual >= s[i].actual + (j - i) as real * gap
  }

  lemma WakeInTime(t: Task, m: Machine, a: Action)
    requires Reserved(t.plan) && Valid(t, m)
    ensures (forall b :: b in React(t, m, a).next.begun ==> OnTime(b))
            <==> WakesInTime(m, a) && forall b :: b in m.begun ==> OnTime(b)
  {
    hide Gap, ExpectedTarget, Begin, RecordBound, Append, CompleteStep, CompleteAggregateStep, Conclude, Claim, Complain, Wake,
         Prepare, Valid, Reserved;
    match a
    case AdmitWake(actual, timedOut) =>
      WakeQuiet(t, m, actual, timedOut);
      if m.admission.Waiting? && timedOut {
        var b := Begun(ExpectedTarget(m.admission.prepared), Max(m.admission.startAt, actual), actual);
        WakeCommits(t, m, actual, b);
        OneMoreStart(m.begun, b);
      }
    case AdmitPrepare(now, preflight) => PrepareBegun(t, m, now, preflight);
    case _ => PacingUntouched(t, m, a);
  }

  lemma OneMoreStart(begun: seq<Begun>, last: Begun)
    ensures (forall b :: b in begun + [last] ==> OnTime(b)) <==> OnTime(last) && forall b :: b in begun ==> OnTime(b)
  {
    assert last in begun + [last];
    assert forall b :: b in begun ==> b in begun + [last];
  }

  lemma WakeCommits(t: Task, m: Machine, actual: real, b: Begun)
    requires Reserved(t.plan) && Valid(t, m) && m.admission.Waiting?
    requires b == Begun(ExpectedTarget(m.admission.prepared), Max(m.admission.startAt, actual), actual)
    ensures Wake(t, m, actual, true).next.begun == m.begun + [b]
  {
    WakeFits(t, m, actual, true);
    hide Reserved, Valid, Gap, ExpectedTarget, Max;
  }

  lemma PrepareBegun(t: Task, m: Machine, now: real, preflight: Result<Prepared, Failure>)
    ensures Prepare(t, m, now, preflight).next.begun == m.begun
  {
    hide StepOf, StartTime;
  }

  /** Every start of a run is on time exactly when no waiter woke before its start time. */
  lemma {:induction false} PunctualExactly(t: Task, now: real, actions: seq<Action>)
    requires Reserved(t.plan)
    ensures Punctual(t, now, actions) <==> forall b :: b in Run(t, now, actions).begun ==> OnTime(b)
  {
    hide React, OnTime, WakesInTime, Reserved, Valid, Run, Punctual;
    if actions == [] {
      NothingStarted(t, now);
    } else {
      var before, last := actions[..|actions| - 1], actions[|actions| - 1];
      PunctualExactly(t, now, before);
      PunctualStep(t, now, before, last);
      RunValid(t, now, before);
      WakeInTime(t, Run(t, now, before), last);
      assert actions == before + [last];
      Extend(t, now, before, last);
    }
  }

  lemma NothingStarted(t: Task, now: real)
    ensures Punctual(t, now, []) && Run(t, now, []).begun == []
  {
    hide Ids;
  }

  lemma {:induction false} PunctualStep(t: Task, now: real, before: seq<Action>, last: Action)
    ensures Punctual(t, now, before + [last]) <==> Punctual(t, now, before) && WakesInTime(Run(t, now, before), last)
  {
    hide Run, WakesInTime;
    var actions := before + [last];
    assert forall k :: 0 <= k < |before| ==> actions[..k] == before[..k] && actions[k] == before[k];
    assert actions[..|before|] == before && actions[|before|] == last;
    if Punctual(t, now, actions) {
      assert WakesInTime(Run(t, now, actions[..|before|]), actions[|before|]);
      forall k | 0 <= k < |before| ensures WakesInTime(Run(t, now, before[..k]), before[k]) {
        assert WakesInTime(Run(t, now, actions[..k]), actions[k]);
      }
    }
  }

  lemma {:induction false} ToFrom(begun: seq<Begun>, key: string)
    ensures forall b :: b in To(begun, key) ==> b in begun
  {
    if begun != [] {
      ToFrom(begun[..|begun| - 1], key);
    }
  }

  /** A start on time lies the full span behind every start before it, on the clock too. */
  lemma {:induction false} ClockSpan(t: Task, now: real, actions: seq<Action>, key: Option<string>, i: nat, j: nat)
    requires i <= j < |Starts(t, now, actions, key)| && OnTime(Starts(t, now, actions, key)[j])
    ensures var s := Starts(t, now, actions, key);
            s[j].actual >= s[i].actual + (j - i) as real * Gap(Rate(t, key))
  {
    hide Starts, Gap;
    ActualSpan(t, now, actions, key, i, j);
  }

  lemma {:induction false} StartsOnTime(t: Task, now: real, actions: seq<Action>, key: Option<string>)
    requires forall b :: b in Run(t, now, actions).begun ==> OnTime(b)
    ensures forall b :: b in Starts(t, now, actions, key) ==> OnTime(b)
  {
    hide OnTime, Run;
    if key.Some? {
      ToFrom(Run(t, now, actions).begun, key.value);
    }
  }

  /** So a run in which nobody wakes early keeps every span on the clock, for the whole
      task and for each address. */
  lemma {:induction false} PunctualRunsKeepSpans(t: Task, now: real, actions: seq<Action>, key: Option<string>)
    requires Reserved(t.plan) && Punctual(t, now, actions)
    ensures ClockSpans(Starts(t, now, actions, key), Gap(Rate(t, key)))
  {
    hide Starts, Gap, Rate, Run, Punctual, Reserved, OnTime;
    PunctualExactly(t, now, actions);
    StartsOnTime(t, now, actions, key);
    var s := Starts(t, now, actions, key);
    forall i, j | 0 <= i <= j < |s| ensures s[j].actual >= s[i].actual + (j - i) as real * Gap(Rate(t, key)) {
      assert s[j] in s;
      ClockSpan(t, now, actions, key, i, j);
    }
  }

  /** Starts as close as pacing allows, from one on time. */
  ghost predicate BackToBack(s: seq<Begun>, gap: real) {
    && (s != [] ==> OnTime(s[0]))
    && (forall i :: 0 < i < |s| ==> s[i].at == s[i - 1].at + gap)
  }

  /** Of such starts the clock spans hold exactly when every single one is on time. */
  lemma {:induction false} ClockSpansExactly(t: Task, now: real, actions: seq<Action>, key: Option<string>)
    requires BackToBack(Starts(t, now, actions, key), Gap(Rate(t, key)))
    ensures var s := Starts(t, now, actions, key);
            ClockSpans(s, Gap(Rate(t, key))) <==> forall j :: 0 <= j < |s| ==> OnTime(s[j])
  {
    hide Starts, Gap, Run, OnTime, Rate;
    var s, gap := Starts(t, now, actions, key), Gap(Rate(t, key));
    if ClockSpans(s, gap) {
      forall j | 0 <= j < |s| ensures OnTime(s[j]) {
        NeverEarly(t, now, actions, key, j);
        SpannedOnTime(s, gap, j);
      }
    } else if forall j :: 0 <= j < |s| ==> OnTime(s[j]) {
      forall i, j | 0 <= i <= j < |s| ensures s[j].actual >= s[i].actual + (j - i) as real * gap {
        ClockSpan(t, now, actions, key, i, j);
      }
    }
  }

  lemma SpannedOnTime(s: seq<Begun>, gap: real, j: nat)
    requires BackToBack(s, gap) && ClockSpans(s, gap) && j < |s| && s[j].actual <= s[j].at
    ensures OnTime(s[j])
  {
    Spaced(s, gap, j);
    assert s[j].actual >= s[0].actual + (j - 0) as real * gap;
  }

  lemma NeverEarly(t: Task, now: real, actions: seq<Action>, key: Option<string>, j: nat)
    requires j < |Starts(t, now, actions, key)|
    ensures Starts(t, now, actions, key)[j].actual <= Starts(t, now, actions, key)[j].at
  {
    hide Starts, Gap;
    ActualSpan(t, now, actions, key, j, j);
  }

  lemma {:induction false} Spaced(s: seq<Begun>, gap: real, j: nat)
    requires BackToBack(s, gap) && j < |s|
    ensures s[j].at == s[0].at + j as real * gap
  {
    if j > 0 {
      Spaced(s, gap, j - 1);
      assert s[j].at == s[j - 1].at + gap;
      assert j as real * gap == (j - 1) as real * gap + gap;
    }
  }

  // --- an early wake-up -----------------------------------------------------------------------

  /** The run through the first step of a plan, from time zero. */
  function FirstStep(t: Task): seq<Action> {
    Through(t.plan.steps[..Least(|t.plan.steps|, 1)], 0.0, WidestGap(t))
  }

  /** It starts at time zero and completes. */
  lemma {:induction false} FirstStart(t: Task)
    requires Reserved(t.plan)
    ensures var m := Run(t, 0.0, FirstStep(t));
            && Between(m, t.plan.steps[..1]) && m.ledger.pacing.nextGlobal == GlobalGap(t)
            && |m.begun| == 1 && m.begun[0].at == m.begun[0].actual == 0.0
  {
    var step, none: seq<Action> := t.plan.steps[0], [];
    FirstActions(t);
    FreshBetween(t);
    NextReady(t, Initial(t, 0.0), 0);
    assert Run(t, 0.0, none) == Initial(t, 0.0);
    assert FirstStep(t) == none + Admitting(step, 0.0, 0.0) + [CompleteAggregate(step.id)];
    hide Run, Reserved, Between, Ready, FirstStep, Admitting, React, Admitted, GlobalGap, Initial;
    RunAdmits(t, 0.0, none, step, 0.0, 0.0);
    Extend(t, 0.0, none + Admitting(step, 0.0, 0.0), CompleteAggregate(step.id));
    var m := Run(t, 0.0, none + Admitting(step, 0.0, 0.0));
    PacingUntouched(t, m, CompleteAggregate(step.id));
    FirstAdmission(t, m, step);
    NothingCompleted(t, 0.0);
    CompletesNext(t, Initial(t, 0.0), m, [], step, 0.0);
    assert [] + [step] == t.plan.steps[..1];
  }

  lemma FirstActions(t: Task)
    requires t.plan.steps != []
    ensures var step := t.plan.steps[0];
            FirstStep(t) == Admitting(step, 0.0, 0.0) + [CompleteAggregate(step.id)]
  {
    var step, gap := t.plan.steps[0], WidestGap(t);
    assert t.plan.steps[..1] == [] + [step];
    ThroughStep([], step, 0.0, gap);
    assert StartAt(0, 0.0, gap) == 0.0;
    hide StartAt, WidestGap, Admitting;
  }

  lemma FreshBetween(t: Task)
    ensures Between(Initial(t, 0.0), t.plan.steps[..0])
  {
  }

  lemma NothingCompleted(t: Task, now: real)
    ensures Initial(t, now).ledger.book.completedSteps <= Initial(t, now).ledger.book.admittedSteps
  {
  }

  lemma FirstAdmission(t: Task, m: Machine, step: ProbeStep)
    requires Admitted(t, Initial(t, 0.0), m, step, 0.0, 0.0)
    ensures m.ledger.pacing.nextGlobal == GlobalGap(t)
    ensures |m.begun| == 1 && m.begun[0].at == m.begun[0].actual == 0.0
  {
    hide Gap, ExpectedTarget;
  }

  /** The second step of any plan whose waiter wakes `early` before one gap has passed
      starts that much less than one gap behind the first. */
  lemma {:induction false} EarlyWakeShortensGap(t: Task, early: real)
    requires Reserved(t.plan) && |t.plan.steps| >= 2 && 0.0 < early <= GlobalGap(t)
    ensures var s := Run(t, 0.0, FirstStep(t) + Admitting(t.plan.steps[1], 0.0, GlobalGap(t) - early)).begun;
            && |s| == 2 && s[0] == Begun(s[0].key, 0.0, 0.0) && !OnTime(s[1]) && s[1].at >= s[0].at + GlobalGap(t)
            && s[1].actual == s[0].actual + GlobalGap(t) - early
  {
    FirstStart(t);
    NextReady(t, Run(t, 0.0, FirstStep(t)), 1);
    hide Run, Reserved, Between, Ready, Gap, FirstStep, ExpectedTarget, GlobalGap;
    RunAdmits(t, 0.0, FirstStep(t), t.plan.steps[1], 0.0, GlobalGap(t) - early);
  }

  /** One start per second, and two starts half a second apart. */
  lemma HalfSecondApart()
    ensures var t := TwoProbes();
            var s := Run(t, 0.0, FirstStep(t) + Admitting(t.plan.steps[1], 0.0, 0.5)).begun;
            && Reserved(t.plan) && t.plan.limits.maxGlobalRate == 1
            && |s| == 2 && s[0].actual == 0.0 && s[1].actual == 0.5
  {
    var t := TwoProbes();
    var steps := [LoopbackProbe(Tcp, 1), LoopbackProbe(Tcp, 2)];
    PlanOverReserved(steps, 1, 1, 8_192);
    assert t.plan.steps == steps && GlobalGap(t) == 1.0;
    hide Run, Reserved, PlanOver, FirstStep;
    EarlyWakeShortensGap(t, 0.5);
  }

  function TwoProbes(): Task {
    Task(PlanOver([LoopbackProbe(Tcp, 1), LoopbackProbe(Tcp, 2)], 1, 1, 8_192),
         Envelope(Quoted("1"), Quoted("scan"), Quoted("127.0.0.1"), Object([]), Object([])),
         "2026-01-01T09:00:00.000000Z", (j: Json) => true, (step: ProbeStep, labels: Option<Labels>) => [])
  }
}
