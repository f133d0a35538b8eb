/** Runs that exist: how one step is admitted, and the run that takes a whole plan
    through. The witnesses of the other modules are runs of this form. */
module TaskRuns {
  import opened Outcomes
  import opened Collections
  import opened JsonText
  import opened ResultDocument
  import opened Plans
  import opened TaskLedger
  import opened TaskInvariants
  import opened TaskTheorems

  lemma {:induction false} Extend(t: Task, now: real, actions: seq<Action>, a: Action)
    ensures Run(t, now, actions + [a]) == React(t, Run(t, now, actions), a).next
  {
    hide React;
    assert (actions + [a])[..|actions|] == actions;
  }

  lemma {:induction false} FoundStep(steps: seq<ProbeStep>, step: ProbeStep)
    requires step in steps && DistinctIds(steps)
    ensures StepOf(steps, step.id) == Some(step)
  {
    var last := steps[|steps| - 1];
    if last != step {
      var i :| 0 <= i < |steps| && steps[i] == step;
      assert steps[..|steps| - 1][i] == step;
      FoundStep(steps[..|steps| - 1], step);
    }
  }

  // --- one admission --------------------------------------------------------------------

  /** The preflight answer of a step that names its own address. */
  function Planned(step: ProbeStep): Prepared {
    Prepared(step, step.fields.address)
  }

  /** Nothing stands in the way of admitting the step. */
  ghost predicate Ready(t: Task, m: Machine, step: ProbeStep) {
    && m.admission.Idle? && !m.cancelled && step in t.plan.steps && step.id !in m.ledger.book.admittedSteps
    && m.ledger.book.admitted - m.ledger.book.completed < t.plan.limits.maxConcurrency
  }

  /** The start that pacing accounts for when the step's preflight ends at `now` and its
      waiter wakes at `actual`. */
  function StartOf(t: Task, m: Machine, step: ProbeStep, now: real, actual: real): Begun {
    Begun(ExpectedTarget(Planned(step)), Max(StartTime(t, m.ledger, Planned(step), now), actual), actual)
  }

  function Begins(step: ProbeStep): Action {
    AdmitBegin(step.id)
  }

  function Prepares(step: ProbeStep, now: real): Action {
    AdmitPrepare(now, Ok(Planned(step)))
  }

  /** A ready step is admitted by its three actions, none of which raises. */
  lemma ReadyIsAdmitted(t: Task, m: Machine, step: ProbeStep, now: real, actual: real)
    requires Reserved(t.plan) && Valid(t, m) && Ready(t, m, step)
    ensures var one := React(t, m, Begins(step));
            var two := React(t, one.next, Prepares(step, now));
            var three := React(t, two.next, AdmitWake(actual, true));
            && one == Reaction(m.(admission := Checked(step.id)), None)
            && two == Reaction(m.(admission := Waiting(step.id, Planned(step), StartTime(t, m.ledger, Planned(step), now))), None)
            && three.error.None? && Admitted(t, m, three.next, step, now, actual)
  {
    hide Valid, StartTime, Gap, ExpectedTarget, Max, Reserved;
    ReservedStep(t, step);
    BeginsReady(t, m, step);
    WaitingValid(t, m, step, now);
    WakesReady(t, m, step, now, actual);
  }

  lemma ReservedStep(t: Task, step: ProbeStep)
    requires Reserved(t.plan) && step in t.plan.steps
    ensures StepOf(t.plan.steps, step.id) == Some(step)
  {
    hide StepOf;
    FoundStep(t.plan.steps, step);
  }

  /** What an admission leaves behind: one more step in the book, one more start, and
      evidence, counters and events as they were. */
  ghost predicate Admitted(t: Task, m: Machine, m': Machine, step: ProbeStep, now: real, actual: real) {
    && m'.admission.Idle? && m'.cancelled == m.cancelled
    && m'.ledger.book == Admit(m.ledger.book, step.id, Planned(step))
    && m'.begun == m.begun + [StartOf(t, m, step, now, actual)]
    && m'.ledger.pacing == Pace(t, m.ledger, ExpectedTarget(Planned(step)), StartOf(t, m, step, now, actual).at).pacing
    && m'.ledger.out == m.ledger.out && m'.ledger.counts == m.ledger.counts && m'.ledger.events == m.ledger.events
  }

  lemma BeginsReady(t: Task, m: Machine, step: ProbeStep)
    requires Reserved(t.plan) && Valid(t, m) && Ready(t, m, step)
    ensures React(t, m, Begins(step)) == Reaction(m.(admission := Checked(step.id)), None)
  {
    RoomForAnother(t, m, step.id);
    assert step.id in Ids(t);
    hide Reserved, Valid, Ids;
  }

  lemma WaitingValid(t: Task, m: Machine, step: ProbeStep, now: real)
    requires Reserved(t.plan) && Valid(t, m) && Ready(t, m, step) && StepOf(t.plan.steps, step.id) == Some(step)
    ensures var two := React(t, m.(admission := Checked(step.id)), Prepares(step, now)).next;
            && two == m.(admission := Waiting(step.id, Planned(step), StartTime(t, m.ledger, Planned(step), now)))
            && Valid(t, two)
  {
    hide StartTime, Reserved;
    BeginsReady(t, m, step);
    BeginValid(t, m, step.id);
    PrepareValid(t, m.(admission := Checked(step.id)), now, Ok(Planned(step)));
    hide Valid, StepOf;
  }

  lemma WakesReady(t: Task, m: Machine, step: ProbeStep, now: real, actual: real)
    requires Reserved(t.plan)
    requires Valid(t, m.(admission := Waiting(step.id, Planned(step), StartTime(t, m.ledger, Planned(step), now))))
    ensures var waiting := m.(admission := Waiting(step.id, Planned(step), StartTime(t, m.ledger, Planned(step), now)));
            var three := Wake(t, waiting, actual, true);
            three.error.None? && Admitted(t, m, three.next, step, now, actual)
  {
    hide StartTime, Gap, ExpectedTarget, Max;
    WakeFits(t, m.(admission := Waiting(step.id, Planned(step), StartTime(t, m.ledger, Planned(step), now))), actual, true);
    hide Valid, Reserved;
  }

  // --- a whole plan ------------------------------------------------------------------------

  function Admitting(step: ProbeStep, now: real, actual: real): seq<Action> {
    [Begins(step), Prepares(step, now), AdmitWake(actual, true)]
  }

  /** The same for a run. */
  lemma {:induction false} RunAdmits(t: Task, now: real, actions: seq<Action>, step: ProbeStep, at: real, actual: real)
    requires Reserved(t.plan) && Ready(t, Run(t, now, actions), step)
    ensures Admitted(t, Run(t, now, actions), Run(t, now, actions + Admitting(step, at, actual)), step, at, actual)
  {
    hide Reserved, Ready, Admitted, React, Run;
    var one, two := actions + [Begins(step)], actions + [Begins(step)] + [Prepares(step, at)];
    Extend(t, now, actions, Begins(step));
    Extend(t, now, one, Prepares(step, at));
    Extend(t, now, two, AdmitWake(actual, true));
    assert two + [AdmitWake(actual, true)] == actions + Admitting(step, at, actual);
    RunValid(t, now, actions);
    ReadyIsAdmitted(t, Run(t, now, actions), step, at, actual);
  }

  function StartAt(k: nat, now: real, gap: real): real {
    now + k as real * gap
  }

  /** Every step admitted and completed, one after the other, one `gap` apart from `now` on. */
  function Through(steps: seq<ProbeStep>, now: real, gap: real): seq<Action> {
    if steps == [] then []
    else
      var last, at := steps[|steps| - 1], StartAt(|steps| - 1, now, gap);
      Through(steps[..|steps| - 1], now, gap) + Admitting(last, at, at) + [CompleteAggregate(last.id)]
  }

  /** The larger of the two gaps that pacing keeps. */
  function WidestGap(t: Task): real {
    Max(Gap(t.plan.limits.maxGlobalRate), Gap(t.plan.limits.maxTargetRate))
  }

  function WholePlan(t: Task, now: real): seq<Action> {
    Through(t.plan.steps, now, WidestGap(t))
  }

  /** A task between two steps, with no evidence yet. */
  ghost predicate Between(m: Machine, done: seq<ProbeStep>) {
    && m.admission.Idle? && !m.cancelled && m.ledger.events == 3
    && m.ledger.out == Output([], [], [], [], Quad(0, 0, 0, 0), Quad(0, 0, 0, 0))
    && m.ledger.book.admitted == m.ledger.book.completed == |done|
    && (forall id :: id in m.ledger.book.admittedSteps ==> exists i :: 0 <= i < |done| && done[i].id == id)
  }

  /** All starts so far were on time, at least one gap before `next`, and pacing does not
      hold the next step back any longer. */
  ghost predicate OnSchedule(m: Machine, now: real, next: real, gap: real) {
    && m.ledger.pacing.nextGlobal <= next
    && (forall key :: key in m.ledger.pacing.nextTarget ==> m.ledger.pacing.nextTarget[key] <= next)
    && (forall b :: b in m.begun ==> b.actual == b.at && now <= b.at <= next - gap)
  }

  /** The run through the first `k` steps raises nothing, and every step starts on time. */
  lemma {:induction false} ThroughCompletes(t: Task, now: real, k: nat)
    requires Reserved(t.plan) && k <= |t.plan.steps|
    ensures var m := Run(t, now, Through(t.plan.steps[..k], now, WidestGap(t)));
            Between(m, t.plan.steps[..k]) && OnSchedule(m, now, StartAt(k, now, WidestGap(t)), WidestGap(t))
  {
    hide Reserved, Run, Through, Between, Ready, OnSchedule, WidestGap, StartAt;
    var done := t.plan.steps[..k];
    if k == 0 {
      NothingYet(t, now, WidestGap(t));
    } else {
      var before, step := t.plan.steps[..k - 1], t.plan.steps[k - 1];
      ThroughCompletes(t, now, k - 1);
      ThroughStep(before, step, now, WidestGap(t));
      assert done == before + [step];
      OneMore(t, now, Through(before, now, WidestGap(t)), k - 1);
    }
  }

  /** The whole plan, from `now` on. */
  lemma {:induction false} WholePlanCompletes(t: Task, now: real)
    requires Reserved(t.plan)
    ensures Between(Run(t, now, WholePlan(t, now)), t.plan.steps)
    ensures OnSchedule(Run(t, now, WholePlan(t, now)), now, StartAt(Total(t), now, WidestGap(t)), WidestGap(t))
  {
    assert |t.plan.steps| == Total(t);
    hide Reserved, Run, Through, Between, OnSchedule, StartAt, WidestGap, Total;
    assert t.plan.steps[..|t.plan.steps|] == t.plan.steps;
    ThroughCompletes(t, now, |t.plan.steps|);
  }

  lemma {:induction false} NothingYet(t: Task, now: real, gap: real)
    ensures Between(Run(t, now, Through([], now, gap)), [])
    ensures OnSchedule(Run(t, now, Through([], now, gap)), now, StartAt(0, now, gap), gap)
  {
  }

  lemma {:induction false} ThroughStep(steps: seq<ProbeStep>, last: ProbeStep, now: real, gap: real)
    ensures var at := StartAt(|steps|, now, gap);
            Through(steps + [last], now, gap) == Through(steps, now, gap) + Admitting(last, at, at) + [CompleteAggregate(last.id)]
  {
    hide StartAt;
    assert (steps + [last])[..|steps|] == steps;
  }

  lemma NextReady(t: Task, m: Machine, k: nat)
    requires Reserved(t.plan) && k < |t.plan.steps| && Between(m, t.plan.steps[..k])
    ensures Ready(t, m, t.plan.steps[k])
  {
  }

  lemma {:induction false} OneMore(t: Task, now: real, actions: seq<Action>, k: nat)
    requires Reserved(t.plan) && k < |t.plan.steps| && Between(Run(t, now, actions), t.plan.steps[..k])
    requires OnSchedule(Run(t, now, actions), now, StartAt(k, now, WidestGap(t)), WidestGap(t))
    ensures var step, at := t.plan.steps[k], StartAt(k, now, WidestGap(t));
            var m := Run(t, now, actions + Admitting(step, at, at) + [CompleteAggregate(step.id)]);
            && Between(m, t.plan.steps[..k] + [step])
            && OnSchedule(m, now, StartAt(k + 1, now, WidestGap(t)), WidestGap(t))
  {
    hide Reserved, Ready, Run, Between, Admitted, OnSchedule, WidestGap, StartAt;
    var step, m, at := t.plan.steps[k], Run(t, now, actions), StartAt(k, now, WidestGap(t));
    NextReady(t, m, k);
    RunAdmits(t, now, actions, step, at, at);
    Extend(t, now, actions + Admitting(step, at, at), CompleteAggregate(step.id));
    RunValid(t, now, actions);
    CompletedAdmitted(t, m);
    var m' := Run(t, now, actions + Admitting(step, at, at));
    CompletesNext(t, m, m', t.plan.steps[..k], step, at);
    Later(t, k, now);
    ScheduleNext(t, m, m', step, now, at);
  }

  lemma Later(t: Task, k: nat, now: real)
    ensures StartAt(k, now, WidestGap(t)) >= now
    ensures StartAt(k + 1, now, WidestGap(t)) == StartAt(k, now, WidestGap(t)) + WidestGap(t)
  {
    var gap := WidestGap(t);
    assert gap >= 0.0 && k as real * gap >= 0.0;
    assert (k + 1) as real * gap == k as real * gap + gap;
  }

  lemma CompletedAdmitted(t: Task, m: Machine)
    requires Valid(t, m)
    ensures m.ledger.book.completedSteps <= m.ledger.book.admittedSteps
  {
  }

  lemma CompletesNext(t: Task, m: Machine, m': Machine, before: seq<ProbeStep>, step: ProbeStep, at: real)
    requires Between(m, before) && Ready(t, m, step) && Admitted(t, m, m', step, at, at)
    requires m.ledger.book.completedSteps <= m.ledger.book.admittedSteps
    ensures Between(React(t, m', CompleteAggregate(step.id)).next, before + [step])
  {
    hide StartTime, Gap, ExpectedTarget, Max;
    forall id | id in m'.ledger.book.admittedSteps ensures exists i :: 0 <= i < |before + [step]| && (before + [step])[i].id == id {
      if id == step.id {
        assert (before + [step])[|before|].id == id;
      } else {
        var i :| 0 <= i < |before| && before[i].id == id;
        assert (before + [step])[i].id == id;
      }
    }
  }

  /** A step prepared and woken when pacing lets it start leaves the next one a gap later. */
  lemma ScheduleNext(t: Task, m: Machine, m': Machine, step: ProbeStep, now: real, at: real)
    requires OnSchedule(m, now, at, WidestGap(t)) && now <= at && Admitted(t, m, m', step, at, at)
    ensures OnSchedule(React(t, m', CompleteAggregate(step.id)).next, now, at + WidestGap(t), WidestGap(t))
  {
    assert StartOf(t, m, step, at, at) == Begun(ExpectedTarget(Planned(step)), at, at);
    CompletionUnpaced(t, m', step.id);
    hide ExpectedTarget, Gap, React;
  }

  lemma CompletionUnpaced(t: Task, m: Machine, id: StepId)
    ensures var next := React(t, m, CompleteAggregate(id)).next; next.begun == m.begun && next.ledger.pacing == m.ledger.pacing
  {
  }

  // --- plans over given steps --------------------------------------------------------------

  /** One probe of a loopback service; attempts tell the steps apart. */
  function LoopbackProbe(transport: Transport, attempt: nat): ProbeStep {
    var kind := if transport.Udp? then UdpExchange else TcpConnect;
    var cost := StepCost(if transport.Udp? then 1 else 0, 0, 0, 2, 0, 1, 1, 16_384);
    ProbeStep(
      CartesianDigest(kind, "127.0.0.1", Some("127.0.0.1"), None, Some(80), Some(transport), attempt, None, None, NO_PAYLOAD, cost, 1.0),
      StepFields(kind, "127.0.0.1", Some("127.0.0.1"), None, Some(80), Some(transport), attempt, None, None, NO_PAYLOAD, cost,
                 None, None, None, 1.0, true))
  }

  const OPEN_GRANT: Grant := Grant({}, {}, {80}, {Tcp, Udp}, {}, true, "", None)

  /** A plan with these steps and the reservations that go with them. */
  function PlanOver(steps: seq<ProbeStep>, rate: nat, concurrency: nat, outputBytes: nat): Preview {
    var limits := Limits(1, 1, |steps| + concurrency, Datagrams(steps) + 1, ApplicationBytes(steps) + 1, rate, rate, concurrency,
                         3_600, |steps| + 5, outputBytes, Packets(steps) + 1);
    var estimate := Estimate(1, 1, |steps|, Datagrams(steps), ApplicationBytes(steps), concurrency, 3_600, |steps| + 5,
                             |steps| * 512 + 4_096, rate, rate, Packets(steps));
    var draft := Draft("run", [], [80], [Tcp], 1, 0, 0, steps, OPEN_GRANT, [], limits, estimate, []);
    Preview("run", [], [80], [Tcp], 1, 0, 0, steps, OPEN_GRANT, [], limits, estimate, [], 0, draft)
  }

  lemma PlanOverReserved(steps: seq<ProbeStep>, rate: nat, concurrency: nat, outputBytes: nat)
    requires steps != [] && DistinctIds(steps) && rate >= 1 && concurrency >= 1 && outputBytes >= |steps| * 512 + 4_096
    ensures Reserved(PlanOver(steps, rate, concurrency, outputBytes))
  {
    hide Datagrams, ApplicationBytes, Packets;
  }
}
