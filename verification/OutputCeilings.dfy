/** When the output ceiling of a plan holds for every terminal result of its task. */
module OutputCeilings {
  import opened Outcomes
  import opened JsonText
  import opened ResultDocument
  import opened Plans
  import opened TaskLedger
  import opened TaskInvariants
  import opened TaskLifecycle
  import opened TaskRuns

  predicate EndsWithin(t: Task, r: Option<TerminalResult>) {
    r.Some? ==> |Text(r.value.wire)| <= t.plan.limits.maxOutputBytes
  }

  /** No run of the task, however it ends, commits a result above the ceiling. */
  ghost predicate CeilingKept(t: Task) {
    forall now: real, actions: seq<Action>, how: Ending, c: Closing ::
      EndsWithin(t, Close(t, Run(t, now, actions), how, c))
  }

  /** The ceiling is kept in every run exactly when it has room, at submission, for the
      fallback and for every further decimal place of two counters that reach the total.
      The submission check asks for the fallback alone. */
  lemma {:induction false} CeilingKeptExactly(t: Task, at: Stamp)
    requires Reserved(t.plan)
    ensures CeilingKept(t) <==> SubmittedBytes(t, at) + 2 * (Digits(Total(t)) - 1) <= t.plan.limits.maxOutputBytes
  {
    hide Reserved, Close, Run, Digits, SubmittedBytes, EndsWithin, WholePlan, StoreRefuses, Total;
    if SubmittedBytes(t, at) + 2 * (Digits(Total(t)) - 1) <= t.plan.limits.maxOutputBytes {
      forall now: real, actions: seq<Action>, how: Ending, c: Closing
        ensures EndsWithin(t, Close(t, Run(t, now, actions), how, c))
      {
        RoomSuffices(t, Run(t, now, actions), how, c, at);
      }
    } else {
      ExceedingRun(t, at);
      Exceeds(t, RefusedEnd(t, at));
    }
  }

  lemma RoomSuffices(t: Task, m: Machine, how: Ending, c: Closing, at: Stamp)
    requires SubmittedBytes(t, at) + 2 * (Digits(Total(t)) - 1) <= t.plan.limits.maxOutputBytes
    ensures EndsWithin(t, Close(t, m, how, c))
  {
    hide Close, Digits, SubmittedBytes, Text;
    TerminalSizeBound(t, m, how, c, at);
  }

  lemma Exceeds(t: Task, r: Option<TerminalResult>)
    requires r.Some? && |Text(r.value.wire)| > t.plan.limits.maxOutputBytes
    ensures !EndsWithin(t, r)
  {
  }

  /** Every start of the run is on time, and none after the deadline that the task set itself
      when it began. */
  ghost predicate InTime(t: Task, now: real, actions: seq<Action>) {
    forall b :: b in Run(t, now, actions).begun ==> b.actual == b.at && b.at <= now + t.plan.limits.maxDuration as real
  }

  ghost predicate CeilingKeptInTime(t: Task) {
    forall now: real, actions: seq<Action>, how: Ending, c: Closing ::
      InTime(t, now, actions) ==> EndsWithin(t, Close(t, Run(t, now, actions), how, c))
  }

  /** Nor does the deadline help a plan whose pacing fits into it. */
  lemma {:induction false} CeilingKeptInTimeExactly(t: Task, at: Stamp)
    requires Reserved(t.plan) && (Total(t) - 1) as real * WidestGap(t) <= t.plan.limits.maxDuration as real
    ensures CeilingKeptInTime(t)
            <==> SubmittedBytes(t, at) + 2 * (Digits(Total(t)) - 1) <= t.plan.limits.maxOutputBytes
  {
    hide Reserved, Close, Run, Digits, SubmittedBytes, EndsWithin, WholePlan, StoreRefuses, Total, InTime, WidestGap;
    if SubmittedBytes(t, at) + 2 * (Digits(Total(t)) - 1) <= t.plan.limits.maxOutputBytes {
      forall now: real, actions: seq<Action>, how: Ending, c: Closing
        ensures EndsWithin(t, Close(t, Run(t, now, actions), how, c))
      {
        RoomSuffices(t, Run(t, now, actions), how, c, at);
      }
    } else {
      WholePlanInTime(t);
      ExceedingRun(t, at);
      Exceeds(t, RefusedEnd(t, at));
    }
  }

  lemma WholePlanInTime(t: Task)
    requires Reserved(t.plan) && (Total(t) - 1) as real * WidestGap(t) <= t.plan.limits.maxDuration as real
    ensures InTime(t, 0.0, WholePlan(t, 0.0))
  {
    hide Reserved, Run, WholePlan, Between, Total, WidestGap, OnSchedule, StartAt;
    WholePlanCompletes(t, 0.0);
    LastStart(Total(t), WidestGap(t));
    Scheduled(Run(t, 0.0, WholePlan(t, 0.0)), StartAt(Total(t), 0.0, WidestGap(t)), WidestGap(t), t.plan.limits.maxDuration as real);
  }

  lemma LastStart(n: nat, gap: real)
    ensures StartAt(n, 0.0, gap) - gap == (n - 1) as real * gap
  {
    assert n as real * gap == (n - 1) as real * gap + gap;
  }

  lemma Scheduled(m: Machine, next: real, gap: real, limit: real)
    requires OnSchedule(m, 0.0, next, gap) && next - gap <= limit
    ensures forall b :: b in m.begun ==> b.actual == b.at && b.at <= 0.0 + limit
  {
  }

  // --- the run that exceeds it ---------------------------------------------------------------

  /** The error text of a first commit that failed; the program cuts it at 1024 characters. */
  function FailureText(): string {
    seq(1_000, i => 'e')
  }

  /** The observation that the finalization failure adds. */
  function FinalizationObservation(at: Stamp): Observation {
    Observation(
      "task-finalization-error", "task_finalization", "execution_error", Local, "task", 1,
      [Member("error_type", Quoted("HistoryError")), Member("message", Quoted(FailureText()))],
      [ Member("attempt", Scalar("1")), Member("direction", Quoted("local")), Member("disposition", Quoted("error")),
        Member("duration_ms", Scalar("0.0")), Member("ended_at", Quoted(at)),
        Member("evidence_kind", Quoted("execution_error")), Member("id", Quoted("task-finalization-error")),
        Member("probe", Quoted("task_finalization")), Member("source", Quoted("mercury.tasks")),
        Member("started_at", Quoted(at)), Member("target", Quoted("task")) ])
  }

  /** The conclusion derived from that observation alone. */
  function FailureSummary(): Conclusion {
    Conclusion("task-summary", ["task-finalization-error"], Object([
      Member("alternatives", List([Quoted("Review each protocol-specific observation before attributing root cause.")])),
      Member("confidence", Quoted("high")), Member("health", Quoted("failed")), Member("id", Quoted("task-summary")),
      Member("limitations", List([Quoted("This conclusion does not infer facts not present in observations.")])),
      Member("observation_ids", List([Quoted("task-finalization-error")])),
      Member("summary", Quoted("Task recorded an execution error; prior evidence is retained.")),
      Member("title", Quoted("Task evidence summary")) ]))
  }

  /** A store that refuses the first terminal result and takes the second. */
  function StoreRefuses(at: Stamp): Closing {
    var o := FinalizationObservation(at);
    Closing(at, at, at, at, o, o, o, Quoted(""), Quoted(""), Quoted(FailureText()), [], [FailureSummary()], true, true, false, true)
  }

  /** How that run ends. */
  function RefusedEnd(t: Task, at: Stamp): Option<TerminalResult> {
    Close(t, Run(t, 0.0, WholePlan(t, 0.0)), RunnerReturned, StoreRefuses(at))
  }

  /** Wherever the condition fails, the run that completes every step and then meets a
      store that refuses its first result ends in a fallback above the ceiling. */
  lemma {:induction false} ExceedingRun(t: Task, at: Stamp)
    requires Reserved(t.plan)
    requires SubmittedBytes(t, at) + 2 * (Digits(Total(t)) - 1) > t.plan.limits.maxOutputBytes
    ensures var r := RefusedEnd(t, at);
            && r.Some? && r.value.state == Failed && r.value.progress == Progress(Total(t), Total(t), Total(t))
            && |Text(r.value.wire)| == SubmittedBytes(t, at) + 2 * (Digits(Total(t)) - 1)
  {
    hide Reserved, Run, WholePlan, Digits, SubmittedBytes, Text, Close, StoreRefuses, Done, Total;
    WholePlanRun(t);
    DoneCloses(t, Run(t, 0.0, WholePlan(t, 0.0)), at);
  }

  lemma {:induction false} WholePlanRun(t: Task)
    requires Reserved(t.plan)
    ensures Done(t, Run(t, 0.0, WholePlan(t, 0.0)))
  {
    hide Reserved, Run, WholePlan, Between, Done, OnSchedule;
    WholePlanCompletes(t, 0.0);
    WholePlanDone(t, Run(t, 0.0, WholePlan(t, 0.0)));
  }

  lemma DoneCloses(t: Task, m: Machine, at: Stamp)
    requires Done(t, m) && SubmittedBytes(t, at) + 2 * (Digits(Total(t)) - 1) > t.plan.limits.maxOutputBytes
    ensures var r := Close(t, m, RunnerReturned, StoreRefuses(at));
            && r.Some? && r.value.state == Failed && r.value.progress == Progress(Total(t), Total(t), Total(t))
            && |Text(r.value.wire)| == SubmittedBytes(t, at) + 2 * (Digits(Total(t)) - 1)
  {
    hide Digits, SubmittedBytes, Text, Close, StoreRefuses, FailureWire, FallbackWire;
    RefusedClose(t, m, at);
    FallbackLength(t, m.ledger, at);
    FailureDocument(t, at);
  }

  /** Every step completed, without any evidence. */
  predicate Done(t: Task, m: Machine) {
    && !m.cancelled && m.ledger.book.admitted == m.ledger.book.completed == Total(t)
    && m.ledger.out == Output([], [], [], [], Quad(0, 0, 0, 0), Quad(0, 0, 0, 0))
  }

  lemma WholePlanDone(t: Task, m: Machine)
    requires Reserved(t.plan) && Between(m, t.plan.steps)
    ensures Done(t, m)
  {
  }

  function FailureWire(t: Task, at: Stamp): Json {
    ResultWire(t.envelope, Failed, t.started, at, Progress(Total(t), Total(t), Total(t)),
      [Wire(FinalizationObservation(at))], [FailureSummary().wire], [], [Quoted(FailureText())])
  }

  lemma RefusedClose(t: Task, m: Machine, at: Stamp)
    requires Done(t, m)
    ensures Close(t, m, RunnerReturned, StoreRefuses(at))
         == Some(Bounded(t, m.ledger, Failed, at, at, FailureWire(t, at)))
  {
    hide Bounded, Text, FinalizationObservation, FailureSummary, FailureText, TaskLifecycle.Note, TaskLedger.Complain, ResultWire,
         ResultValid;
    assert FinalizationObservation(at).id == "task-finalization-error" by { FinalizationId(at); }
    var o, c := FinalizationObservation(at), FailureSummary();
    assert Wires([o]) == [Wire(o)] && ConclusionWires([c]) == [c.wire];
    assert [][..0] + [Quoted(FailureText())] == [Quoted(FailureText())];
    CitesItself(at);
    assert [] + [o] == [o];
  }

  lemma CitesItself(at: Stamp)
    ensures ResultValid([FinalizationObservation(at)], [FailureSummary()], 0, 1) && ResultValid([], [], 0, 0)
  {
    var observations := [FinalizationObservation(at)];
    assert observations[0].id == "task-finalization-error";
  }

  lemma FinalizationId(at: Stamp)
    ensures FinalizationObservation(at).id == "task-finalization-error"
  {
  }

  lemma FallbackLength(t: Task, l: Ledger, at: Stamp)
    requires l.book.admitted == l.book.completed == Total(t)
    ensures |Text(Fallback(t, l, at, at).wire)| == SubmittedBytes(t, at) + 2 * (Digits(Total(t)) - 1)
  {
    FallbackBytes(t.envelope, t.started, at, at, ContextProgress(t, l), at);
    hide Text, Digits;
  }

  /** The failure document is longer than the fallback that replaces it. */
  lemma FailureDocument(t: Task, at: Stamp)
    ensures |Text(FailureWire(t, at))|
          > |Text(FallbackWire(t.envelope, t.started, at, at, Progress(Total(t), Total(t), Total(t))))|
  {
    hide Text, FinalizationObservation, FailureSummary, BudgetObservation;
    var p := Progress(Total(t), Total(t), Total(t));
    var o, c, e := Wire(FinalizationObservation(at)), FailureSummary().wire, Quoted(FailureText());
    var o', c', e' := BudgetObservation(at), BUDGET_CONCLUSION, BUDGET_ERROR;
    ResultBytesSplit(t.envelope, Failed, t.started, at, p, [o], [c], [], [e]);
    ResultBytesSplit(t.envelope, Failed, t.started, at, p, [o'], [c'], [], [e']);
    SingleItem(o);
    SingleItem(c);
    SingleItem(e);
    SingleItem(o');
    SingleItem(c');
    SingleItem(e');
    FallbackItems(at);
    LongMessage(at);
    hide ListBytes;
  }

  lemma {:induction false} SingleItem(item: Json)
    ensures ListBytes([item]) == |Text(item)|
  {
    hide Text;
  }

  lemma LongMessage(at: Stamp)
    ensures |Text(Wire(FinalizationObservation(at)))| + |Text(Quoted(FailureText()))| > 2_000
  {
    hide FailureText;
    var o := FinalizationObservation(at);
    assert |FailureText()| == 1_000 by { TextLength(); }
    FieldInside(o.detail, 1);
    var fields := o.others + [Member("detail", Object(o.detail))];
    FieldInside(fields, |fields| - 1);
  }

  lemma TextLength()
    ensures |FailureText()| == 1_000
  {
  }

  // --- one such task ----------------------------------------------------------------------------

  function Probes(n: nat): seq<ProbeStep> {
    seq(n, i requires 0 <= i < n => LoopbackProbe(Tcp, i + 1))
  }

  const MORNING: Stamp := "2026-01-01T09:00:00.000000Z"

  /** A request with ten thousand octets of notes. */
  function LargeRequest(): Envelope {
    Envelope(Quoted("1"), Quoted("scan"), Quoted("127.0.0.1"), Object([Member("notes", Quoted(seq(10_000, i => 'r')))]),
             Object([Member("authorized", Scalar("true")), Member("budget", Object([])), Member("policy_digest", Quoted("1")),
                     Member("profile", Quoted("run")), Member("targets", List([])), Member("warnings", List([]))]))
  }

  function SubmittedFallback(e: Envelope, total: nat): nat {
    |Text(FallbackWire(e, MORNING, MORNING, MORNING, Progress(0, 0, total)))|
  }

  /** Ten probes under the smallest ceiling that the submission check accepts. */
  function TightTask(): Task {
    Task(PlanOver(Probes(10), 1, 1, SubmittedFallback(LargeRequest(), 10)), LargeRequest(), MORNING,
         (j: Json) => true, (step: ProbeStep, labels: Option<Labels>) => [])
  }

  /** It is accepted, and one of its runs, on time and before the deadline, ends two octets
      above the ceiling. */
  lemma TightTaskExceeds()
    ensures Reserved(TightTask().plan) && SubmittedBytes(TightTask(), MORNING) <= TightTask().plan.limits.maxOutputBytes
    ensures InTime(TightTask(), 0.0, WholePlan(TightTask(), 0.0))
    ensures var t := TightTask();
            var r := RefusedEnd(t, MORNING);
            r.Some? && r.value.state == Failed && |Text(r.value.wire)| == t.plan.limits.maxOutputBytes + 2
  {
    hide Text, RefusedEnd, FallbackWire, PlanOver, Reserved, InTime, WholePlan, WidestGap;
    ProbesDistinct(10);
    RoomForRequest();
    PlanOverReserved(Probes(10), 1, 1, SubmittedFallback(LargeRequest(), 10));
    TightTaskFields();
    ExceedingRun(TightTask(), MORNING);
    WholePlanInTime(TightTask());
  }

  lemma ProbesDistinct(n: nat)
    ensures DistinctIds(Probes(n)) && |Probes(n)| == n
  {
  }

  lemma TightTaskFields()
    ensures var t := TightTask();
            && Total(t) == 10 && Digits(10) == 2 && SubmittedBytes(t, MORNING) == t.plan.limits.maxOutputBytes
            && t.plan == PlanOver(Probes(10), 1, 1, SubmittedFallback(LargeRequest(), 10))
            && WidestGap(t) == 1.0 && t.plan.limits.maxDuration == 3_600
  {
    hide Text, FallbackWire;
  }

  lemma RoomForRequest()
    ensures SubmittedFallback(LargeRequest(), 10) >= 10 * 512 + 4_096
  {
    var fields := ResultFields(LargeRequest(), Failed, MORNING, MORNING, Progress(0, 0, 10),
                               [BudgetObservation(MORNING)], [BUDGET_CONCLUSION], [], [BUDGET_ERROR]);
    FieldInside(fields, 8);
    FieldInside(LargeRequest().requested.fields, 0);
    hide Fields, BudgetObservation;
  }
}
