/** The canonical result document of a task, member by member in the sorted key
    order of the codec, and the exact octet count of its parts. */
module ResultDocument {
  import opened JsonText

  datatype TaskState = Pending | Running | Completed | Failed | Cancelled

  predicate Terminal(state: TaskState) {
    state.Completed? || state.Failed? || state.Cancelled?
  }

  function StateText(state: TaskState): string {
    match state
    case Pending => "pending"
    case Running => "running"
    case Completed => "completed"
    case Failed => "failed"
    case Cancelled => "cancelled"
  }

  datatype Progress = Progress(admitted: nat, completed: nat, total: nat)

  /** An instant in the codec's fixed-width microsecond form. */
  type Stamp = s: string | |s| == 27 witness "2026-01-01T00:00:00.000000Z"

  /** What stays fixed for one task from submission to its terminal result. */
  datatype Envelope = Envelope(
    taskId: Json, taskKind: Json, target: Json, requested: Json, effective: Json)

  function ProgressFields(p: Progress): seq<Member> {
    [ Member("admitted", Scalar(Decimal(p.admitted))),
      Member("completed", Scalar(Decimal(p.completed))),
      Member("total", Scalar(Decimal(p.total))) ]
  }

  function ResultFields(
    e: Envelope, state: TaskState, started: Stamp, ended: Stamp, p: Progress,
    observations: seq<Json>, conclusions: seq<Json>, capabilities: seq<Json>, errors: seq<Json>): seq<Member>
  {
    [ Member("capabilities", List(capabilities)),
      Member("conclusions", List(conclusions)),
      Member("direction", Quoted("local")),
      Member("effective_config", e.effective),
      Member("ended_at", Quoted(ended)),
      Member("errors", List(errors)),
      Member("observations", List(observations)),
      Member("progress", Object(ProgressFields(p))),
      Member("requested_config", e.requested),
      Member("schema_version", Quoted("1.1")),
      Member("started_at", Quoted(started)),
      Member("state", Quoted(StateText(state))),
      Member("target", e.target),
      Member("task_id", e.taskId),
      Member("task_kind", e.taskKind) ]
  }

  function ResultWire(
    e: Envelope, state: TaskState, started: Stamp, ended: Stamp, p: Progress,
    observations: seq<Json>, conclusions: seq<Json>, capabilities: seq<Json>, errors: seq<Json>): Json
  {
    Object(ResultFields(e, state, started, ended, p, observations, conclusions, capabilities, errors))
  }

  /** Filling one empty list of an object adds what the list holds between its brackets. */
  lemma {:induction false} FillList(fields: seq<Member>, i: nat, items: seq<Json>)
    requires i < |fields| && fields[i].value == List([])
    ensures |Text(Object(fields[i := fields[i].(value := List(items))]))| == |Text(Object(fields))| + ListBytes(items)
  {
    ListBytesExact(items);
    ListBytesExact([]);
    assert ListBytes([]) == 0;
    ReplaceField(fields, i, List(items));
    hide Text, ListBytes;
  }

  /** Serialising a whole result costs the empty result plus what each list
      holds between its brackets, commas included. */
  lemma {:induction false} ResultBytesSplit(
    e: Envelope, state: TaskState, started: Stamp, ended: Stamp, p: Progress,
    observations: seq<Json>, conclusions: seq<Json>, capabilities: seq<Json>, errors: seq<Json>)
    ensures |Text(ResultWire(e, state, started, ended, p, observations, conclusions, capabilities, errors))|
         == |Text(ResultWire(e, state, started, ended, p, [], [], [], []))|
            + ListBytes(observations) + ListBytes(conclusions) + ListBytes(capabilities) + ListBytes(errors)
  {
    hide Text, ListBytes;
    var f0 := ResultFields(e, state, started, ended, p, [], [], [], []);
    var f1 := ResultFields(e, state, started, ended, p, [], [], capabilities, []);
    var f2 := ResultFields(e, state, started, ended, p, [], conclusions, capabilities, []);
    var f3 := ResultFields(e, state, started, ended, p, [], conclusions, capabilities, errors);
    FillList(f0, 0, capabilities);
    assert f1 == f0[0 := f0[0].(value := List(capabilities))];
    FillList(f1, 1, conclusions);
    assert f2 == f1[1 := f1[1].(value := List(conclusions))];
    FillList(f2, 5, errors);
    assert f3 == f2[5 := f2[5].(value := List(errors))];
    FillList(f3, 6, observations);
    assert ResultFields(e, state, started, ended, p, observations, conclusions, capabilities, errors)
        == f3[6 := f3[6].(value := List(observations))];
  }

  /** Only the decimal width of the progress counters moves a document whose
      lists are fixed: stamps have one width. */
  lemma {:induction false} ProgressBytes(
    e: Envelope, state: TaskState, started: Stamp, ended: Stamp, p: Progress,
    started': Stamp, ended': Stamp, p': Progress,
    observations: seq<Json>, conclusions: seq<Json>, capabilities: seq<Json>, errors: seq<Json>)
    requires p.total == p'.total
    ensures |Text(ResultWire(e, state, started, ended, p, observations, conclusions, capabilities, errors))|
            + Digits(p'.admitted) + Digits(p'.completed)
         == |Text(ResultWire(e, state, started', ended', p', observations, conclusions, capabilities, errors))|
            + Digits(p.admitted) + Digits(p.completed)
  {
    var f0 := ResultFields(e, state, started, ended, p, observations, conclusions, capabilities, errors);
    var f1 := f0[4 := f0[4].(value := Quoted(ended'))];
    var f2 := f1[10 := f1[10].(value := Quoted(started'))];
    var f3 := f2[7 := f2[7].(value := Object(ProgressFields(p')))];
    ReplaceField(f0, 4, Quoted(ended'));
    ReplaceField(f1, 10, Quoted(started'));
    ReplaceField(f2, 7, Object(ProgressFields(p')));
    assert f3 == ResultFields(e, state, started', ended', p', observations, conclusions, capabilities, errors);
    CounterBytes(p, p');
  }

  lemma {:induction false} CounterBytes(p: Progress, p': Progress)
    requires p.total == p'.total
    ensures |Text(Object(ProgressFields(p)))| + Digits(p'.admitted) + Digits(p'.completed)
         == |Text(Object(ProgressFields(p')))| + Digits(p.admitted) + Digits(p.completed)
  {
    var g0 := ProgressFields(p);
    var g1 := g0[0 := g0[0].(value := Scalar(Decimal(p'.admitted)))];
    var g2 := g1[1 := g1[1].(value := Scalar(Decimal(p'.completed)))];
    ReplaceField(g0, 0, Scalar(Decimal(p'.admitted)));
    ReplaceField(g1, 1, Scalar(Decimal(p'.completed)));
    assert g2 == ProgressFields(p');
    DecimalLength(p.admitted);
    DecimalLength(p.completed);
    DecimalLength(p'.admitted);
    DecimalLength(p'.completed);
  }

  // --- the bounded fallback ---------------------------------------------------

  function BudgetObservation(instant: Stamp): Json {
    Object([ Member("attempt", Scalar("1")),
      Member("detail", Object([Member("scope", Quoted("aggregate_result"))])),
      Member("direction", Quoted("local")),
      Member("disposition", Quoted("error")),
      Member("duration_ms", Scalar("0.0")),
      Member("ended_at", Quoted(instant)),
      Member("evidence_kind", Quoted("execution_error")),
      Member("id", Quoted("task-output-budget")),
      Member("probe", Quoted("task_output")),
      Member("source", Quoted("mercury.tasks")),
      Member("started_at", Quoted(instant)),
      Member("target", Quoted("task")) ])
  }

  const BUDGET_CONCLUSION: Json :=
    Object([ Member("alternatives", List([])),
      Member("confidence", Quoted("high")),
      Member("health", Quoted("failed")),
      Member("id", Quoted("task-output-summary")),
      Member("limitations", List([Quoted("Only the bounded terminal summary was retained.")])),
      Member("observation_ids", List([Quoted("task-output-budget")])),
      Member("summary", Quoted("The full result exceeded its authorized output ceiling; detailed evidence was omitted.")),
      Member("title", Quoted("Task output was bounded")) ])

  const BUDGET_ERROR: Json := Quoted("task result exceeded the output budget; detailed evidence was omitted")

  /** `_output_budget_result`: `instant` is the later of the two other stamps. */
  function FallbackWire(e: Envelope, started: Stamp, ended: Stamp, instant: Stamp, p: Progress): Json {
    ResultWire(e, Failed, started, ended, p, [BudgetObservation(instant)], [BUDGET_CONCLUSION], [], [BUDGET_ERROR])
  }

  lemma {:induction false} BudgetObservationBytes(instant: Stamp, instant': Stamp)
    ensures |Text(BudgetObservation(instant))| == |Text(BudgetObservation(instant'))|
  {
    var f0 := BudgetObservation(instant).fields;
    var f1 := f0[5 := f0[5].(value := Quoted(instant'))];
    ReplaceField(f0, 5, Quoted(instant'));
    ReplaceField(f1, 10, Quoted(instant'));
    assert f1[10 := f1[10].(value := Quoted(instant'))] == BudgetObservation(instant').fields;
  }

  /** At the end of a task the fallback is as long as the one measured at
      submission, plus the extra decimal places of the two progress counters. */
  lemma FallbackBytes(
    e: Envelope, started: Stamp, ended: Stamp, instant: Stamp, p: Progress, submitted: Stamp)
    ensures |Text(FallbackWire(e, started, ended, instant, p))|
         == |Text(FallbackWire(e, submitted, submitted, submitted, Progress(0, 0, p.total)))|
            + (Digits(p.admitted) - 1) + (Digits(p.completed) - 1)
  {
    var zero := Progress(0, 0, p.total);
    var o, o' := [BudgetObservation(instant)], [BudgetObservation(submitted)];
    var c, r := [BUDGET_CONCLUSION], [BUDGET_ERROR];
    ProgressBytes(e, Failed, started, ended, p, submitted, submitted, zero, o, c, [], r);
    ResultBytesSplit(e, Failed, submitted, submitted, zero, o, c, [], r);
    ResultBytesSplit(e, Failed, submitted, submitted, zero, o', c, [], r);
    BudgetObservationBytes(instant, submitted);
    assert ListBytes(o) == |Text(o[0])| && ListBytes(o') == |Text(o'[0])|;
  }

  // --- how long the three items of the fallback can be --------------------------------

  lemma {:induction false} FieldsWithin(fields: seq<Member>, width: nat)
    requires forall i :: 0 <= i < |fields| ==> |Field(fields[i])| < width
    ensures |Fields(fields)| <= |fields| * width
  {
    if fields != [] {
      hide Field;
      FieldsWithin(fields[..|fields| - 1], width);
      Distribute(|fields| - 1, width);
    }
  }

  lemma Distribute(n: nat, width: nat)
    ensures (n + 1) * width == n * width + width
  {
  }

  lemma QuotedField(key: string, s: string)
    ensures |Field(Member(key, Quoted(s)))| == |key| + |s| + 5
  {
  }

  lemma FallbackItems(instant: Stamp)
    ensures |Text(BudgetObservation(instant))| + |Text(BUDGET_CONCLUSION)| + |Text(BUDGET_ERROR)| <= 1_600
  {
    BudgetObservationWithin(instant);
    BudgetConclusionWithin();
  }

  lemma BudgetObservationWithin(instant: Stamp)
    ensures |Text(BudgetObservation(instant))| <= 602
  {
    var f := BudgetObservation(instant).fields;
    forall i | 0 <= i < |f| ensures |Field(f[i])| < 50 {
      if i == 1 {
        var scope := [Member("scope", Quoted("aggregate_result"))];
        assert f[1].value == Object(scope) && Fields(scope) == Field(scope[0]);
        QuotedField("scope", "aggregate_result");
      }
    }
    FieldsWithin(f, 50);
  }

  lemma BudgetConclusionWithin()
    ensures |Text(BUDGET_CONCLUSION)| <= 802
  {
    var f := BUDGET_CONCLUSION.fields;
    forall i | 0 <= i < |f| ensures |Field(f[i])| < 100 {
    }
    FieldsWithin(f, 100);
  }
}
