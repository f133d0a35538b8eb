/** How one task ends: classification of the runner's ending, terminal evidence, the
    terminal result on its three paths, and its commit to the history store. */
module TaskLifecycle {
  import opened Outcomes
  import opened Collections
  import opened JsonText
  import opened ResultDocument
  import opened Plans
  import opened TaskLedger
  import opened TaskInvariants
  import opened TaskTheorems
  import opened TaskContexts

  /** What leaves the runner: a return, a cooperative or task cancellation, the task
      timeout, or any other exception (also that of a failed `mark_running`). */
  datatype Ending = RunnerReturned | RunnerCancelled | RunnerTimedOut | RunnerRaised

  /** Everything the environment contributes while a task closes: clock readings, the
      texts of terminal evidence, derived conclusions, and what the store answers. */
  datatype Closing = Closing(
    recorded: Stamp, ended: Stamp, refinished: Stamp, instant: Stamp,
    failure: Observation, cancellation: Observation, finalization: Observation,
    failureText: Json, noteText: Json, finalizationText: Json,
    derived: seq<Conclusion>, derivedOnFailure: seq<Conclusion>,
    failureStored: bool, cancellationStored: bool, finishOk: bool, refinishOk: bool)

  datatype TerminalResult = TerminalResult(state: TaskState, progress: Progress, wire: Json)

  // --- classification --------------------------------------------------------------------

  predicate Failing(t: Task, m: Machine, how: Ending) {
    how.RunnerTimedOut? || how.RunnerRaised? || (how.RunnerReturned? && !m.cancelled && m.ledger.book.completed != Total(t))
  }

  predicate Cancelling(m: Machine, how: Ending) {
    how.RunnerCancelled? || m.cancelled
  }

  function Classify(t: Task, m: Machine, how: Ending): TaskState {
    if Failing(t, m, how) then Failed
    else if Cancelling(m, how) then Cancelled
    else Completed
  }

  /** `_record_terminal_observation`: a refused terminal observation becomes an error text. */
  function Note(t: Task, m: Machine, c: Closing, o: Observation, storeOk: bool): Machine {
    var appended := Append(t, m, c.recorded, o, storeOk);
    if appended.error.None? then appended.next
    else TaskLedger.Complain(t, appended.next, c.recorded, c.noteText, None).next
  }

  /** The context after the `except` branches and the late cancellation check. */
  function Settle(t: Task, m: Machine, how: Ending, c: Closing): Machine {
    var m1 :=
      if Failing(t, m, how) then
        Note(t, TaskLedger.Complain(t, m, c.recorded, c.failureText, None).next, c, c.failure, c.failureStored)
      else m;
    if Cancelling(m, how) then Note(t, m1.(cancelled := true), c, c.cancellation, c.cancellationStored) else m1
  }

  // --- terminal results --------------------------------------------------------------------

  predicate HasId(observations: seq<Observation>, id: string) {
    exists i :: 0 <= i < |observations| && observations[i].id == id
  }

  /** `TaskResult` construction: bounded counts, distinct observation ids, distinct
      conclusion ids, and no citation of an unknown observation. */
  predicate ResultValid(observations: seq<Observation>, conclusions: seq<Conclusion>, capabilities: nat, errors: nat) {
    && |observations| <= 100_000 && |conclusions| <= 100_000 && capabilities <= 4_096 && errors <= 256
    && (forall i, j :: 0 <= i < j < |observations| ==> observations[i].id != observations[j].id)
    && (forall i, j :: 0 <= i < j < |conclusions| ==> conclusions[i].id != conclusions[j].id)
    && (forall i, k :: 0 <= i < |conclusions| && 0 <= k < |conclusions[i].cites| ==> HasId(observations, conclusions[i].cites[k]))
  }

  /** `_context_progress`. */
  function ContextProgress(t: Task, l: Ledger): Progress {
    var admitted := Least(Total(t), l.book.admitted);
    Progress(admitted, Least(admitted, l.book.completed), Total(t))
  }

  function Fallback(t: Task, l: Ledger, ended: Stamp, instant: Stamp): TerminalResult {
    var p := ContextProgress(t, l);
    TerminalResult(Failed, p, FallbackWire(t.envelope, t.started, ended, instant, p))
  }

  /** Any full document is kept only if it fits; otherwise the bounded fallback replaces it. */
  function Bounded(t: Task, l: Ledger, state: TaskState, ended: Stamp, instant: Stamp, wire: Json): TerminalResult {
    if |Text(wire)| <= t.plan.limits.maxOutputBytes then TerminalResult(state, ContextProgress(t, l), wire)
    else Fallback(t, l, ended, instant)
  }

  /** `_terminal_result`; `None` when the result cannot be constructed. */
  function NormalResult(t: Task, l: Ledger, state: TaskState, c: Closing): Option<TerminalResult> {
    var conclusions := l.out.conclusions + c.derived;
    if !ResultValid(l.out.observations, conclusions, |l.out.capabilities|, |l.out.errors|) then None
    else
      Some(Bounded(t, l, state, c.ended, c.instant,
        ResultWire(t.envelope, state, t.started, c.ended, ContextProgress(t, l),
          Wires(l.out.observations), ConclusionWires(conclusions), l.out.capabilities, l.out.errors)))
  }

  /** The first safe observation of every id. */
  function Revalidated(t: Task, observations: seq<Observation>): seq<Observation> {
    if observations == [] then []
    else
      var kept, last := Revalidated(t, observations[..|observations| - 1]), observations[|observations| - 1];
      if HasId(kept, last.id) || !t.safe(Wire(last)) then kept else kept + [last]
  }

  function SafeItems(t: Task, items: seq<Json>): seq<Json> {
    if items == [] then []
    else
      SafeItems(t, items[..|items| - 1])
      + (if t.safe(items[|items| - 1]) then [items[|items| - 1]] else [])
  }

  /** `_finalization_failure_result`. */
  function FailureResult(t: Task, l: Ledger, ended: Stamp, c: Closing): TerminalResult {
    var kept := Revalidated(t, l.out.observations);
    var observations := if HasId(kept, c.finalization.id) then kept else kept + [c.finalization];
    var errors := l.out.errors[..Least(|l.out.errors|, MAX_ITEMS - 1)] + [c.finalizationText];
    if !ResultValid(observations, c.derivedOnFailure, |SafeItems(t, l.out.capabilities)|, |errors|) then
      Fallback(t, l, ended, c.instant)
    else
      Bounded(t, l, Failed, ended, c.instant,
        ResultWire(t.envelope, Failed, t.started, ended, ContextProgress(t, l), Wires(observations),
          ConclusionWires(c.derivedOnFailure), SafeItems(t, l.out.capabilities), errors))
  }

  /** The rest of `_execute_inner` once the runner has ended: one atomic block without a
      suspension. `None` when the store refuses both terminal results. */
  function Close(t: Task, m: Machine, how: Ending, c: Closing): Option<TerminalResult> {
    var l := Settle(t, m, how, c).ledger;
    var normal := NormalResult(t, l, Classify(t, m, how), c);
    var first := if normal.Some? then normal.value else FailureResult(t, l, c.ended, c);
    if c.finishOk then Some(first)
    else if c.refinishOk then Some(FailureResult(t, l, c.refinished, c))
    else None
  }

  // --- soundness of COMPLETED ----------------------------------------------------------------

  lemma CloseState(t: Task, m: Machine, how: Ending, c: Closing)
    ensures var r := Close(t, m, how, c);
            r.Some? ==> r.value.state == Failed || r.value.state == Classify(t, m, how)
  {
    hide Settle, ResultValid, Text;
  }

  /** Over every run and every way it can end, a COMPLETED result means that nothing was
      cancelled, that the runner returned, and that every step of the plan was admitted
      exactly once and completed exactly once, on evidence or as an aggregate. */
  lemma {:induction false} CompletedIsSound(t: Task, now: real, actions: seq<Action>, how: Ending, c: Closing, id: StepId)
    requires Reserved(t.plan) && id in Ids(t)
    ensures var r := Close(t, Run(t, now, actions), how, c);
            r.Some? && r.value.state == Completed ==>
              && how.RunnerReturned? && !Run(t, now, actions).cancelled
              && Admissions(t, now, actions, id) == 1 && Completions(t, now, actions, id) == 1
              && Witnessed(t, now, actions, id)
  {
    hide Close, Reserved, Valid, Run, Admissions, Completions, Witnessed, Ids, Total;
    var m := Run(t, now, actions);
    CloseState(t, m, how, c);
    RunValid(t, now, actions);
    CompletedOnce(t, now, actions, id);
    ObservedOnEvidence(t, now, actions, id);
    if m.ledger.book.completed == Total(t) {
      AllComplete(t, m);
    }
  }

  lemma AllComplete(t: Task, m: Machine)
    requires Reserved(t.plan) && Valid(t, m) && m.ledger.book.completed == Total(t)
    ensures m.ledger.book.completedSteps == m.ledger.book.observed == m.ledger.book.admittedSteps == Ids(t)
    ensures m.ledger.book.admitted == Total(t)
  {
    IdCount(t);
    Subset(m.ledger.book.completedSteps, Ids(t));
  }

  /** Failure takes precedence over cancellation; a cancelled task that did not fail is
      CANCELLED unless its result had to be bounded; only an uncancelled return with
      every step completed may be COMPLETED. */
  lemma StatePrecedence(t: Task, m: Machine, how: Ending, c: Closing)
    requires Close(t, m, how, c).Some?
    ensures var state := Close(t, m, how, c).value.state;
            && (how.RunnerTimedOut? || how.RunnerRaised? ==> state == Failed)
            && (Cancelling(m, how) && !Failing(t, m, how) ==> state == Cancelled || state == Failed)
            && (state == Completed ==> how.RunnerReturned? && !m.cancelled && m.ledger.book.completed == Total(t))
            && Terminal(state)
  {
    CloseState(t, m, how, c);
  }

  // --- events of a whole task --------------------------------------------------------------------

  lemma NoteValid(t: Task, m: Machine, c: Closing, o: Observation, storeOk: bool)
    requires Valid(t, m)
    ensures Valid(t, Note(t, m, c, o, storeOk))
  {
    hide Valid, Append, TaskLedger.Complain;
    AppendValid(t, m, c.recorded, o, storeOk);
    ComplainValid(t, Append(t, m, c.recorded, o, storeOk).next, c.recorded, c.noteText, None);
  }

  /** The terminal notes keep the task's invariant. */
  lemma SettleValid(t: Task, m: Machine, how: Ending, c: Closing)
    requires Valid(t, m)
    ensures Valid(t, Settle(t, m, how, c))
  {
    hide Valid, Note, TaskLedger.Complain, Failing;
    var failed := TaskLedger.Complain(t, m, c.recorded, c.failureText, None).next;
    ComplainValid(t, m, c.recorded, c.failureText, None);
    NoteValid(t, failed, c, c.failure, c.failureStored);
    var m1 := if Failing(t, m, how) then Note(t, failed, c, c.failure, c.failureStored) else m;
    AbortValid(t, m1);
    NoteValid(t, m1.(cancelled := true), c, c.cancellation, c.cancellationStored);
  }

  /** Everything the store ever holds for one task, over every run and every way it can end:
      accepted, running, at most one cancellation, the observations that were stored, those
      of the terminal notes included, and one closing event. */
  lemma {:induction false} AllEventsWithinBudget(t: Task, now: real, actions: seq<Action>, how: Ending, c: Closing)
    requires Reserved(t.plan)
    ensures 3 + Settle(t, Run(t, now, actions), how, c).stored + 1 <= t.plan.limits.maxEvents
  {
    RunValid(t, now, actions);
    SettleValid(t, Run(t, now, actions), how, c);
    hide Run, Settle;
  }

  // --- size of every terminal result ------------------------------------------------------------

  /** The fallback as `submit` measures it, with no progress yet. */
  function SubmittedBytes(t: Task, at: Stamp): nat {
    |Text(FallbackWire(t.envelope, at, at, at, Progress(0, 0, Total(t))))|
  }

  /** A fallback exceeds the ceiling exactly when the decimal places its counters gained
      since submission are more than the submission check left free. */
  lemma FallbackExceedsExactly(t: Task, l: Ledger, ended: Stamp, instant: Stamp, at: Stamp)
    ensures var p := ContextProgress(t, l);
            |Text(Fallback(t, l, ended, instant).wire)| > t.plan.limits.maxOutputBytes
            <==> SubmittedBytes(t, at) + (Digits(p.admitted) - 1) + (Digits(p.completed) - 1) > t.plan.limits.maxOutputBytes
    ensures |Text(Fallback(t, l, ended, instant).wire)| <= SubmittedBytes(t, at) + 2 * (Digits(Total(t)) - 1)
  {
    var p := ContextProgress(t, l);
    FallbackBytes(t.envelope, t.started, ended, instant, p, at);
    DigitsMonotone(p.admitted, Total(t));
    DigitsMonotone(p.completed, Total(t));
  }

  /** Every result built for `finish_task`, on all three paths, has at most
      max(max_output_bytes, fallback at submission + 2 * (digits of total - 1)) octets. */
  lemma TerminalSizeBound(t: Task, m: Machine, how: Ending, c: Closing, at: Stamp)
    ensures var r := Close(t, m, how, c);
            r.Some? ==>
              || |Text(r.value.wire)| <= t.plan.limits.maxOutputBytes
              || |Text(r.value.wire)| <= SubmittedBytes(t, at) + 2 * (Digits(Total(t)) - 1)
  {
    var l := Settle(t, m, how, c).ledger;
    FallbackExceedsExactly(t, l, c.ended, c.instant, at);
    FallbackExceedsExactly(t, l, c.refinished, c.instant, at);
    hide Settle, ResultValid, Text;
  }

  // --- the method ---------------------------------------------------------------------------------

  /** The end of `_execute_inner` on the live context. */
  method CloseTask(context: TaskContext, how: Ending, c: Closing) returns (result: Option<TerminalResult>)
    modifies context
    ensures result == Close(context.task, old(context.Current()), how, c)
    ensures context.Current() == Settle(context.task, old(context.Current()), how, c)
  {
    hide Settle, Text, ResultValid, FailureResult, NormalResult;
    var t := context.task;
    var state := SettleOn(context, how, c);
    var l := Ledger(context.book, context.spend, context.events, context.pacing, context.counts, context.out);
    assert l == context.Current().ledger;
    hide context.Current;
    var normal := NormalResult(t, l, state, c);
    var first := if normal.Some? then normal.value else FailureResult(t, l, c.ended, c);
    if c.finishOk { return Some(first); }
    if c.refinishOk { return Some(FailureResult(t, l, c.refinished, c)); }
    return None;
  }

  /** The notes written before the result is built, and the state they lead to. */
  method SettleOn(context: TaskContext, how: Ending, c: Closing) returns (state: TaskState)
    modifies context
    ensures state == Classify(context.task, old(context.Current()), how)
    ensures context.Current() == Settle(context.task, old(context.Current()), how, c)
  {
    hide Append, TaskLedger.Complain, Note;
    var failing := how.RunnerTimedOut? || how.RunnerRaised?
      || (how.RunnerReturned? && !context.cancelled && context.book.completed != Total(context.task));
    var cancelling := how.RunnerCancelled? || context.cancelled;
    if failing {
      var _, _ := context.Complain(c.recorded, c.failureText, None);
      NoteOn(context, c, c.failure, c.failureStored);
    }
    if cancelling {
      context.Cancel();
      NoteOn(context, c, c.cancellation, c.cancellationStored);
    }
    state := if failing then Failed else if cancelling then Cancelled else Completed;
  }

  method NoteOn(context: TaskContext, c: Closing, o: Observation, storeOk: bool)
    modifies context
    ensures context.Current() == Note(context.task, old(context.Current()), c, o, storeOk)
  {
    hide Append, TaskLedger.Complain;
    var error := context.AppendObservation(c.recorded, o, storeOk);
    if error.Some? {
      var _, _ := context.Complain(c.recorded, c.noteText, None);
    }
  }
}
