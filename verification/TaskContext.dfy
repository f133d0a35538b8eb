/** The task context as the mutable object it is. Each method is one atomic action
    and is proved to leave the fields exactly as `TaskLedger` says, so every theorem
    about runs is about sequences of these calls. */
module TaskContexts {
  import opened Outcomes
  import opened JsonText
  import opened ResultDocument
  import opened Plans
  import opened TaskLedger
  import opened TaskInvariants

  class TaskContext {
    const task: Task

    /** The mutable fields, grouped: step sets with their counters, reserved I/O spent,
        persisted events, next start times, per-step counters, and collected output. */
    var book: Book
    var spend: Spend
    var events: nat
    var pacing: Pacing
    var counts: map<StepId, Counts>
    var out: Output

    /** Who holds the admission lock, with the locals its coroutine keeps across a suspension. */
    var admission: Admission
    var cancelled: bool

    ghost var begun: seq<Begun>
    ghost var stored: nat

    ghost function Current(): Machine
      reads this
    {
      Machine(Ledger(book, spend, events, pacing, counts, out), admission, cancelled, begun, stored)
    }

    ghost predicate Invariant()
      reads this
    {
      Reserved(task.plan) && Valid(task, Current())
    }

    constructor (task: Task, now: real)
      requires Reserved(task.plan)
      ensures this.task == task && Current() == Initial(task, now)
      ensures Invariant()
    {
      this.task := task;
      book := Book(0, 0, {}, map[], {}, {});
      spend := Spend(0, 0, 0);
      events := 3;   // accepted and running exist already; one cancellation is reserved
      pacing := Pacing(now, map[]);
      counts := map id | id in Ids(task) :: Counts(0, 0, 0, 0, 0);
      out := Output([], [], [], [], Quad(0, 0, 0, 0), Quad(0, 0, 0, 0));
      admission, cancelled := Idle, false;
      begun, stored := [], 0;
      new;
      InitialValid(task, now);
    }

    /** Every call below is one reaction, so it keeps the invariant. */
    lemma Keeps(a: Action)
      ensures Invariant() ==> Valid(task, React(task, Current(), a).next)
    {
      hide Valid, React;
      if Invariant() {
        ActionValid(task, Current(), a);
      }
    }

    /** `admit` up to its first suspension. */
    method AdmitBegin(id: StepId) returns (error: Option<TaskError>)
      modifies this`admission
      ensures Reaction(Current(), error) == Begin(task, old(Current()), id)
      ensures old(Invariant()) ==> Invariant()
    {
      hide Valid, Reserved;
      Keeps(Action.AdmitBegin(id));
      if id !in Ids(task) { return Some(UnknownStep); }
      if cancelled { return Some(CooperativeCancellation); }
      if !admission.Idle? { return None; }
      if id in book.admittedSteps { return Some(AdmittedTwice); }
      if book.admitted >= Total(task) { return Some(PlanExceeded); }
      if book.admitted - book.completed >= task.plan.limits.maxConcurrency { return Some(ConcurrencyCeiling); }
      admission := Checked(id);
      return None;
    }

    /** `admit` from the preflight answer to the pacing wait. */
    method AdmitPrepare(now: real, preflight: Result<Prepared, Failure>) returns (error: Option<TaskError>)
      modifies this`admission
      ensures Reaction(Current(), error) == Prepare(task, old(Current()), now, preflight)
      ensures old(Invariant()) ==> Invariant()
    {
      hide Valid, Reserved;
      Keeps(Action.AdmitPrepare(now, preflight));
      if !admission.Checked? { return None; }
      var id := admission.id;
      if preflight.Err? {
        admission := Idle;
        return Some(PreflightRefused);
      }
      var prepared := preflight.value;
      if StepOf(task.plan.steps, id) != Some(prepared.step) { return None; }
      if cancelled {
        admission := Idle;
        return Some(CooperativeCancellation);
      }
      var key := ExpectedTarget(prepared);
      var nextTarget := if key in pacing.nextTarget then pacing.nextTarget[key] else now;
      var startAt := Max(Max(now, pacing.nextGlobal), nextTarget);
      admission := Waiting(id, prepared, startAt);
      return None;
    }

    /** `admit` after the pacing wait. Pacing moves before the reservations are checked,
        so a refused step still delays its successors. */
    method AdmitWake(actual: real, timedOut: bool) returns (error: Option<TaskError>)
      modifies this
      ensures Reaction(Current(), error) == Wake(task, old(Current()), actual, timedOut)
      ensures old(Invariant()) ==> Invariant()
    {
      hide Valid, Reserved;
      Keeps(Action.AdmitWake(actual, timedOut));
      if !admission.Waiting? || (!timedOut && !cancelled) { return None; }
      var Waiting(id, prepared, startAt) := admission;
      admission := Idle;
      if !timedOut { return Some(CooperativeCancellation); }
      var key, at := ExpectedTarget(prepared), Max(startAt, actual);
      pacing := Pacing(
        at + Gap(task.plan.limits.maxGlobalRate),
        pacing.nextTarget[key := at + Gap(task.plan.limits.maxTargetRate)]);
      var cost := prepared.step.fields.cost;
      var nextDatagrams := spend.datagrams + cost.datagrams;
      var nextBytes := spend.bytes + cost.applicationBytes;
      var nextPackets := spend.packets + cost.packets;
      if nextDatagrams > task.plan.estimate.datagrams { return Some(DatagramReservation); }
      if nextBytes > task.plan.estimate.applicationBytes { return Some(ByteReservation); }
      if nextPackets > task.plan.estimate.packets { return Some(PacketReservation); }
      spend := Spend(nextDatagrams, nextBytes, nextPackets);
      book := book.(
        admittedSteps := book.admittedSteps + {id}, prepared := book.prepared[id := prepared],
        admitted := book.admitted + 1);
      begun := begun + [Begun(key, at, actual)];
      return None;
    }

    /** `_reserve_output_item`: the totals move only when the item fits. */
    method ReserveOutputItem(ended: Stamp, c: Collection, wire: Json) returns (error: Option<TaskError>)
      modifies this`out
      ensures var reserved := ReserveOutput(task, old(Current()).ledger, ended, c, wire);
              if reserved.Ok? then error.None? && out == reserved.value
              else error == Some(reserved.error) && out == old(out)
      ensures out == old(out).(bytes := out.bytes, counts := out.counts)
    {
      if !(book.completed <= book.admitted <= Total(task)) { return Some(InvalidResult); }
      var baseline := ResultWire(
        task.envelope, Completed, task.started, ended, Progress(book.admitted, book.completed, Total(task)), [], [], [], []);
      var contribution := |Text(wire)|;
      if out.counts.Of(c) > 0 {
        contribution := contribution + 1;
      }
      var size := |Text(baseline)| + out.bytes.Total() + contribution;
      if size > task.plan.limits.maxOutputBytes { return Some(OutputBudget); }
      out := out.(bytes := out.bytes.Add(c, contribution), counts := out.counts.Add(c, 1));
      return None;
    }

    /** `_append_observation`: the list and the event count move before the store answers. */
    method AppendObservation(ended: Stamp, o: Observation, storeOk: bool) returns (error: Option<TaskError>)
      modifies this`out, this`events, this`stored
      ensures Reaction(Current(), error) == Append(task, old(Current()), ended, o, storeOk)
      ensures old(Invariant()) ==> Invariant()
    {
      hide Valid, Reserved;
      Keeps(RecordAggregate(ended, o, storeOk));
      hide ReserveOutput;
      if !task.safe(Wire(o)) { return Some(UnsafeContent); }
      if events + 2 > task.plan.limits.maxEvents { return Some(EventBudget); }
      error := ReserveOutputItem(ended, InObservations, Wire(o));
      if error.Some? { return; }
      out := out.(observations := out.observations + [o]);
      events := events + 1;
      if !storeOk { return Some(HistoryFailure); }
      stored := stored + 1;
      return None;
    }

    /** `record` and `record_paired`. */
    method Record(ended: Stamp, o: Observation, step: Option<StepId>, labels: Option<Labels>, storeOk: bool)
      returns (error: Option<TaskError>)
      modifies this
      ensures Reaction(Current(), error) == RecordBound(task, old(Current()), ended, o, step, labels, storeOk)
      ensures old(Invariant()) ==> Invariant()
    {
      hide Valid, Reserved;
      Keeps(Action.Record(ended, o, step, labels, storeOk));
      hide Refusal, Text, Append, Bind;
      error := Refusal(task, Ledger(book, spend, events, pacing, counts, out), o, step, labels);
      if error.Some? { return; }
      PassedGuards(task, Current().ledger, o, step, labels);
      var id := step.value;
      var prepared := book.prepared[id];
      var bound := Bind(task, o, prepared, labels);
      var mine := if id in counts then counts[id] else Counts(0, 0, 0, 0, 0);
      var contribution := |Text(Wire(bound))|;
      if mine.observations >= prepared.step.fields.cost.maxObservations { return Some(StepObservations); }
      if mine.outputBytes + contribution > prepared.step.fields.cost.maxOutputBytes { return Some(StepOutput); }
      error := AppendObservation(ended, bound, storeOk);
      if error.Some? { return; }
      counts := counts[id :=
        mine.(observations := mine.observations + 1, outputBytes := mine.outputBytes + contribution)];
      book := book.(observed := book.observed + {id});
    }

    /** `complete_attempt`. */
    method CompleteAttempt(id: StepId) returns (error: Option<TaskError>)
      modifies this`book
      ensures Reaction(Current(), error) == CompleteStep(old(Current()), id)
      ensures old(Invariant()) ==> Invariant()
    {
      hide Valid, Reserved;
      Keeps(Complete(id));
      if id !in book.admittedSteps { return Some(NotAdmitted); }
      if id in book.completedSteps { return Some(CompletedTwice); }
      if id !in book.observed { return Some(NoEvidence); }
      book := book.(completedSteps := book.completedSteps + {id}, completed := book.completed + 1);
      return None;
    }

    /** `complete_aggregate_attempt`. */
    method CompleteAggregateAttempt(id: StepId) returns (error: Option<TaskError>)
      modifies this`book
      ensures Reaction(Current(), error) == CompleteAggregateStep(old(Current()), id)
      ensures old(Invariant()) ==> Invariant()
    {
      hide Valid, Reserved;
      Keeps(CompleteAggregate(id));
      if id !in book.admittedSteps { return Some(NotAdmitted); }
      if id in book.completedSteps { return Some(CompletedTwice); }
      book := book.(observed := book.observed + {id});
      error := CompleteAttempt(id);
    }

    /** The checks that attribute a contribution to an admitted, open step. */
    predicate Attributable(step: Option<StepId>)
      reads this
      ensures Attributable(step) == Attributed(Current().ledger, step)
    {
      step.None? || (
        && step.value in book.admittedSteps && step.value !in book.completedSteps
        && step.value in counts && step.value in book.prepared)
    }

    /** `add_conclusion`. */
    method Conclude(ended: Stamp, c: Conclusion, step: Option<StepId>) returns (error: Option<TaskError>)
      modifies this`out, this`counts
      ensures Reaction(Current(), error) == TaskLedger.Conclude(task, old(Current()), ended, c, step)
      ensures old(Invariant()) ==> Invariant()
    {
      hide Valid, Reserved;
      Keeps(AddConclusion(ended, c, step));
      hide ReserveOutput;
      if c.id == "task-summary" { return Some(ReservedConclusion); }
      if !Attributable(step) { return Some(NotAttributed); }
      if step.Some? && counts[step.value].conclusions >= book.prepared[step.value].step.fields.cost.maxConclusions {
        return Some(StepReservation);
      }
      if |out.conclusions| >= MAX_ITEMS { return Some(TooManyItems); }
      if !task.safe(c.wire) { return Some(UnsafeContent); }
      error := ReserveOutputItem(ended, InConclusions, c.wire);
      if error.Some? { return; }
      out := out.(conclusions := out.conclusions + [c]);
      if step.Some? {
        var mine := counts[step.value];
        counts := counts[step.value := mine.(conclusions := mine.conclusions + 1)];
      }
    }

    /** `add_capability`. */
    method Claim(ended: Stamp, capability: Json, step: Option<StepId>) returns (error: Option<TaskError>)
      modifies this`out, this`counts
      ensures Reaction(Current(), error) == TaskLedger.Claim(task, old(Current()), ended, capability, step)
      ensures old(Invariant()) ==> Invariant()
    {
      hide Valid, Reserved;
      Keeps(AddCapability(ended, capability, step));
      hide ReserveOutput;
      if !Attributable(step) { return Some(NotAttributed); }
      if step.Some? && counts[step.value].capabilities >= book.prepared[step.value].step.fields.cost.maxCapabilities {
        return Some(StepReservation);
      }
      if |out.capabilities| >= MAX_ITEMS { return Some(TooManyItems); }
      if !task.safe(capability) { return Some(UnsafeContent); }
      error := ReserveOutputItem(ended, InCapabilities, capability);
      if error.Some? { return; }
      out := out.(capabilities := out.capabilities + [capability]);
      if step.Some? {
        var mine := counts[step.value];
        counts := counts[step.value := mine.(capabilities := mine.capabilities + 1)];
      }
    }

    /** `add_error`: a full budget is reported as `false`, not raised. */
    method Complain(ended: Stamp, message: Json, step: Option<StepId>) returns (error: Option<TaskError>, added: bool)
      modifies this`out, this`counts
      ensures Reaction(Current(), error) == TaskLedger.Complain(task, old(Current()), ended, message, step)
      ensures added <==> |out.errors| == |old(out.errors)| + 1
      ensures old(Invariant()) ==> Invariant()
    {
      hide Valid, Reserved;
      Keeps(AddError(ended, message, step));
      hide ReserveOutput;
      if !Attributable(step) { return Some(NotAttributed), false; }
      if step.Some? && counts[step.value].errors >= book.prepared[step.value].step.fields.cost.maxErrors {
        return None, false;
      }
      if |out.errors| >= MAX_ITEMS { return None, false; }
      error := ReserveOutputItem(ended, InErrors, message);
      if error.Some? { return None, false; }
      out := out.(errors := out.errors + [message]);
      added := true;
      if step.Some? {
        var mine := counts[step.value];
        counts := counts[step.value := mine.(errors := mine.errors + 1)];
      }
    }

    /** The cancellation token is set. */
    method Cancel()
      modifies this`cancelled
      ensures Current() == React(task, old(Current()), Action.Cancel).next
      ensures old(Invariant()) ==> Invariant()
    {
      hide Valid, Reserved;
      Keeps(Action.Cancel);
      cancelled := true;
    }
  }
}
