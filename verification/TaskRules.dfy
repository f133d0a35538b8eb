/** What a running task takes and what it refuses, spelled out: evidence, conclusions,
    capabilities and errors in every reachable state, the cost of each step, and what
    cancellation stops. */
module TaskRules {
  import opened Outcomes
  import opened JsonText
  import opened ResultDocument
  import opened Plans
  import opened TaskLedger
  import opened TaskInvariants
  import opened TaskTheorems

  // --- evidence -----------------------------------------------------------------------------

  /** The direction of ordinary evidence is that of its kind; paired evidence has labels
      whose phase fixes the direction. */
  predicate Directed(kind: ProbeKind, direction: Direction, labels: Option<Labels>) {
    match labels
    case None => direction == if kind == LocalSnapshot then Local else Outbound
    case Some(l) =>
      && 1 <= |l.endpoint| <= 64 && 1 <= |l.correlation| <= 64 && (kind == TcpConnect || kind == UdpExchange)
      && ((l.phase == "sent" && direction == Reverse) || (l.phase == "arrived" && direction == Inbound)
          || (l.phase == "replied" && direction == Reverse) || (l.phase == "received" && direction == Outbound))
  }

  /** Evidence about this very step: its address (its target if it has none), attempt and
      probe, a kind of evidence that the probe can give, and nothing that the task writes. */
  predicate Concerns(p: Prepared, o: Observation, labels: Option<Labels>) {
    var f := p.step.fields;
    && o.target == (if p.address.Some? then p.address.value else f.target)
    && o.attempt == f.attempt && o.probe == ProbeName(f.kind) && o.evidence in AllowedEvidence(f.kind)
    && Directed(f.kind, o.direction, labels)
    && o.id !in RESERVED_IDS && forall i :: 0 <= i < |o.detail| ==> o.detail[i].key !in RESERVED_KEYS
  }

  /** The observation that is kept: the runner's, with the fields of its step. */
  function Kept(t: Task, p: Prepared, o: Observation, labels: Option<Labels>): Observation {
    o.(detail := o.detail + t.bound(p.step, labels))
  }

  /** The step is admitted and open, the evidence concerns it, and its cost, the event
      budget and the output ceiling have room for the observation as it will be kept. */
  predicate Takes(t: Task, l: Ledger, a: Action)
    requires a.Record?
  {
    && a.step.Some? && a.step.value in l.book.prepared && a.step.value in l.counts
    && var id := a.step.value;
       var p, n := l.book.prepared[id], l.counts[id];
       var wire := Wire(Kept(t, p, a.observation, a.labels));
       && id in l.book.admittedSteps && id !in l.book.completedSteps && Concerns(p, a.observation, a.labels)
       && n.observations + 1 <= p.step.fields.cost.maxObservations
       && n.outputBytes + |Text(wire)| <= p.step.fields.cost.maxOutputBytes
       && t.safe(wire) && l.events + 2 <= t.plan.limits.maxEvents
       && |Text(CandidateWith(t, l, a.ended, InObservations, wire))| <= t.plan.limits.maxOutputBytes
  }

  /** The guards let evidence through exactly when its step is admitted and open and it
      concerns that step. */
  lemma GuardsExactly(l: Ledger, t: Task, o: Observation, step: Option<StepId>, labels: Option<Labels>)
    requires BookValid(t, l.book)
    ensures Refusal(t, l, o, step, labels).None? <==>
              && step.Some? && step.value in l.book.prepared && step.value !in l.book.completedSteps
              && Concerns(l.book.prepared[step.value], o, labels)
  {
    hide AllowedEvidence, ProbeName;
    if step.Some? && step.value in l.book.prepared {
      assert l.book.admittedSteps != {};
      SomeAdmitted(l.book.admittedSteps, step.value);
    }
  }

  lemma SomeAdmitted(steps: set<StepId>, id: StepId)
    requires id in steps
    ensures |steps| > 0
  {
  }

  lemma AppendExactly(t: Task, m: Machine, ended: Stamp, o: Observation, storeOk: bool)
    requires Reserved(t.plan) && Valid(t, m) && m.ledger.book.completed <= m.ledger.book.admitted <= Total(t)
    ensures var r := Append(t, m, ended, o, storeOk);
            var fits := t.safe(Wire(o)) && m.ledger.events + 2 <= t.plan.limits.maxEvents
                        && |Text(CandidateWith(t, m.ledger, ended, InObservations, Wire(o)))| <= t.plan.limits.maxOutputBytes;
            && (r.error.None? <==> fits && storeOk)
            && (fits ==>
                  && r.next.ledger.out.observations == m.ledger.out.observations + [o]
                  && r.next.ledger.events == m.ledger.events + 1 && r.next.stored == m.stored + (if storeOk then 1 else 0)
                  && (!storeOk ==> r.error == Some(HistoryFailure)))
            && (!fits ==> r.next == m)
  {
    hide Text, CandidateWith, Wire, Reserved, ReserveOutput, BookValid, Spent;
    ReservationExact(t, m.ledger, ended, InObservations, Wire(o));
    ReservedKeeps(t, m.ledger, ended, InObservations, Wire(o));
  }

  lemma ReservedKeeps(t: Task, l: Ledger, ended: Stamp, c: Collection, wire: Json)
    ensures var r := ReserveOutput(t, l, ended, c, wire);
            r.Ok? ==> r.value == l.out.(bytes := r.value.bytes, counts := r.value.counts)
  {
    hide Text;
  }

  /** One more observation of the step, in the store and in the step's two counters. */
  predicate RecordedFor(m: Machine, m': Machine, id: StepId, size: nat) {
    && m'.stored == m.stored + 1
    && m'.ledger.book == m.ledger.book.(observed := m.ledger.book.observed + {id})
    && id in m.ledger.counts && id in m'.ledger.counts
    && m'.ledger.counts == m.ledger.counts[id := m'.ledger.counts[id]]
    && m'.ledger.counts[id].observations == m.ledger.counts[id].observations + 1
    && m'.ledger.counts[id].outputBytes == m.ledger.counts[id].outputBytes + size
  }

  /** What a taken record leaves behind; a failing store leaves the observation in the
      task's list and counts nothing for the step. */
  predicate TakenInto(t: Task, m: Machine, r: Reaction, a: Action)
    requires a.Record? && Takes(t, m.ledger, a)
  {
    var id := a.step.value;
    var o := Kept(t, m.ledger.book.prepared[id], a.observation, a.labels);
    && r.next.ledger.out.observations == m.ledger.out.observations + [o]
    && r.next.ledger.events == m.ledger.events + 1
    && if a.storeOk then r.error.None? && RecordedFor(m, r.next, id, |Text(Wire(o))|)
       else r.error == Some(HistoryFailure) && r.next.ledger.book == m.ledger.book && r.next.ledger.counts == m.ledger.counts
  }

  /** In every reachable state: evidence that the task takes is kept with the fields of its
      step and counted; any other is refused without a trace. */
  lemma {:induction false} RecordExactly(t: Task, now: real, actions: seq<Action>, a: Action)
    requires Reserved(t.plan) && a.Record?
    ensures var m := Run(t, now, actions);
            var r := React(t, m, a);
            if Takes(t, m.ledger, a) then TakenInto(t, m, r, a) else r.error.Some? && r.next == m
  {
    RunValid(t, now, actions);
    hide Run, Reserved;
    RecordInState(t, Run(t, now, actions), a);
  }

  lemma RecordInState(t: Task, m: Machine, a: Action)
    requires Reserved(t.plan) && a.Record? && Valid(t, m) && m.ledger.book.completed <= m.ledger.book.admitted <= Total(t)
    ensures var r := React(t, m, a);
            if Takes(t, m.ledger, a) then TakenInto(t, m, r, a) else r.error.Some? && r.next == m
  {
    hide Refusal, Concerns, Text, CandidateWith, Wire, Append, RecordBound, Reserved, OutputValid, EventsValid, AdmissionValid,
         SpendValid, Ids, Total, Kept;
    GuardsExactly(m.ledger, t, a.observation, a.step, a.labels);
    if Refusal(t, m.ledger, a.observation, a.step, a.labels).None? {
      var id := a.step.value;
      var o := Kept(t, m.ledger.book.prepared[id], a.observation, a.labels);
      ObserveBook(t, m.ledger.book, id);
      AppendExactly(t, m, a.ended, o, a.storeOk);
      AppendKeeps(t, m, a.ended, o, a.storeOk);
      PassedRecord(t, m, a);
      hide BookValid;
    } else {
      RefusedRecord(t, m, a);
    }
  }

  lemma RefusedRecord(t: Task, m: Machine, a: Action)
    requires a.Record? && Refusal(t, m.ledger, a.observation, a.step, a.labels).Some?
    ensures React(t, m, a).error.Some? && React(t, m, a).next == m
  {
    hide Refusal;
  }

  /** A record whose guards pass is the append, once the step's two counters have room. */
  lemma PassedRecord(t: Task, m: Machine, a: Action)
    requires a.Record? && Refusal(t, m.ledger, a.observation, a.step, a.labels).None?
    requires a.step.Some? && a.step.value in m.ledger.book.prepared && a.step.value in m.ledger.counts
    ensures var id, r := a.step.value, React(t, m, a);
            var p, n := m.ledger.book.prepared[id], m.ledger.counts[id];
            var o := Kept(t, p, a.observation, a.labels);
            var size, appended := |Text(Wire(o))|, Append(t, m, a.ended, o, a.storeOk);
            if n.observations + 1 > p.step.fields.cost.maxObservations || n.outputBytes + size > p.step.fields.cost.maxOutputBytes
              then r.error.Some? && r.next == m
            else if appended.error.Some? then r == appended
            else
              var l := appended.next.ledger;
              var n' := n.(observations := n.observations + 1, outputBytes := n.outputBytes + size);
              r == Reaction(appended.next.(ledger := l.(counts := l.counts[id := n'],
                                                        book := l.book.(observed := l.book.observed + {id}))), None)
  {
    hide Refusal, Text, Wire, Append;
  }

  // --- conclusions, capabilities and errors ---------------------------------------------------

  /** The contribution is the task's own, or that of an admitted, open step whose cost has
      room; its list has room for 256 at most, and the output ceiling for its text. */
  predicate HasRoom(t: Task, l: Ledger, ended: Stamp, c: Collection, wire: Json, step: Option<StepId>)
    requires !c.InObservations?
  {
    && (step.Some? ==>
          && step.value in l.book.admittedSteps && step.value !in l.book.completedSteps
          && step.value in l.counts && step.value in l.book.prepared
          && UsedBy(l.counts[step.value], c) + 1 <= GrantedBy(l.book.prepared[step.value].step.fields.cost, c))
    && (match c
        case InConclusions => |l.out.conclusions|
        case InCapabilities => |l.out.capabilities|
        case InErrors => |l.out.errors|) + 1 <= 256
    && |Text(CandidateWith(t, l, ended, c, wire))| <= t.plan.limits.maxOutputBytes
  }

  function UsedBy(n: Counts, c: Collection): nat {
    match c
    case InObservations => n.observations
    case InConclusions => n.conclusions
    case InCapabilities => n.capabilities
    case InErrors => n.errors
  }

  function GrantedBy(cost: StepCost, c: Collection): nat {
    match c
    case InObservations => cost.maxObservations
    case InConclusions => cost.maxConclusions
    case InCapabilities => cost.maxCapabilities
    case InErrors => cost.maxErrors
  }

  function OneMore(n: Counts, c: Collection): Counts {
    match c
    case InObservations => n.(observations := n.observations + 1)
    case InConclusions => n.(conclusions := n.conclusions + 1)
    case InCapabilities => n.(capabilities := n.capabilities + 1)
    case InErrors => n.(errors := n.errors + 1)
  }

  /** The step's counter for that collection grows by one; no other counter moves. */
  predicate CountedFor(m: Machine, m': Machine, c: Collection, step: Option<StepId>) {
    if step.None? then m'.ledger.counts == m.ledger.counts
    else
      && step.value in m.ledger.counts
      && m'.ledger.counts == m.ledger.counts[step.value := OneMore(m.ledger.counts[step.value], c)]
  }

  /** What the invariant says of the lists, and of the entries of an admitted step. */
  ghost predicate Kempt(t: Task, m: Machine, step: Option<StepId>) {
    && OutputValid(m.ledger.out) && m.ledger.book.completed <= m.ledger.book.admitted <= Total(t)
    && (step.Some? && step.value in m.ledger.book.admittedSteps ==>
          step.value in m.ledger.counts && step.value in m.ledger.book.prepared)
  }

  lemma {:induction false} RunKempt(t: Task, now: real, actions: seq<Action>, step: Option<StepId>)
    requires Reserved(t.plan)
    ensures Kempt(t, Run(t, now, actions), step)
  {
    RunValid(t, now, actions);
    hide Run, Reserved, OutputValid;
  }

  /** In every reachable state a conclusion is taken exactly when it is not the task's own
      summary, is safe to keep, and has room; otherwise nothing changes. */
  lemma {:induction false} ConcludeExactly(t: Task, now: real, actions: seq<Action>, a: Action)
    requires Reserved(t.plan) && a.AddConclusion?
    ensures var m := Run(t, now, actions);
            var r := React(t, m, a);
            if a.conclusion.id != "task-summary" && t.safe(a.conclusion.wire)
               && HasRoom(t, m.ledger, a.ended, InConclusions, a.conclusion.wire, a.step)
            then r.error.None? && r.next.ledger.out.conclusions == m.ledger.out.conclusions + [a.conclusion]
                 && CountedFor(m, r.next, InConclusions, a.step)
            else r.error.Some? && r.next == m
  {
    RunKempt(t, now, actions, a.step);
    hide Run, Reserved, Kempt, React, HasRoom;
    ConcludeInState(t, Run(t, now, actions), a);
  }

  lemma ConcludeInState(t: Task, m: Machine, a: Action)
    requires a.AddConclusion? && Kempt(t, m, a.step)
    ensures var r := React(t, m, a);
            if a.conclusion.id != "task-summary" && t.safe(a.conclusion.wire)
               && HasRoom(t, m.ledger, a.ended, InConclusions, a.conclusion.wire, a.step)
            then r.error.None? && r.next.ledger.out.conclusions == m.ledger.out.conclusions + [a.conclusion]
                 && CountedFor(m, r.next, InConclusions, a.step)
            else r.error.Some? && r.next == m
  {
    hide Text, CandidateWith, OutputValid, Total;
    ReservationExact(t, m.ledger, a.ended, InConclusions, a.conclusion.wire);
    ReservedKeeps(t, m.ledger, a.ended, InConclusions, a.conclusion.wire);
    hide ReserveOutput;
  }

  /** The same for a capability. */
  lemma {:induction false} ClaimExactly(t: Task, now: real, actions: seq<Action>, a: Action)
    requires Reserved(t.plan) && a.AddCapability?
    ensures var m := Run(t, now, actions);
            var r := React(t, m, a);
            if t.safe(a.capability) && HasRoom(t, m.ledger, a.ended, InCapabilities, a.capability, a.step)
            then r.error.None? && r.next.ledger.out.capabilities == m.ledger.out.capabilities + [a.capability]
                 && CountedFor(m, r.next, InCapabilities, a.step)
            else r.error.Some? && r.next == m
  {
    RunKempt(t, now, actions, a.step);
    hide Run, Reserved, Kempt, React, HasRoom;
    ClaimInState(t, Run(t, now, actions), a);
  }

  lemma ClaimInState(t: Task, m: Machine, a: Action)
    requires a.AddCapability? && Kempt(t, m, a.step)
    ensures var r := React(t, m, a);
            if t.safe(a.capability) && HasRoom(t, m.ledger, a.ended, InCapabilities, a.capability, a.step)
            then r.error.None? && r.next.ledger.out.capabilities == m.ledger.out.capabilities + [a.capability]
                 && CountedFor(m, r.next, InCapabilities, a.step)
            else r.error.Some? && r.next == m
  {
    hide Text, CandidateWith, OutputValid, Total;
    ReservationExact(t, m.ledger, a.ended, InCapabilities, a.capability);
    ReservedKeeps(t, m.ledger, a.ended, InCapabilities, a.capability);
    hide ReserveOutput;
  }

  /** And for an error text, which raises only for a step that is not admitted and open, and
      is dropped in silence when there is no room. */
  lemma {:induction false} ComplainExactly(t: Task, now: real, actions: seq<Action>, a: Action)
    requires Reserved(t.plan) && a.AddError?
    ensures var m := Run(t, now, actions);
            var r := React(t, m, a);
            && (if HasRoom(t, m.ledger, a.ended, InErrors, a.message, a.step)
                then r.next.ledger.out.errors == m.ledger.out.errors + [a.message] && CountedFor(m, r.next, InErrors, a.step)
                else r.next == m)
            && (r.error.Some? <==> a.step.Some? && !(a.step.value in m.ledger.book.admittedSteps
                                                     && a.step.value !in m.ledger.book.completedSteps))
  {
    RunKempt(t, now, actions, a.step);
    hide Run, Reserved, Kempt, React, HasRoom;
    ComplainInState(t, Run(t, now, actions), a);
  }

  lemma ComplainInState(t: Task, m: Machine, a: Action)
    requires a.AddError? && Kempt(t, m, a.step)
    ensures var r := React(t, m, a);
            && (if HasRoom(t, m.ledger, a.ended, InErrors, a.message, a.step)
                then r.next.ledger.out.errors == m.ledger.out.errors + [a.message] && CountedFor(m, r.next, InErrors, a.step)
                else r.next == m)
            && (r.error.Some? <==> a.step.Some? && !(a.step.value in m.ledger.book.admittedSteps
                                                     && a.step.value !in m.ledger.book.completedSteps))
  {
    hide Text, CandidateWith, OutputValid, Total;
    ReservationExact(t, m.ledger, a.ended, InErrors, a.message);
    ReservedKeeps(t, m.ledger, a.ended, InErrors, a.message);
    hide ReserveOutput;
  }

  // --- the cost of a step ----------------------------------------------------------------------

  predicate WithinCost(n: Counts, cost: StepCost) {
    && n.observations <= cost.maxObservations && n.conclusions <= cost.maxConclusions
    && n.capabilities <= cost.maxCapabilities && n.errors <= cost.maxErrors && n.outputBytes <= cost.maxOutputBytes
  }

  ghost predicate CostsKept(t: Task, m: Machine) {
    forall id :: id in m.ledger.counts && StepOf(t.plan.steps, id).Some? ==>
      WithinCost(m.ledger.counts[id], StepOf(t.plan.steps, id).value.fields.cost)
  }

  lemma ActionCosts(t: Task, m: Machine, a: Action)
    requires Valid(t, m) && CostsKept(t, m)
    ensures CostsKept(t, React(t, m, a).next)
  {
    hide CostsKept, Valid, Begin, Prepare, Wake, CompleteStep, CompleteAggregateStep, Conclude, Claim, Complain, RecordBound, Append;
    match a
    case Record(ended, o, step, labels, storeOk) => RecordCosts(t, m, a);
    case RecordAggregate(ended, o, storeOk) =>
      AppendKeeps(t, m, ended, o, storeOk);
      SameCosts(t, m, React(t, m, a).next);
    case AddConclusion(_, _, step) => ConcludeCosts(t, m, a);
    case AddCapability(_, _, step) => ClaimCosts(t, m, a);
    case AddError(_, _, step) => ComplainCosts(t, m, a);
    case _ =>
      CountsUntouched(t, m, a);
      SameCosts(t, m, React(t, m, a).next);
  }

  lemma SameCosts(t: Task, m: Machine, m': Machine)
    requires CostsKept(t, m) && m'.ledger.counts == m.ledger.counts
    ensures CostsKept(t, m')
  {
  }

  lemma CountsUntouched(t: Task, m: Machine, a: Action)
    requires a.AdmitBegin? || a.AdmitPrepare? || a.AdmitWake? || a.AdmitAbort? || a.Complete? || a.CompleteAggregate? || a.Cancel?
    ensures React(t, m, a).next.ledger.counts == m.ledger.counts
  {
    hide StepOf, StartTime, Gap, Ids, Total;
  }

  lemma ConcludeCosts(t: Task, m: Machine, a: Action)
    requires a.AddConclusion? && Valid(t, m) && CostsKept(t, m)
    ensures CostsKept(t, React(t, m, a).next)
  {
    hide Text, ReserveOutput, Ids, Total, StepOf, OutputValid, EventsValid, AdmissionValid, SpendValid;
    if a.step.Some? && a.step.value in m.ledger.book.prepared {
      assert StepOf(t.plan.steps, a.step.value) == Some(m.ledger.book.prepared[a.step.value].step);
    }
    hide BookValid;
  }

  lemma ClaimCosts(t: Task, m: Machine, a: Action)
    requires a.AddCapability? && Valid(t, m) && CostsKept(t, m)
    ensures CostsKept(t, React(t, m, a).next)
  {
    hide Text, ReserveOutput, Ids, Total, StepOf, OutputValid, EventsValid, AdmissionValid, SpendValid;
    if a.step.Some? && a.step.value in m.ledger.book.prepared {
      assert StepOf(t.plan.steps, a.step.value) == Some(m.ledger.book.prepared[a.step.value].step);
    }
    hide BookValid;
  }

  lemma ComplainCosts(t: Task, m: Machine, a: Action)
    requires a.AddError? && Valid(t, m) && CostsKept(t, m)
    ensures CostsKept(t, React(t, m, a).next)
  {
    hide Text, ReserveOutput, Ids, Total, StepOf, OutputValid, EventsValid, AdmissionValid, SpendValid;
    if a.step.Some? && a.step.value in m.ledger.book.prepared {
      assert StepOf(t.plan.steps, a.step.value) == Some(m.ledger.book.prepared[a.step.value].step);
    }
    hide BookValid;
  }

  lemma RecordCosts(t: Task, m: Machine, a: Action)
    requires a.Record? && Valid(t, m) && CostsKept(t, m)
    ensures CostsKept(t, React(t, m, a).next)
  {
    hide Refusal, Text, Wire, Append, RecordBound, Ids, StepOf, OutputValid, EventsValid, AdmissionValid, SpendValid, Kept;
    if Refusal(t, m.ledger, a.observation, a.step, a.labels).None? {
      PassedGuards(t, m.ledger, a.observation, a.step, a.labels);
      ObserveBook(t, m.ledger.book, a.step.value);
      PassedRecord(t, m, a);
      AppendKeeps(t, m, a.ended, Kept(t, m.ledger.book.prepared[a.step.value], a.observation, a.labels), a.storeOk);
    } else {
      RefusedRecord(t, m, a);
    }
  }

  /** In every reachable state no step has used more of anything than its cost reserves. */
  lemma {:induction false} StepCostsKept(t: Task, now: real, actions: seq<Action>, step: ProbeStep)
    requires Reserved(t.plan) && step in t.plan.steps
    ensures var counts := Run(t, now, actions).ledger.counts;
            step.id in counts && WithinCost(counts[step.id], step.fields.cost)
  {
    RunCosts(t, now, actions);
    RunValid(t, now, actions);
    assert step.id in Ids(t);
    PlannedStep(t, step);
    hide Run, Reserved, StepOf, WithinCost;
  }

  lemma {:induction false} PlannedStep(t: Task, step: ProbeStep)
    requires Reserved(t.plan) && step in t.plan.steps
    ensures StepOf(t.plan.steps, step.id) == Some(step)
  {
    var i :| 0 <= i < |t.plan.steps| && t.plan.steps[i] == step;
    StepOfFound(t.plan.steps, step.id);
    hide StepOf;
  }

  lemma {:induction false} RunCosts(t: Task, now: real, actions: seq<Action>)
    requires Reserved(t.plan)
    ensures CostsKept(t, Run(t, now, actions))
  {
    if actions != [] {
      hide React, Reserved, CostsKept, Valid;
      RunCosts(t, now, actions[..|actions| - 1]);
      RunValid(t, now, actions[..|actions| - 1]);
      ActionCosts(t, Run(t, now, actions[..|actions| - 1]), actions[|actions| - 1]);
    }
  }

  // --- cancellation ----------------------------------------------------------------------------

  /** Once a task is cancelled, at most the step whose pacing wait was already under way is
      still admitted, in any continuation of the run. */
  lemma {:induction false} CancellationStopsAdmission(t: Task, now: real, before: seq<Action>, after: seq<Action>)
    requires Run(t, now, before).cancelled
    ensures var m, m' := Run(t, now, before), Run(t, now, before + after);
            && m'.cancelled && m.ledger.book.admittedSteps <= m'.ledger.book.admittedSteps
            && m'.ledger.book.admittedSteps
               <= m.ledger.book.admittedSteps + (if m.admission.Waiting? then {m.admission.id} else {})
            && (m'.admission.Waiting? ==> m'.admission == m.admission)
  {
    if after == [] {
      assert before + after == before;
    } else {
      var front, last := after[..|after| - 1], after[|after| - 1];
      assert (before + after)[..|before + after| - 1] == before + front;
      CancellationStopsAdmission(t, now, before, front);
      CancelledStep(t, Run(t, now, before + front), last);
      hide React, Run;
    }
  }

  lemma CancelledStep(t: Task, m: Machine, a: Action)
    requires m.cancelled
    ensures var m' := React(t, m, a).next;
            && m'.cancelled && m.ledger.book.admittedSteps <= m'.ledger.book.admittedSteps
            && m'.ledger.book.admittedSteps
               <= m.ledger.book.admittedSteps + (if m.admission.Waiting? then {m.admission.id} else {})
            && (m'.admission.Waiting? ==> m'.admission == m.admission)
  {
    hide Text, Wire, ReserveOutput, Refusal, Bind, StartTime, Ids, Total, StepOf, Gap, ExpectedTarget;
    match a
    case Record(ended, o, step, labels, storeOk) => RecordLeaves(t, m, a);
    case RecordAggregate(ended, o, storeOk) => AppendKeeps(t, m, ended, o, storeOk);
    case _ =>
  }

  lemma RecordLeaves(t: Task, m: Machine, a: Action)
    requires a.Record?
    ensures var m' := React(t, m, a).next;
            m'.cancelled == m.cancelled && m'.admission == m.admission && m'.ledger.book.admittedSteps == m.ledger.book.admittedSteps
  {
    hide Refusal, Text, Wire, ReserveOutput, Bind;
  }
}
