/** What the task invariants say about budgets, reservations and evidence. */
module TaskTheorems {
  import opened Outcomes
  import opened Collections
  import opened JsonText
  import opened ResultDocument
  import opened Plans
  import opened TaskLedger
  import opened TaskInvariants

  // --- output accounting ---------------------------------------------------------------

  /** The candidate result with one more item in collection `c`. */
  function CandidateWith(t: Task, l: Ledger, ended: Stamp, c: Collection, wire: Json): Json {
    ResultWire(t.envelope, Completed, t.started, ended, Progress(l.book.admitted, l.book.completed, Total(t)),
      Wires(l.out.observations) + (if c.InObservations? then [wire] else []),
      ConclusionWires(l.out.conclusions) + (if c.InConclusions? then [wire] else []),
      l.out.capabilities + (if c.InCapabilities? then [wire] else []),
      l.out.errors + (if c.InErrors? then [wire] else []))
  }

  /** After any interleaving, the empty result plus the running totals is the exact
      length of serialising everything recorded so far. */
  lemma {:induction false} IncrementalBytesExact(t: Task, now: real, actions: seq<Action>, ended: Stamp)
    requires Reserved(t.plan)
    ensures var l := Run(t, now, actions).ledger;
            |Text(Baseline(t, l, ended))| + l.out.bytes.Total() == |Text(Candidate(t, l, ended))|
  {
    RunValid(t, now, actions);
    var l := Run(t, now, actions).ledger;
    ResultBytesSplit(t.envelope, Completed, t.started, ended, Progress(l.book.admitted, l.book.completed, Total(t)),
      Wires(l.out.observations), ConclusionWires(l.out.conclusions), l.out.capabilities, l.out.errors);
  }

  lemma ReservationExact(t: Task, l: Ledger, ended: Stamp, c: Collection, wire: Json)
    requires OutputValid(l.out) && l.book.completed <= l.book.admitted <= Total(t)
    ensures var reserved := ReserveOutput(t, l, ended, c, wire);
            && (reserved.Ok? <==> |Text(CandidateWith(t, l, ended, c, wire))| <= t.plan.limits.maxOutputBytes)
            && (reserved.Err? ==> reserved.error == OutputBudget)
  {
    hide Text, ListBytes, ResultFields, Wires, ConclusionWires;
    var o, k, p, r := Wires(l.out.observations), ConclusionWires(l.out.conclusions), l.out.capabilities, l.out.errors;
    assert o + [] == o && k + [] == k && p + [] == p && r + [] == r;
    assert |o| == |l.out.observations| && |k| == |l.out.conclusions| by {
      WireCounts(l.out);
    }
    var progress := Progress(l.book.admitted, l.book.completed, Total(t));
    match c {
      case InObservations =>
        ListBytesAppend(o, wire);
        ResultBytesSplit(t.envelope, Completed, t.started, ended, progress, o + [wire], k, p, r);
      case InConclusions =>
        ListBytesAppend(k, wire);
        ResultBytesSplit(t.envelope, Completed, t.started, ended, progress, o, k + [wire], p, r);
      case InCapabilities =>
        ListBytesAppend(p, wire);
        ResultBytesSplit(t.envelope, Completed, t.started, ended, progress, o, k, p + [wire], r);
      case InErrors =>
        ListBytesAppend(r, wire);
        ResultBytesSplit(t.envelope, Completed, t.started, ended, progress, o, k, p, r + [wire]);
    }
  }

  lemma WireCounts(out: Output)
    ensures |Wires(out.observations)| == |out.observations| && |ConclusionWires(out.conclusions)| == |out.conclusions|
  {
  }

  /** The incremental check refines the simple one: an item is refused exactly when
      serialising the whole result with it would exceed the ceiling. */
  lemma {:induction false} ReservationRefinesSerialisation(
    t: Task, now: real, actions: seq<Action>, ended: Stamp, c: Collection, wire: Json)
    requires Reserved(t.plan)
    ensures var l := Run(t, now, actions).ledger;
            var reserved := ReserveOutput(t, l, ended, c, wire);
            && (reserved.Ok? <==> |Text(CandidateWith(t, l, ended, c, wire))| <= t.plan.limits.maxOutputBytes)
            && (reserved.Err? ==> reserved.error == OutputBudget)
  {
    RunValid(t, now, actions);
    ReservationExact(t, Run(t, now, actions).ledger, ended, c, wire);
  }

  // --- reservations -----------------------------------------------------------------------

  predicate OverReservation(e: Option<TaskError>) {
    e in {Some(PlanExceeded), Some(DatagramReservation), Some(ByteReservation), Some(PacketReservation)}
  }

  /** Because every step is admitted once and the estimate sums over all steps, the
      over-plan and over-reservation errors cannot occur in any run. */
  lemma {:induction false} ReservationErrorsUnreachable(t: Task, now: real, actions: seq<Action>, a: Action)
    requires Reserved(t.plan)
    ensures !OverReservation(React(t, Run(t, now, actions), a).error)
  {
    var m := Run(t, now, actions);
    RunValid(t, now, actions);
    OnlyAdmissionReserves(t, m, a);
    match a
    case AdmitBegin(id) => RoomForAnother(t, m, id);
    case AdmitWake(actual, timedOut) => WakeFits(t, m, actual, timedOut);
    case _ =>
  }

  lemma OnlyAdmissionReserves(t: Task, m: Machine, a: Action)
    ensures OverReservation(React(t, m, a).error) ==> a.AdmitBegin? || a.AdmitWake?
  {
    hide Text, Bind, AllowedEvidence, Begin, Wake, Ids, StepOf, StartTime, Baseline, Wire;
  }

  lemma WakeFits(t: Task, m: Machine, actual: real, timedOut: bool)
    requires Reserved(t.plan) && Valid(t, m)
    ensures !OverReservation(Wake(t, m, actual, timedOut).error)
  {
    hide BookValid, OutputValid, EventsValid, EstimateWithin, LimitsPositive, Spent, Ids, Gap,
         Datagrams, ApplicationBytes, Packets;
    if m.admission.Waiting? {
      var id := m.admission.id;
      SpentAdmit(t.plan.steps, m.ledger.book.admittedSteps, id);
      SpentBounded(t.plan.steps, m.ledger.book.admittedSteps + {id});
    }
  }

  lemma RoomForAnother(t: Task, m: Machine, id: StepId)
    requires Reserved(t.plan) && Valid(t, m)
    ensures !OverReservation(Begin(t, m, id).error)
  {
    hide OutputValid, EventsValid, Spent, EstimateWithin, LimitsPositive, Datagrams, ApplicationBytes, Packets, StepOf, Ids;
    if id in Ids(t) && id !in m.ledger.book.admittedSteps {
      Subset(m.ledger.book.admittedSteps + {id}, Ids(t));
      IdCount(t);
    }
  }

  // --- events --------------------------------------------------------------------------------

  /** Everything the store can hold for one task: accepted, running, at most one
      cancellation, the observations that were stored, and one closing event. */
  lemma {:induction false} EventsWithinBudget(t: Task, now: real, actions: seq<Action>)
    requires Reserved(t.plan)
    ensures 3 + Run(t, now, actions).stored + 1 <= t.plan.limits.maxEvents
  {
    RunValid(t, now, actions);
  }

  /** Step-bound observations accepted so far, in plan order. */
  function BoundCount(steps: seq<ProbeStep>, counts: map<StepId, Counts>): nat {
    if steps == [] then 0
    else
      BoundCount(steps[..|steps| - 1], counts)
      + (if steps[|steps| - 1].id in counts then counts[steps[|steps| - 1].id].observations else 0)
  }

  /** Observations that no step reserved: aggregate or terminal ones, and step
      observations whose event the store refused. */
  function Unbound(actions: seq<Action>): nat {
    if actions == [] then 0
    else
      var last := actions[|actions| - 1];
      Unbound(actions[..|actions| - 1])
      + (if last.RecordAggregate? || (last.Record? && !last.storeOk) then 1 else 0)
  }

  ghost predicate CountsWithin(steps: seq<ProbeStep>, counts: map<StepId, Counts>) {
    forall i :: 0 <= i < |steps| && steps[i].id in counts
      ==> counts[steps[i].id].observations <= steps[i].fields.cost.maxObservations
  }

  lemma {:induction false} BoundCountAdd(steps: seq<ProbeStep>, counts: map<StepId, Counts>, id: StepId, n: Counts)
    requires DistinctIds(steps) && id in counts
    ensures BoundCount(steps, counts[id := n])
         == BoundCount(steps, counts)
            + (if StepOf(steps, id).Some? then n.observations - counts[id].observations else 0)
  {
    if steps != [] {
      var front := steps[..|steps| - 1];
      BoundCountAdd(front, counts, id, n);
      StepOfFound(front, id);
    }
  }

  lemma {:induction false} BoundCountWithin(steps: seq<ProbeStep>, counts: map<StepId, Counts>)
    requires CountsWithin(steps, counts)
    ensures BoundCount(steps, counts) <= Observations(steps)
  {
    if steps != [] {
      BoundCountWithin(steps[..|steps| - 1], counts);
    }
  }

  /** Strictly below the reservation as long as one step has an observation left. */
  lemma {:induction false} BoundCountBelow(steps: seq<ProbeStep>, counts: map<StepId, Counts>, id: StepId)
    requires DistinctIds(steps) && CountsWithin(steps, counts) && id in counts && StepOf(steps, id).Some?
    requires counts[id].observations < StepOf(steps, id).value.fields.cost.maxObservations
    ensures BoundCount(steps, counts) < Observations(steps)
  {
    var front := steps[..|steps| - 1];
    if steps[|steps| - 1].id == id {
      BoundCountWithin(front, counts);
    } else {
      BoundCountBelow(front, counts, id);
    }
  }

  ghost predicate Attribution(t: Task, m: Machine, unbound: nat) {
    && CountsWithin(t.plan.steps, m.ledger.counts)
    && |m.ledger.out.observations| <= BoundCount(t.plan.steps, m.ledger.counts) + unbound
  }

  lemma {:induction false} InitialCount(steps: seq<ProbeStep>, counts: map<StepId, Counts>)
    requires forall id :: id in counts ==> counts[id].observations == 0
    ensures BoundCount(steps, counts) == 0
  {
    if steps != [] {
      InitialCount(steps[..|steps| - 1], counts);
    }
  }

  lemma AppendGrows(t: Task, m: Machine, ended: Stamp, o: Observation, storeOk: bool)
    ensures var r := Append(t, m, ended, o, storeOk);
            |r.next.ledger.out.observations|
            == |m.ledger.out.observations| + (if r.error.None? || r.error == Some(HistoryFailure) then 1 else 0)
    ensures var e := Append(t, m, ended, o, storeOk).error; e.None? ==> storeOk
    ensures Append(t, m, ended, o, storeOk).error == Some(HistoryFailure) ==> !storeOk
    ensures (Append(t, m, ended, o, storeOk).error == Some(EventBudget))
            == (t.safe(Wire(o)) && m.ledger.events + 2 > t.plan.limits.maxEvents)
  {
  }

  lemma RecordAttribution(
    t: Task, m: Machine, ended: Stamp, o: Observation, step: Option<StepId>, labels: Option<Labels>, storeOk: bool, unbound: nat)
    requires DistinctIds(t.plan.steps) && Valid(t, m) && Attribution(t, m, unbound)
    ensures Attribution(t, RecordBound(t, m, ended, o, step, labels, storeOk).next, unbound + (if storeOk then 0 else 1))
  {
    hide Append, Bind, AllowedEvidence, Spent, OutputValid, EventsValid, AdmissionValid, Text, BoundCount, CountsWithin,
         DistinctIds, StepOf, Ids, ExpectedTarget;
    if Refusal(t, m.ledger, o, step, labels).None? {
      var id, p := step.value, m.ledger.book.prepared[step.value];
      var bound := Bind(t, o, p, labels);
      AppendKeeps(t, m, ended, bound, storeOk);
      AppendGrows(t, m, ended, bound, storeOk);
      ObserveBook(t, m.ledger.book, id);
      var n := m.ledger.counts[id];
      var n' := n.(observations := n.observations + 1, outputBytes := n.outputBytes + |Text(Wire(bound))|);
      BoundCountAdd(t.plan.steps, m.ledger.counts, id, n');
      StepOfFound(t.plan.steps, id);
      CountsWithinAfter(t.plan.steps, m.ledger.counts, id, n');
    }
  }

  lemma {:induction false} CountsWithinAfter(steps: seq<ProbeStep>, counts: map<StepId, Counts>, id: StepId, n: Counts)
    requires DistinctIds(steps) && CountsWithin(steps, counts) && StepOf(steps, id).Some?
    ensures n.observations <= StepOf(steps, id).value.fields.cost.maxObservations
            ==> CountsWithin(steps, counts[id := n])
  {
    StepOfFound(steps, id);
  }

  lemma CountsUnchanged(steps: seq<ProbeStep>, counts: map<StepId, Counts>, id: StepId, n: Counts)
    requires DistinctIds(steps) && id in counts && n.observations == counts[id].observations
    ensures BoundCount(steps, counts[id := n]) == BoundCount(steps, counts)
    ensures CountsWithin(steps, counts) ==> CountsWithin(steps, counts[id := n])
  {
    BoundCountAdd(steps, counts, id, n);
  }

  lemma ActionAttribution(t: Task, m: Machine, a: Action, unbound: nat)
    requires DistinctIds(t.plan.steps) && Valid(t, m) && Attribution(t, m, unbound)
    ensures Attribution(t, React(t, m, a).next, unbound + Unbound([a]))
  {
    hide Valid, Spent, OutputValid, BookValid, Text, RecordBound, Append, BoundCount, CountsWithin, AllowedEvidence;
    assert [a][..0] == [];
    match a
    case Record(ended, o, step, labels, storeOk) => RecordAttribution(t, m, ended, o, step, labels, storeOk, unbound);
    case RecordAggregate(ended, o, storeOk) =>
      AppendKeeps(t, m, ended, o, storeOk);
      AppendGrows(t, m, ended, o, storeOk);
    case AddConclusion(_, _, step) =>
      if Attributed(m.ledger, step) && step.Some? {
        var n := m.ledger.counts[step.value];
        CountsUnchanged(t.plan.steps, m.ledger.counts, step.value, n.(conclusions := n.conclusions + 1));
      }
    case AddCapability(_, _, step) =>
      if Attributed(m.ledger, step) && step.Some? {
        var n := m.ledger.counts[step.value];
        CountsUnchanged(t.plan.steps, m.ledger.counts, step.value, n.(capabilities := n.capabilities + 1));
      }
    case AddError(_, _, step) =>
      if Attributed(m.ledger, step) && step.Some? {
        var n := m.ledger.counts[step.value];
        CountsUnchanged(t.plan.steps, m.ledger.counts, step.value, n.(errors := n.errors + 1));
      }
    case _ =>
  }

  lemma InitialAttribution(t: Task, now: real)
    ensures Attribution(t, Initial(t, now), 0)
  {
    InitialCount(t.plan.steps, Initial(t, now).ledger.counts);
  }

  lemma {:induction false} RunAttribution(t: Task, now: real, actions: seq<Action>)
    requires Reserved(t.plan)
    ensures Attribution(t, Run(t, now, actions), Unbound(actions))
  {
    assert DistinctIds(t.plan.steps);
    hide React, Valid, Attribution, Reserved, DistinctIds, Initial;
    if actions == [] {
      InitialAttribution(t, now);
    } else {
      var before, a := actions[..|actions| - 1], actions[|actions| - 1];
      RunValid(t, now, before);
      RunAttribution(t, now, before);
      ActionAttribution(t, Run(t, now, before), a, Unbound(before));
      assert [a][..0] == [] && Unbound(actions) == Unbound(before) + Unbound([a]);
    }
  }

  /** The sparse estimate is enough and tight. A step observation is refused by the
      event budget only once two observations that no step reserved are in the list;
      an aggregate or terminal observation only once there is one. So step evidence
      and the first terminal observation always find room. */
  lemma {:induction false} EventReserveSuffices(t: Task, now: real, actions: seq<Action>, a: Action)
    requires Reserved(t.plan) && EventsReserved(t.plan)
    ensures React(t, Run(t, now, actions), a).error == Some(EventBudget) ==>
              (a.Record? && Unbound(actions) >= 2) || (a.RecordAggregate? && Unbound(actions) >= 1)
  {
    var m := Run(t, now, actions);
    RunValid(t, now, actions);
    RunAttribution(t, now, actions);
    OnlyEvidenceFillsEvents(t, m, a);
    if React(t, m, a).error == Some(EventBudget) {
      if a.Record? {
        RecordFindsRoom(t, m, a, Unbound(actions));
      } else {
        BoundCountWithin(t.plan.steps, m.ledger.counts);
      }
    }
  }

  lemma OnlyEvidenceFillsEvents(t: Task, m: Machine, a: Action)
    ensures React(t, m, a).error == Some(EventBudget)
            ==> (a.Record? || a.RecordAggregate?) && m.ledger.events + 2 > t.plan.limits.maxEvents
  {
    hide Text, Bind, AllowedEvidence;
  }

  lemma RecordFindsRoom(t: Task, m: Machine, a: Action, unbound: nat)
    requires a.Record? && DistinctIds(t.plan.steps) && Valid(t, m) && Attribution(t, m, unbound)
    requires t.plan.limits.maxEvents >= Observations(t.plan.steps) + 5
    requires React(t, m, a).error == Some(EventBudget)
    ensures unbound >= 2
  {
    hide Text, Bind, AllowedEvidence, Append, OutputValid, Spent, Observations, BoundCount, Reserved, PhaseDirection;
    var id := a.step.value;
    ObserveBook(t, m.ledger.book, id);
    AppendGrows(t, m, a.ended, Bind(t, a.observation, m.ledger.book.prepared[id], a.labels), a.storeOk);
    BoundCountBelow(t.plan.steps, m.ledger.counts, id);
  }

  /** Exactly when the event budget refuses an aggregate or terminal observation. */
  lemma {:induction false} EventBudgetExact(t: Task, now: real, actions: seq<Action>, ended: Stamp, o: Observation, storeOk: bool)
    requires Reserved(t.plan)
    ensures var m := Run(t, now, actions);
            (React(t, m, RecordAggregate(ended, o, storeOk)).error == Some(EventBudget))
            <==> t.safe(Wire(o)) && |m.ledger.out.observations| + 5 > t.plan.limits.maxEvents
  {
    hide Text, BookValid, OutputValid, AdmissionValid, Run, Append, ReserveOutput, SpendValid, EstimateWithin;
    RunValid(t, now, actions);
    AppendGrows(t, Run(t, now, actions), ended, o, storeOk);
  }

  // --- exactly once, and on evidence -------------------------------------------------------

  predicate Admits(t: Task, m: Machine, a: Action, id: StepId) {
    && a.AdmitWake? && m.admission.Waiting? && m.admission.id == id
    && React(t, m, a).next.ledger.book != m.ledger.book
  }

  predicate Completes(t: Task, m: Machine, a: Action, id: StepId) {
    (a == Complete(id) || a == CompleteAggregate(id)) && React(t, m, a).error.None?
  }

  predicate Evidences(t: Task, m: Machine, a: Action, id: StepId) {
    React(t, m, a).error.None? && (a == CompleteAggregate(id) || (a.Record? && a.step == Some(id)))
  }

  /** How one action changes the three step sets. */
  lemma BookSteps(t: Task, m: Machine, a: Action, id: StepId)
    requires Valid(t, m)
    ensures var b, b' := m.ledger.book, React(t, m, a).next.ledger.book;
            && (id in b'.admittedSteps <==> id in b.admittedSteps || Admits(t, m, a, id))
            && (id in b'.completedSteps <==> id in b.completedSteps || Completes(t, m, a, id))
            && (id in b'.observed ==> id in b.observed || Evidences(t, m, a, id))
            && (Admits(t, m, a, id) ==> id !in b.admittedSteps)
            && (Completes(t, m, a, id) ==> id !in b.completedSteps)
  {
    hide Text, Bind, AllowedEvidence, OutputValid, EventsValid, Spent, Append, ReserveOutput, BookValid, Ids, StepOf,
         StartTime, Gap, Wire;
    if a.Record? && Refusal(t, m.ledger, a.observation, a.step, a.labels).None? {
      AppendKeeps(t, m, a.ended, Bind(t, a.observation, m.ledger.book.prepared[a.step.value], a.labels), a.storeOk);
    } else if a.RecordAggregate? {
      AppendKeeps(t, m, a.ended, a.observation, a.storeOk);
    }
  }

  /** How often the run admitted, and completed, the step. */
  function Admissions(t: Task, now: real, actions: seq<Action>, id: StepId): nat {
    if actions == [] then 0
    else
      var before, a := actions[..|actions| - 1], actions[|actions| - 1];
      Admissions(t, now, before, id) + (if Admits(t, Run(t, now, before), a, id) then 1 else 0)
  }

  function Completions(t: Task, now: real, actions: seq<Action>, id: StepId): nat {
    if actions == [] then 0
    else
      var before, a := actions[..|actions| - 1], actions[|actions| - 1];
      Completions(t, now, before, id) + (if Completes(t, Run(t, now, before), a, id) then 1 else 0)
  }

  ghost predicate Witnessed(t: Task, now: real, actions: seq<Action>, id: StepId) {
    exists k :: 0 <= k < |actions| && Evidences(t, Run(t, now, actions[..k]), actions[k], id)
  }

  /** A completed step was admitted exactly once and completed exactly once. */
  lemma {:induction false} CompletedOnce(t: Task, now: real, actions: seq<Action>, id: StepId)
    requires Reserved(t.plan)
    ensures var b := Run(t, now, actions).ledger.book;
            && Admissions(t, now, actions, id) == (if id in b.admittedSteps then 1 else 0)
            && Completions(t, now, actions, id) == (if id in b.completedSteps then 1 else 0)
  {
    hide React, Valid, Reserved, BookValid, Admits, Completes, Evidences;
    if actions != [] {
      var before := actions[..|actions| - 1];
      CompletedOnce(t, now, before, id);
      RunValid(t, now, before);
      BookSteps(t, Run(t, now, before), actions[|actions| - 1], id);
    }
  }

  /** An observed step has evidence of its own, or was completed as an aggregate. */
  lemma {:induction false} ObservedOnEvidence(t: Task, now: real, actions: seq<Action>, id: StepId)
    requires Reserved(t.plan)
    ensures id in Run(t, now, actions).ledger.book.observed ==> Witnessed(t, now, actions, id)
  {
    hide React, Valid, Reserved, BookValid, Admits, Completes, Evidences;
    if actions != [] {
      var n := |actions| - 1;
      var before := actions[..n];
      RunValid(t, now, before);
      BookSteps(t, Run(t, now, before), actions[n], id);
      ObservedOnEvidence(t, now, before, id);
      if id in Run(t, now, before).ledger.book.observed {
        var k :| 0 <= k < |before| && Evidences(t, Run(t, now, before[..k]), before[k], id);
        assert actions[..k] == before[..k] && actions[k] == before[k];
      }
    }
  }
}
