/** What every interleaving of admissions, evidence and completions keeps. */
module TaskInvariants {
  import opened Outcomes
  import opened Collections
  import opened JsonText
  import opened ResultDocument
  import opened Plans
  import opened TaskLedger

  // --- spending over the admitted set ----------------------------------------------

  /** Reserved I/O of the admitted steps, summed in plan order. */
  function Spent(steps: seq<ProbeStep>, admitted: set<StepId>): Spend {
    if steps == [] then Spend(0, 0, 0)
    else
      var before, last := Spent(steps[..|steps| - 1], admitted), steps[|steps| - 1];
      var cost := last.fields.cost;
      if last.id !in admitted then before
      else Spend(before.datagrams + cost.datagrams, before.bytes + cost.applicationBytes, before.packets + cost.packets)
  }

  lemma {:induction false} StepOfFound(steps: seq<ProbeStep>, id: StepId)
    ensures StepOf(steps, id).Some? <==> exists i :: 0 <= i < |steps| && steps[i].id == id
    ensures StepOf(steps, id).Some? ==> StepOf(steps, id).value in steps && StepOf(steps, id).value.id == id
  {
    if steps != [] && steps[|steps| - 1].id != id {
      StepOfFound(steps[..|steps| - 1], id);
    }
  }

  lemma {:induction false} SpentOutside(steps: seq<ProbeStep>, admitted: set<StepId>, id: StepId)
    requires forall i :: 0 <= i < |steps| ==> steps[i].id != id
    ensures Spent(steps, admitted + {id}) == Spent(steps, admitted)
  {
    if steps != [] {
      SpentOutside(steps[..|steps| - 1], admitted, id);
    }
  }

  lemma {:induction false} SpentAdmit(steps: seq<ProbeStep>, admitted: set<StepId>, id: StepId)
    requires DistinctIds(steps) && id !in admitted && StepOf(steps, id).Some?
    ensures var cost, before := StepOf(steps, id).value.fields.cost, Spent(steps, admitted);
            Spent(steps, admitted + {id})
            == Spend(before.datagrams + cost.datagrams, before.bytes + cost.applicationBytes, before.packets + cost.packets)
  {
    var front := steps[..|steps| - 1];
    if steps[|steps| - 1].id == id {
      SpentOutside(front, admitted, id);
    } else {
      SpentAdmit(front, admitted, id);
    }
  }

  lemma {:induction false} SpentBounded(steps: seq<ProbeStep>, admitted: set<StepId>)
    ensures Spent(steps, admitted).datagrams <= Datagrams(steps)
    ensures Spent(steps, admitted).bytes <= ApplicationBytes(steps)
    ensures Spent(steps, admitted).packets <= Packets(steps)
  {
    if steps != [] {
      SpentBounded(steps[..|steps| - 1], admitted);
    }
  }

  lemma IdCount(t: Task)
    requires Reserved(t.plan)
    ensures |Ids(t)| == |t.plan.steps| == Total(t)
  {
    var ids := StepIds(t.plan.steps);
    assert Distinct(ids);
    DistinctCount(ids);
    assert Elements(ids) == Ids(t) by {
      forall id ensures id in Elements(ids) <==> id in Ids(t) {
        if id in Ids(t) {
          var s :| s in t.plan.steps && s.id == id;
          var i :| 0 <= i < |t.plan.steps| && t.plan.steps[i] == s;
          assert ids[i] == id;
        }
      }
    }
  }

  // --- the invariant -----------------------------------------------------------------

  ghost predicate BookValid(t: Task, b: Book) {
    && b.admitted == |b.admittedSteps|
    && b.completed == |b.completedSteps|
    && b.completedSteps <= b.observed <= b.admittedSteps <= Ids(t)
    && b.prepared.Keys == b.admittedSteps
    && (forall id :: id in b.prepared ==> StepOf(t.plan.steps, id) == Some(b.prepared[id].step))
  }

  ghost predicate SpendValid(t: Task, l: Ledger) {
    l.spend == Spent(t.plan.steps, l.book.admittedSteps)
  }

  /** The four running totals are what the four lists really serialise to. */
  ghost predicate OutputValid(out: Output) {
    && out.bytes == Quad(
         ListBytes(Wires(out.observations)), ListBytes(ConclusionWires(out.conclusions)),
         ListBytes(out.capabilities), ListBytes(out.errors))
    && out.counts == Quad(|out.observations|, |out.conclusions|, |out.capabilities|, |out.errors|)
    && |out.conclusions| <= MAX_ITEMS && |out.capabilities| <= MAX_ITEMS && |out.errors| <= MAX_ITEMS
  }

  ghost predicate EventsValid(t: Task, m: Machine) {
    && m.ledger.events == 3 + |m.ledger.out.observations|
    && (m.ledger.out.observations != [] ==> m.ledger.events + 1 <= t.plan.limits.maxEvents)
    && m.stored <= |m.ledger.out.observations|
  }

  ghost predicate AdmissionValid(t: Task, m: Machine) {
    var l := m.ledger;
    && l.book.admitted - l.book.completed <= t.plan.limits.maxConcurrency
    && (!m.admission.Idle? ==>
          && m.admission.id in Ids(t) && m.admission.id !in l.book.admittedSteps
          && l.book.admitted - l.book.completed < t.plan.limits.maxConcurrency)
    && (m.admission.Waiting? ==> StepOf(t.plan.steps, m.admission.id) == Some(m.admission.prepared.step))
  }

  ghost predicate Valid(t: Task, m: Machine) {
    && BookValid(t, m.ledger.book) && SpendValid(t, m.ledger) && m.ledger.counts.Keys == Ids(t)
    && OutputValid(m.ledger.out) && EventsValid(t, m) && AdmissionValid(t, m)
  }

  lemma InitialValid(t: Task, now: real)
    ensures Valid(t, Initial(t, now))
  {
    SpentNothing(t.plan.steps);
    assert Wires([]) == [] && ConclusionWires([]) == [];
  }

  lemma {:induction false} SpentNothing(steps: seq<ProbeStep>)
    ensures Spent(steps, {}) == Spend(0, 0, 0)
  {
    if steps != [] {
      SpentNothing(steps[..|steps| - 1]);
    }
  }

  /** A successful reservation keeps the totals exact once the item is appended. */
  lemma AppendedObservation(out: Output, o: Observation)
    requires OutputValid(out)
    ensures var n := |Text(Wire(o))| + (if out.counts.observations > 0 then 1 else 0);
            OutputValid(out.(bytes := out.bytes.Add(InObservations, n), counts := out.counts.Add(InObservations, 1),
                             observations := out.observations + [o]))
  {
    hide Text, Wire, ListBytes;
    assert Wires(out.observations + [o]) == Wires(out.observations) + [Wire(o)];
    ListBytesAppend(Wires(out.observations), Wire(o));
  }

  lemma AppendValid(t: Task, m: Machine, ended: Stamp, o: Observation, storeOk: bool)
    requires Valid(t, m)
    ensures Valid(t, Append(t, m, ended, o, storeOk).next)
  {
    hide OutputValid, Text, Wire, BookValid, Spent, Ids, StepOf;
    AppendedObservation(m.ledger.out, o);
  }

  lemma AppendKeeps(t: Task, m: Machine, ended: Stamp, o: Observation, storeOk: bool)
    ensures var next := Append(t, m, ended, o, storeOk).next;
            && next.admission == m.admission
            && next.ledger.book == m.ledger.book && next.ledger.spend == m.ledger.spend
            && next.ledger.counts == m.ledger.counts
  {
  }

  lemma ObserveBook(t: Task, b: Book, id: StepId)
    requires BookValid(t, b) && id in b.prepared
    ensures BookValid(t, b.(observed := b.observed + {id})) && id in Ids(t)
  {
  }

  /** A record that passes its guards names an admitted step. */
  lemma PassedGuards(t: Task, l: Ledger, o: Observation, step: Option<StepId>, labels: Option<Labels>)
    requires Refusal(t, l, o, step, labels).None?
    ensures step.Some? && step.value in l.book.prepared && step.value !in l.book.completedSteps
  {
    hide AllowedEvidence, PhaseDirection;
  }

  lemma RecordValid(
    t: Task, m: Machine, ended: Stamp, o: Observation, step: Option<StepId>, labels: Option<Labels>, storeOk: bool)
    requires Valid(t, m)
    ensures Valid(t, RecordBound(t, m, ended, o, step, labels, storeOk).next)
  {
    hide BookValid, OutputValid, Append, Bind, AllowedEvidence, Spent, Ids, Text;
    if Refusal(t, m.ledger, o, step, labels).None? {
      var bound := Bind(t, o, m.ledger.book.prepared[step.value], labels);
      AppendValid(t, m, ended, bound, storeOk);
      AppendKeeps(t, m, ended, bound, storeOk);
      ObserveBook(t, m.ledger.book, step.value);
    }
  }

  lemma AppendedConclusion(out: Output, c: Conclusion)
    requires OutputValid(out) && |out.conclusions| < MAX_ITEMS
    ensures var n := |Text(c.wire)| + (if out.counts.conclusions > 0 then 1 else 0);
            OutputValid(out.(bytes := out.bytes.Add(InConclusions, n), counts := out.counts.Add(InConclusions, 1),
                             conclusions := out.conclusions + [c]))
  {
    hide Text, ListBytes;
    assert ConclusionWires(out.conclusions + [c]) == ConclusionWires(out.conclusions) + [c.wire];
    ListBytesAppend(ConclusionWires(out.conclusions), c.wire);
  }

  lemma ConcludeValid(t: Task, m: Machine, ended: Stamp, c: Conclusion, step: Option<StepId>)
    requires Valid(t, m)
    ensures Valid(t, Conclude(t, m, ended, c, step).next)
  {
    hide BookValid, OutputValid, Spent, Ids, Text;
    if |m.ledger.out.conclusions| < MAX_ITEMS {
      AppendedConclusion(m.ledger.out, c);
    }
  }

  lemma {:induction false} AppendedCapability(out: Output, c: Json)
    requires OutputValid(out) && |out.capabilities| < MAX_ITEMS
    ensures var n := |Text(c)| + (if out.counts.capabilities > 0 then 1 else 0);
            OutputValid(out.(bytes := out.bytes.Add(InCapabilities, n), counts := out.counts.Add(InCapabilities, 1),
                             capabilities := out.capabilities + [c]))
  {
    hide Text, ListBytes;
    ListBytesAppend(out.capabilities, c);
  }

  lemma ClaimValid(t: Task, m: Machine, ended: Stamp, c: Json, step: Option<StepId>)
    requires Valid(t, m)
    ensures Valid(t, Claim(t, m, ended, c, step).next)
  {
    hide BookValid, OutputValid, Spent, Ids, Text;
    if |m.ledger.out.capabilities| < MAX_ITEMS {
      AppendedCapability(m.ledger.out, c);
    }
  }

  lemma {:induction false} AppendedError(out: Output, message: Json)
    requires OutputValid(out) && |out.errors| < MAX_ITEMS
    ensures var n := |Text(message)| + (if out.counts.errors > 0 then 1 else 0);
            OutputValid(out.(bytes := out.bytes.Add(InErrors, n), counts := out.counts.Add(InErrors, 1),
                             errors := out.errors + [message]))
  {
    hide Text, ListBytes;
    ListBytesAppend(out.errors, message);
  }

  lemma ComplainValid(t: Task, m: Machine, ended: Stamp, message: Json, step: Option<StepId>)
    requires Valid(t, m)
    ensures Valid(t, Complain(t, m, ended, message, step).next)
  {
    hide BookValid, OutputValid, Spent, Ids, Text;
    if |m.ledger.out.errors| < MAX_ITEMS {
      AppendedError(m.ledger.out, message);
    }
  }

  lemma {:induction false} AdmitBook(t: Task, b: Book, id: StepId, p: Prepared)
    requires BookValid(t, b) && id in Ids(t) && id !in b.admittedSteps && StepOf(t.plan.steps, id) == Some(p.step)
    ensures BookValid(t, Admit(b, id, p))
  {
  }

  lemma BeginValid(t: Task, m: Machine, id: StepId)
    requires Valid(t, m)
    ensures Valid(t, Begin(t, m, id).next)
  {
  }

  lemma PrepareValid(t: Task, m: Machine, now: real, preflight: Result<Prepared, Failure>)
    requires Valid(t, m)
    ensures Valid(t, Prepare(t, m, now, preflight).next)
  {
  }

  lemma CompleteBook(t: Task, b: Book, id: StepId)
    requires BookValid(t, b) && id in b.observed && id !in b.completedSteps
    ensures BookValid(t, b.(completedSteps := b.completedSteps + {id}, completed := b.completed + 1))
  {
  }

  lemma CompleteValid(t: Task, m: Machine, id: StepId)
    requires Valid(t, m)
    ensures Valid(t, CompleteStep(m, id).next)
  {
    hide BookValid, OutputValid, Spent, Ids, StepOf;
    if id in m.ledger.book.observed && id !in m.ledger.book.completedSteps {
      CompleteBook(t, m.ledger.book, id);
    }
  }

  lemma CompleteAggregateValid(t: Task, m: Machine, id: StepId)
    requires Valid(t, m)
    ensures Valid(t, CompleteAggregateStep(m, id).next)
  {
    var observed := m.(ledger := m.ledger.(book := m.ledger.book.(observed := m.ledger.book.observed + {id})));
    assert id in m.ledger.book.admittedSteps <==> id in m.ledger.book.prepared;
    hide BookValid, OutputValid, Spent, Ids, StepOf;
    if id in m.ledger.book.prepared {
      ObserveBook(t, m.ledger.book, id);
      CompleteValid(t, observed, id);
    }
  }

  lemma WakeSpends(t: Task, m: Machine, actual: real, timedOut: bool)
    requires DistinctIds(t.plan.steps) && AdmissionValid(t, m) && SpendValid(t, m.ledger)
    ensures SpendValid(t, Wake(t, m, actual, timedOut).next.ledger)
  {
    if m.admission.Waiting? {
      SpentAdmit(t.plan.steps, m.ledger.book.admittedSteps, m.admission.id);
    }
  }

  lemma WakeBooks(t: Task, m: Machine, actual: real)
    requires m.admission.Waiting? && BookValid(t, m.ledger.book) && AdmissionValid(t, m)
    ensures BookValid(t, Wake(t, m, actual, true).next.ledger.book)
    ensures AdmissionValid(t, Wake(t, m, actual, true).next)
  {
    hide BookValid, Gap, StepOf, Ids;
    AdmitBook(t, m.ledger.book, m.admission.id, m.admission.prepared);
  }

  lemma WakeValid(t: Task, m: Machine, actual: real, timedOut: bool)
    requires DistinctIds(t.plan.steps) && Valid(t, m)
    ensures Valid(t, Wake(t, m, actual, timedOut).next)
  {
    hide BookValid, SpendValid, OutputValid, AdmissionValid, Ids;
    WakeSpends(t, m, actual, timedOut);
    AbortValid(t, m);
    if m.admission.Waiting? && timedOut {
      WakeBooks(t, m, actual);
    }
  }

  lemma ActionValid(t: Task, m: Machine, a: Action)
    requires DistinctIds(t.plan.steps) && Valid(t, m)
    ensures Valid(t, React(t, m, a).next)
  {
    hide Valid;
    match a
    case AdmitBegin(id) => BeginValid(t, m, id);
    case AdmitPrepare(now, preflight) => PrepareValid(t, m, now, preflight);
    case AdmitWake(actual, timedOut) => WakeValid(t, m, actual, timedOut);
    case AdmitAbort => AbortValid(t, m);
    case Record(ended, o, step, labels, storeOk) => RecordValid(t, m, ended, o, step, labels, storeOk);
    case RecordAggregate(ended, o, storeOk) => AppendValid(t, m, ended, o, storeOk);
    case Complete(id) => CompleteValid(t, m, id);
    case CompleteAggregate(id) => CompleteAggregateValid(t, m, id);
    case AddConclusion(ended, c, step) => ConcludeValid(t, m, ended, c, step);
    case AddCapability(ended, c, step) => ClaimValid(t, m, ended, c, step);
    case AddError(ended, message, step) => ComplainValid(t, m, ended, message, step);
    case Cancel => AbortValid(t, m);
  }

  lemma AbortValid(t: Task, m: Machine)
    requires Valid(t, m)
    ensures Valid(t, m.(admission := Idle)) && Valid(t, m.(cancelled := true))
  {
  }

  /** In every reachable state of every interleaving: completed steps are observed,
      observed steps are admitted, the counters are the sizes of the sets,
      completed <= admitted <= total, the in-flight ceiling holds even when steps
      complete during an admission's wait, and spending is the cost of the admitted set. */
  lemma {:induction false} RunValid(t: Task, now: real, actions: seq<Action>)
    requires Reserved(t.plan)
    ensures Valid(t, Run(t, now, actions))
    ensures var l := Run(t, now, actions).ledger; l.book.completed <= l.book.admitted <= Total(t)
    decreases |actions|
  {
    if actions == [] {
      InitialValid(t, now);
    } else {
      RunValid(t, now, actions[..|actions| - 1]);
      ActionValid(t, Run(t, now, actions[..|actions| - 1]), actions[|actions| - 1]);
    }
    var l := Run(t, now, actions).ledger;
    Subset(l.book.completedSteps, l.book.admittedSteps);
    Subset(l.book.admittedSteps, Ids(t));
    IdCount(t);
  }

  lemma {:induction false} Subset<T>(a: set<T>, b: set<T>)
    requires a <= b
    ensures |a| <= |b|
    ensures |a| == |b| ==> a == b
  {
    assert b == a + (b - a);
  }
}
