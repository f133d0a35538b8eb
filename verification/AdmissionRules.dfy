/** Admission, spelled out: when the lock is taken, how long a step waits, what an
    admission commits; and the ceilings that hold for any plan at all, whether or not its
    estimate adds up. */
module AdmissionRules {
  import opened Outcomes
  import opened JsonText
  import opened ResultDocument
  import opened Plans
  import opened TaskLedger
  import opened TaskInvariants

  // --- the ceilings of any plan -----------------------------------------------------------------

  /** The spending is inside the estimate, no more steps are admitted than planned, no more
      are in flight than allowed, and a held lock stands for a step that fits as well. */
  ghost predicate Ceilings(t: Task, m: Machine) {
    var l, e := m.ledger, t.plan.estimate;
    && l.spend.datagrams <= e.datagrams && l.spend.bytes <= e.applicationBytes && l.spend.packets <= e.packets
    && l.book.admitted == |l.book.admittedSteps| <= Total(t) && l.book.completed == |l.book.completedSteps|
    && l.book.completedSteps <= l.book.admittedSteps
    && |l.book.admittedSteps - l.book.completedSteps| <= t.plan.limits.maxConcurrency
    && (!m.admission.Idle? ==>
          && m.admission.id !in l.book.admittedSteps && l.book.admitted < Total(t)
          && |l.book.admittedSteps - l.book.completedSteps| < t.plan.limits.maxConcurrency)
  }

  lemma InFlight(b: Book)
    requires b.admitted == |b.admittedSteps| && b.completed == |b.completedSteps| && b.completedSteps <= b.admittedSteps
    ensures |b.admittedSteps - b.completedSteps| == b.admitted - b.completed
  {
    assert b.admittedSteps == b.completedSteps + (b.admittedSteps - b.completedSteps);
  }

  lemma BeginCeilings(t: Task, m: Machine, id: StepId)
    requires Ceilings(t, m)
    ensures Ceilings(t, Begin(t, m, id).next)
  {
    InFlight(m.ledger.book);
    hide Ids;
  }

  lemma PrepareCeilings(t: Task, m: Machine, now: real, preflight: Result<Prepared, Failure>)
    requires Ceilings(t, m)
    ensures Ceilings(t, Prepare(t, m, now, preflight).next)
  {
    hide StepOf, StartTime;
  }

  /** What waking does to spending and book. */
  lemma WakeOutcome(t: Task, m: Machine, actual: real, timedOut: bool)
    ensures var m', l := Wake(t, m, actual, timedOut).next, m.ledger;
            || m' == m
            || (m'.admission == Idle && m'.ledger.spend == l.spend && m'.ledger.book == l.book)
            || (m.admission.Waiting? && m'.admission == Idle
                && m'.ledger.book == Admit(l.book, m.admission.id, m.admission.prepared)
                && m'.ledger.spend.datagrams <= t.plan.estimate.datagrams && m'.ledger.spend.bytes <= t.plan.estimate.applicationBytes
                && m'.ledger.spend.packets <= t.plan.estimate.packets)
  {
    hide Gap, Max, ExpectedTarget, Admit;
  }

  lemma WakeCeilings(t: Task, m: Machine, actual: real, timedOut: bool)
    requires Ceilings(t, m)
    ensures Ceilings(t, Wake(t, m, actual, timedOut).next)
  {
    hide Wake;
    WakeOutcome(t, m, actual, timedOut);
    InFlight(m.ledger.book);
    if m.admission.Waiting? {
      AdmittedOne(m.ledger.book, m.admission.id, m.admission.prepared);
      InFlight(Admit(m.ledger.book, m.admission.id, m.admission.prepared));
    }
  }

  lemma AdmittedOne(b: Book, id: StepId, p: Prepared)
    requires b.admitted == |b.admittedSteps| && b.completed == |b.completedSteps| && b.completedSteps <= b.admittedSteps
    requires id !in b.admittedSteps
    ensures var b' := Admit(b, id, p);
            b'.admitted == |b'.admittedSteps| == b.admitted + 1 && b'.completedSteps <= b'.admittedSteps
  {
  }

  lemma CompleteCeilings(t: Task, m: Machine, id: StepId)
    requires Ceilings(t, m)
    ensures Ceilings(t, CompleteStep(m, id).next)
  {
    var m' := CompleteStep(m, id).next;
    InFlight(m.ledger.book);
    InFlight(m'.ledger.book);
  }

  /** Nothing that the ceilings speak of has moved. */
  lemma SameCeilings(t: Task, m: Machine, m': Machine)
    requires Ceilings(t, m) && m'.admission == m.admission && m'.ledger.spend == m.ledger.spend
    requires m'.ledger.book == m.ledger.book.(observed := m'.ledger.book.observed)
    ensures Ceilings(t, m')
  {
  }

  lemma RecordLeavesBook(t: Task, m: Machine, a: Action)
    requires a.Record? || a.RecordAggregate? || a.AddConclusion? || a.AddCapability? || a.AddError?
    ensures var m' := React(t, m, a).next;
            && m'.admission == m.admission && m'.ledger.spend == m.ledger.spend
            && m'.ledger.book == m.ledger.book.(observed := m'.ledger.book.observed)
  {
    hide Refusal, Text, Wire, ReserveOutput, Bind;
  }

  lemma ActionCeilings(t: Task, m: Machine, a: Action)
    requires Ceilings(t, m)
    ensures Ceilings(t, React(t, m, a).next)
  {
    hide Ceilings, Begin, Prepare, Wake, CompleteStep, RecordBound, Append, Conclude, Claim, Complain;
    match a
    case AdmitBegin(id) => BeginCeilings(t, m, id);
    case AdmitPrepare(now, preflight) => PrepareCeilings(t, m, now, preflight);
    case AdmitWake(actual, timedOut) => WakeCeilings(t, m, actual, timedOut);
    case AdmitAbort => LockFreed(t, m);
    case Complete(id) => CompleteCeilings(t, m, id);
    case CompleteAggregate(id) =>
      var observed := m.(ledger := m.ledger.(book := m.ledger.book.(observed := m.ledger.book.observed + {id})));
      SameCeilings(t, m, observed);
      CompleteCeilings(t, observed, id);
    case Cancel => SameCeilings(t, m, m.(cancelled := true));
    case _ =>
      RecordLeavesBook(t, m, a);
      SameCeilings(t, m, React(t, m, a).next);
  }

  lemma LockFreed(t: Task, m: Machine)
    requires Ceilings(t, m)
    ensures Ceilings(t, m.(admission := Idle))
  {
  }

  lemma InitialCeilings(t: Task, now: real)
    ensures Ceilings(t, Initial(t, now))
  {
  }

  /** In every run of any plan, also one whose estimate does not add up or whose steps repeat
      an identifier, admission keeps the three reservations, the number of steps and the
      number in flight. */
  lemma {:induction false} CeilingsOfAnyPlan(t: Task, now: real, actions: seq<Action>)
    ensures Ceilings(t, Run(t, now, actions))
  {
    hide Ceilings, React;
    if actions == [] {
      InitialCeilings(t, now);
    } else {
      CeilingsOfAnyPlan(t, now, actions[..|actions| - 1]);
      ActionCeilings(t, Run(t, now, actions[..|actions| - 1]), actions[|actions| - 1]);
    }
  }

  // --- the three parts of an admission ------------------------------------------------------------

  predicate Planned(t: Task, id: StepId) {
    exists i :: 0 <= i < |t.plan.steps| && t.plan.steps[i].id == id
  }

  /** The step is planned and new, nobody holds the lock, the task is not cancelled, and one
      more step fits the plan and the in-flight ceiling. */
  predicate MayBegin(t: Task, m: Machine, id: StepId) {
    && Planned(t, id) && !m.cancelled && m.admission.Idle? && id !in m.ledger.book.admittedSteps
    && |m.ledger.book.admittedSteps| < t.plan.estimate.attempts
    && |m.ledger.book.admittedSteps - m.ledger.book.completedSteps| < t.plan.limits.maxConcurrency
  }

  /** In every run of any plan a request for admission takes the lock exactly under those
      conditions. Otherwise nothing changes, and it raises unless it only has to wait. */
  lemma {:induction false} BeginExactly(t: Task, now: real, actions: seq<Action>, id: StepId)
    ensures var m := Run(t, now, actions);
            var r := React(t, m, AdmitBegin(id));
            if MayBegin(t, m, id) then r == Reaction(m.(admission := Checked(id)), None)
            else r.next == m && (r.error.None? <==> Planned(t, id) && !m.cancelled && !m.admission.Idle?)
  {
    CeilingsOfAnyPlan(t, now, actions);
    var m := Run(t, now, actions);
    hide Run;
    InFlight(m.ledger.book);
    assert Planned(t, id) <==> id in Ids(t);
  }

  /** The latest of the clock and of the next starts of the task and of the address. */
  predicate EarliestStart(m: Machine, address: string, now: real, start: real) {
    var p := m.ledger.pacing;
    && start >= now && start >= p.nextGlobal && (address in p.nextTarget ==> start >= p.nextTarget[address])
    && (start == now || start == p.nextGlobal || (address in p.nextTarget && start == p.nextTarget[address]))
  }

  /** Preflight has answered for the step that holds the lock: it waits for its earliest
      start, or gives the lock back because preflight refused or the task is cancelled. */
  lemma {:induction false} PrepareExactly(t: Task, m: Machine, now: real, preflight: Result<Prepared, Failure>)
    requires m.admission.Checked?
    requires preflight.Ok? ==> StepOf(t.plan.steps, m.admission.id) == Some(preflight.value.step)
    ensures var r := React(t, m, AdmitPrepare(now, preflight));
            if preflight.Ok? && !m.cancelled then
              && r.error.None? && r.next == m.(admission := r.next.admission) && r.next.admission.Waiting?
              && r.next.admission.id == m.admission.id && r.next.admission.prepared == preflight.value
              && EarliestStart(m, ExpectedTarget(preflight.value), now, r.next.admission.startAt)
            else r.error.Some? && r.next == m.(admission := Idle)
  {
    hide StepOf, ExpectedTarget;
  }

  /** One more step costs no more than the estimate still has. */
  predicate SpendFits(t: Task, m: Machine, cost: StepCost) {
    && m.ledger.spend.datagrams + cost.datagrams <= t.plan.estimate.datagrams
    && m.ledger.spend.bytes + cost.applicationBytes <= t.plan.estimate.applicationBytes
    && m.ledger.spend.packets + cost.packets <= t.plan.estimate.packets
  }

  /** The starts that follow are one gap later than this one, for the task and its address. */
  predicate Paced(t: Task, m: Machine, m': Machine, address: string, at: real) {
    && m'.ledger.pacing.nextGlobal == at + Gap(t.plan.limits.maxGlobalRate)
    && m'.ledger.pacing.nextTarget == m.ledger.pacing.nextTarget[address := at + Gap(t.plan.limits.maxTargetRate)]
  }

  /** The wait is over. A cancelled wait commits nothing. Otherwise pacing counts the later of
      planned and real start, and the step is admitted with its cost exactly if that fits. */
  lemma {:induction false} WakeExactly(t: Task, m: Machine, actual: real, timedOut: bool)
    requires m.admission.Waiting? && (timedOut || m.cancelled)
    ensures var r, w, b := React(t, m, AdmitWake(actual, timedOut)), m.admission, m.ledger.book;
            var cost, key := w.prepared.step.fields.cost, ExpectedTarget(w.prepared);
            var at := if actual > w.startAt then actual else w.startAt;
            && r.next.admission == Idle
            && if !timedOut then r.error.Some? && r.next == m.(admission := Idle)
               else
                 && Paced(t, m, r.next, key, at)
                 && (r.error.None? <==> SpendFits(t, m, cost))
                 && if SpendFits(t, m, cost) then
                      && r.next.ledger.book == b.(admittedSteps := b.admittedSteps + {w.id}, prepared := b.prepared[w.id := w.prepared],
                                                  admitted := b.admitted + 1)
                      && r.next.ledger.spend == Spend(m.ledger.spend.datagrams + cost.datagrams,
                                                      m.ledger.spend.bytes + cost.applicationBytes, m.ledger.spend.packets + cost.packets)
                      && r.next.begun == m.begun + [Begun(key, at, actual)]
                    else r.next.ledger.book == b && r.next.ledger.spend == m.ledger.spend && r.next.begun == m.begun
  {
    hide Gap, ExpectedTarget;
  }
}
