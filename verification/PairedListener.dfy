/** The two finite listeners of one paired task. TCP handlers, datagram handlers, expiry
    and stop race for each of the two plan steps; every move below is the code between
    two suspension points, on top of the task's own state. */
module PairedListener {
  import opened Outcomes
  import opened JsonText
  import opened ResultDocument
  import opened Plans
  import opened TaskLedger
  import opened TaskInvariants
  import TaskRuns

  datatype Side = TcpSide | UdpSide

  datatype Both<T> = Both(tcp: T, udp: T) {
    function Of(side: Side): T {
      if side.TcpSide? then tcp else udp
    }

    function Put(side: Side, value: T): Both<T> {
      if side.TcpSide? then this.(tcp := value) else this.(udp := value)
    }
  }

  datatype Phase = Arrived | Replied | Received

  /** `suffix` is the part of a step identifier that observation identifiers quote. */
  datatype Lease = Lease(task: Task, steps: Both<ProbeStep>, endpoint: string, correlation: string, suffix: StepId -> string)

  function Id(lease: Lease, side: Side): StepId {
    lease.steps.Of(side).id
  }

  ghost predicate LeaseValid(lease: Lease) {
    && Reserved(lease.task.plan)
    && (forall side: Side :: lease.steps.Of(side) in lease.task.plan.steps
                             && lease.steps.Of(side).fields.cost.maxObservations >= 2)
    && lease.steps.tcp.id != lease.steps.udp.id
    && lease.steps.tcp.fields.kind.TcpConnect? && lease.steps.udp.fields.kind.UdpExchange?
    && 1 <= |lease.endpoint| <= 64 && 1 <= |lease.correlation| <= 64
  }

  /** Where `start()` is: not called, admitting the two steps, opening the sockets,
      serving, or over because it raised. */
  datatype Stage = Created | Admitting | Opening | Serving | Aborted

  /** `replying` is a TCP handler that has recorded the arrival and awaits its write;
      `known` says that the two step fields have been assigned. The rest is history:
      what was recorded for each step, which claims ended in a failure, and the errors
      that were not about budgets, content or the store. */
  datatype Listener = Listener(
    m: Machine, stage: Stage, known: bool, claimed: set<Side>, replying: bool,
    log: Both<seq<Phase>>, failed: set<Side>, faults: set<TaskError>)

  /** What surrounds one record: the clock, the remaining wire fields, the store's answer. */
  datatype Moment = Moment(ended: Stamp, others: seq<Member>, stored: bool)

  datatype Move =
    | Start(current: bool)
    | Admission(action: Action)
    | Open(udpBound: bool)
    | Serve
    | Connect(at: Moment)
    | Reply(sent: bool, at: Moment)
    | Datagram(arrival: Moment, sent: bool, reply: Moment)
    | Sweep(first: Moment, second: Moment)
    | CancelTask

  // --- evidence -------------------------------------------------------------------------

  function PhaseText(phase: Phase): string {
    match phase
    case Arrived => "arrived"
    case Replied => "replied"
    case Received => "received"
  }

  function PhaseWay(phase: Phase): Direction {
    match phase
    case Arrived => Inbound
    case Replied => Reverse
    case Received => Outbound
  }

  function Kind(side: Side, phase: Phase): string {
    match phase
    case Arrived => "peer_observed_arrival"
    case Replied => if side.TcpSide? then "tcp_connected" else "udp_application_reply"
    case Received => if side.TcpSide? then "timeout" else "silent"
  }

  /** The observation that `_record_pair` builds. */
  function Evidence(lease: Lease, side: Side, phase: Phase, others: seq<Member>): Observation {
    var step := lease.steps.Of(side);
    Observation(
      "paired-" + (lease.correlation + "-" + lease.suffix(step.id) + "-" + PhaseText(phase)),
      ProbeName(step.fields.kind), Kind(side, phase), PhaseWay(phase),
      if step.fields.address.Some? then step.fields.address.value else step.fields.target,
      step.fields.attempt, [], others)
  }

  function RecordPair(lease: Lease, m: Machine, side: Side, phase: Phase, at: Moment): Reaction {
    RecordBound(
      lease.task, m, at.ended, Evidence(lease, side, phase, at.others), Some(Id(lease, side)),
      Some(Labels(lease.endpoint, lease.correlation, PhaseText(phase))), at.stored)
  }

  /** Errors of the task's lifecycle rather than of budgets, content or the store. */
  predicate Lifecycle(e: TaskError) {
    e !in {UnsafeContent, StepOutput, EventBudget, OutputBudget, HistoryFailure}
  }

  function Failing(s: Listener, side: Side, error: TaskError): Listener {
    s.(failed := s.failed + {side}, faults := s.faults + (if Lifecycle(error) then {error} else {}))
  }

  function Recorded(lease: Lease, s: Listener, side: Side, phase: Phase, at: Moment): Listener {
    var r := RecordPair(lease, s.m, side, phase, at);
    var s' := s.(m := r.next);
    if r.error.Some? then Failing(s', side, r.error.value) else s'.(log := s.log.Put(side, s.log.Of(side) + [phase]))
  }

  function WithCompletion(lease: Lease, s: Listener, side: Side): Listener {
    var r := CompleteStep(s.m, Id(lease, side));
    var s' := s.(m := r.next);
    if r.error.Some? then Failing(s', side, r.error.value) else s'
  }

  // --- moves ----------------------------------------------------------------------------

  /** The step that `start()` admits next. */
  function NextAdmitted(lease: Lease, s: Listener): Side {
    if Id(lease, TcpSide) in s.m.ledger.book.admittedSteps then UdpSide else TcpSide
  }

  predicate BothAdmitted(lease: Lease, s: Listener) {
    Id(lease, TcpSide) in s.m.ledger.book.admittedSteps && Id(lease, UdpSide) in s.m.ledger.book.admittedSteps
  }

  /** Admissions that `start()` performs: the steps in order, and preflight answers with
      the address the step's digest binds. */
  predicate Admits(lease: Lease, s: Listener, a: Action) {
    && AdmissionAction(a)
    && (a.AdmitBegin? ==> !BothAdmitted(lease, s) && a.id == Id(lease, NextAdmitted(lease, s)))
  }

  predicate AdmissionAction(a: Action) {
    match a
    case AdmitBegin(_) => true
    case AdmitPrepare(_, preflight) => preflight.Ok? ==> preflight.value.address == preflight.value.step.fields.address
    case AdmitWake(_, _) => true
    case AdmitAbort => true
    case _ => false
  }

  predicate Handling(s: Listener) {
    s.stage in {Opening, Serving, Aborted} && !s.m.cancelled
  }

  /** A claim that is already taken: what is left of the move does not happen. */
  function Claim(s: Listener, side: Side): Listener {
    s.(claimed := s.claimed + {side})
  }

  function OnStart(s: Listener, current: bool): Listener {
    if s.stage != Created then s
    else if !current then s.(stage := Aborted)
    else s.(stage := Admitting, known := true)
  }

  function OnAdmission(lease: Lease, s: Listener, action: Action): Listener {
    if s.stage != Admitting || !Admits(lease, s, action) then s
    else
      var r := React(lease.task, s.m, action);
      s.(m := r.next, stage := if r.error.Some? || action.AdmitAbort? then Aborted else Admitting)
  }

  function OnOpen(lease: Lease, s: Listener, udpBound: bool): Listener {
    if s.stage != Admitting || !BothAdmitted(lease, s) then s
    else s.(stage := if udpBound then Opening else Aborted)
  }

  /** A TCP handler up to the write of its reply. */
  function OnConnect(lease: Lease, s: Listener, at: Moment): Listener {
    if !Handling(s) || !BothAdmitted(lease, s) || TcpSide in s.claimed then s
    else
      var arrived := Recorded(lease, Claim(s, TcpSide), TcpSide, Arrived, at);
      arrived.(replying := TcpSide !in arrived.failed)
  }

  /** The rest of that handler; the write may have failed. */
  function OnReply(lease: Lease, s: Listener, sent: bool, at: Moment): Listener {
    if !s.replying then s
    else if !sent then s.(replying := false, failed := s.failed + {TcpSide})
    else
      var replied := Recorded(lease, s.(replying := false), TcpSide, Replied, at);
      if TcpSide in replied.failed then replied else WithCompletion(lease, replied, TcpSide)
  }

  /** A datagram handler never suspends between its claim and its completion. */
  function OnDatagram(lease: Lease, s: Listener, arrival: Moment, sent: bool, reply: Moment): Listener {
    if !Handling(s) || !BothAdmitted(lease, s) || UdpSide in s.claimed then s
    else
      var arrived := Recorded(lease, Claim(s, UdpSide), UdpSide, Arrived, arrival);
      if UdpSide in arrived.failed then arrived
      else if !sent then arrived.(failed := arrived.failed + {UdpSide})
      else
        var replied := Recorded(lease, arrived, UdpSide, Replied, reply);
        if UdpSide in replied.failed then replied else WithCompletion(lease, replied, UdpSide)
  }

  /** What stop does for one step after `start()` is over. */
  function OnSilence(lease: Lease, s: Listener, side: Side, at: Moment): Listener {
    if s.stage !in {Serving, Aborted} || !s.known || side in s.claimed then s
    else
      var noted := Recorded(lease, Claim(s, side), side, Received, at);
      if side in noted.failed then noted else WithCompletion(lease, noted, side)
  }

  /** A visit took the step, and its record or its completion raised. */
  predicate Raised(before: Listener, after: Listener, side: Side) {
    side !in before.claimed && side in after.failed
  }

  /** One pass of `_complete_missing`. It takes TCP, then UDP, and never suspends, because
      nobody holds the claim lock across a suspension; a visit that raises ends it. */
  function OnSweep(lease: Lease, s: Listener, first: Moment, second: Moment): Listener {
    var visited := OnSilence(lease, s, TcpSide, first);
    if Raised(s, visited, TcpSide) then visited else OnSilence(lease, visited, UdpSide, second)
  }

  /** Before `start()` is over, and when it never took its steps, stop visits nothing. */
  lemma NothingToSweep(lease: Lease, s: Listener, first: Moment, second: Moment)
    requires s.stage !in {Serving, Aborted} || !s.known
    ensures OnSweep(lease, s, first, second) == s
  {
  }

  function Step(lease: Lease, s: Listener, move: Move): Listener {
    match move
    case Start(current) => OnStart(s, current)
    case Admission(action) => OnAdmission(lease, s, action)
    case Open(udpBound) => OnOpen(lease, s, udpBound)
    case Serve => if s.stage == Opening then s.(stage := Serving) else s
    case Connect(at) => OnConnect(lease, s, at)
    case Reply(sent, at) => OnReply(lease, s, sent, at)
    case Datagram(arrival, sent, reply) => OnDatagram(lease, s, arrival, sent, reply)
    case Sweep(first, second) => OnSweep(lease, s, first, second)
    case CancelTask => s.(m := React(lease.task, s.m, Cancel).next)
  }

  function Fresh(lease: Lease, now: real): Listener {
    Listener(Initial(lease.task, now), Created, false, {}, false, Both([], []), {}, {})
  }

  function RunListener(lease: Lease, now: real, moves: seq<Move>): Listener {
    if moves == [] then Fresh(lease, now)
    else Step(lease, RunListener(lease, now, moves[..|moves| - 1]), moves[|moves| - 1])
  }

  // --- what a record does -----------------------------------------------------------------

  ghost predicate AddressesBound(m: Machine) {
    && (forall id :: id in m.ledger.book.prepared ==>
          m.ledger.book.prepared[id].address == m.ledger.book.prepared[id].step.fields.address)
    && (m.admission.Waiting? ==> m.admission.prepared.address == m.admission.prepared.step.fields.address)
  }

  /** The guards of a paired record reduce to its lifecycle: the step is admitted and open. */
  lemma PairRefusal(lease: Lease, m: Machine, side: Side, phase: Phase, others: seq<Member>)
    requires LeaseValid(lease) && BookValid(lease.task, m.ledger.book) && AddressesBound(m)
    ensures var id := Id(lease, side);
            var refusal := Refusal(lease.task, m.ledger, Evidence(lease, side, phase, others), Some(id),
                                   Some(Labels(lease.endpoint, lease.correlation, PhaseText(phase))));
            && (id !in m.ledger.book.admittedSteps ==> refusal == Some(NothingAdmitted) || refusal == Some(StepMissing))
            && (id in m.ledger.book.admittedSteps && id !in m.ledger.book.completedSteps ==> refusal == None)
  {
    hide Kind, AllowedEvidence, Evidence, PhaseDirection, PhaseText, PhaseWay, Reserved, ProbeName, Ids;
    var step := lease.steps.Of(side);
    DistinctPlan(lease);
    TaskRuns.FoundStep(lease.task.plan.steps, step);
    PairId(lease, side, phase, others);
    PhasesDiffer(phase);
    KindAllowed(lease, side, phase);
    EvidenceFields(lease, side, phase, others);
  }

  lemma DistinctPlan(lease: Lease)
    requires LeaseValid(lease)
    ensures DistinctIds(lease.task.plan.steps)
  {
  }

  lemma KindAllowed(lease: Lease, side: Side, phase: Phase)
    requires LeaseValid(lease)
    ensures Kind(side, phase) in AllowedEvidence(lease.steps.Of(side).fields.kind)
  {
    hide Reserved;
  }

  lemma EvidenceFields(lease: Lease, side: Side, phase: Phase, others: seq<Member>)
    ensures var o, f := Evidence(lease, side, phase, others), lease.steps.Of(side).fields;
            && o.probe == ProbeName(f.kind) && o.evidence == Kind(side, phase) && o.direction == PhaseWay(phase)
            && o.target == (if f.address.Some? then f.address.value else f.target) && o.attempt == f.attempt && o.detail == []
  {
  }

  lemma PhasesDiffer(phase: Phase)
    ensures PhaseDirection(PhaseText(phase)) == Some(PhaseWay(phase))
  {
    assert "arrived"[0] != "sent"[0] && "replied"[0] != "sent"[0] && "received"[0] != "sent"[0];
    assert "replied"[0] != "arrived"[0] && "received"[0] != "arrived"[0] && "received"[2] != "replied"[2];
  }

  lemma PairId(lease: Lease, side: Side, phase: Phase, others: seq<Member>)
    ensures Evidence(lease, side, phase, others).id !in RESERVED_IDS
  {
    assert Evidence(lease, side, phase, others).id[0] == 'p';
  }

  // --- the invariant ------------------------------------------------------------------------

  predicate Finished(log: seq<Phase>) {
    log == [Arrived, Replied] || log == [Received]
  }

  /** Everything that listener and task hold about one step. */
  datatype View = View(
    claimed: bool, failed: bool, log: seq<Phase>, admitted: bool, observed: bool, completed: bool, observations: Option<nat>)

  function ViewOf(lease: Lease, s: Listener, side: Side): View {
    var id, l := Id(lease, side), s.m.ledger;
    View(side in s.claimed, side in s.failed, s.log.Of(side), id in l.book.admittedSteps, id in l.book.observed,
         id in l.book.completedSteps, if id in l.counts then Some(l.counts[id].observations) else None)
  }

  /** Unclaimed and untouched, or in the hands of its only claimant, who has completed the
      step unless he failed or is still busy. */
  predicate SideValid(v: View, busy: bool) {
    && (!v.claimed ==> v.log == [] && !v.failed)
    && (v.log == [] || v.log == [Arrived] || Finished(v.log))
    && (v.observed <==> v.log != []) && v.observations == Some(|v.log|)
    && (v.completed ==> Finished(v.log) && v.claimed && !v.failed)
    && (v.claimed && !v.failed && !busy ==> v.completed)
    && (v.claimed && !v.admitted ==> v.failed)
  }

  /** Somebody took a step that `start()` had not admitted. */
  predicate Overreached(tcp: View, udp: View) {
    (tcp.claimed && !tcp.admitted) || (udp.claimed && !udp.admitted)
  }

  predicate StageValid(s: Listener, tcp: View, udp: View) {
    && (s.replying ==> tcp.claimed && !tcp.failed && !tcp.completed && tcp.log == [Arrived] && tcp.admitted)
    && (s.stage in {Created, Admitting} ==> !tcp.claimed && !udp.claimed)
    && (s.stage in {Opening, Serving} ==> tcp.admitted && udp.admitted)
    && (s.faults != {} <==> Overreached(tcp, udp)) && s.faults <= {NothingAdmitted, StepMissing}
  }

  ghost predicate TaskValid(lease: Lease, s: Listener) {
    Valid(lease.task, s.m) && AddressesBound(s.m)
  }

  ghost predicate ListenerValid(lease: Lease, s: Listener) {
    var tcp, udp := ViewOf(lease, s, TcpSide), ViewOf(lease, s, UdpSide);
    TaskValid(lease, s) && StageValid(s, tcp, udp) && SideValid(tcp, s.replying) && SideValid(udp, false)
  }

  lemma PlannedCost(lease: Lease, m: Machine, side: Side)
    requires LeaseValid(lease) && BookValid(lease.task, m.ledger.book) && Id(lease, side) in m.ledger.book.admittedSteps
    ensures Id(lease, side) in m.ledger.book.prepared
    ensures m.ledger.book.prepared[Id(lease, side)].step.fields.cost.maxObservations >= 2
  {
    hide Reserved, Ids;
    DistinctPlan(lease);
    TaskRuns.FoundStep(lease.task.plan.steps, lease.steps.Of(side));
  }

  lemma AppendErrors(t: Task, m: Machine, ended: Stamp, o: Observation, storeOk: bool)
    requires Reserved(t.plan) && Valid(t, m)
    ensures var r := Append(t, m, ended, o, storeOk);
            && (r.error.Some? ==> !Lifecycle(r.error.value))
            && r.next.cancelled == m.cancelled
  {
    hide Reserved, Valid, BookValid, Text, Wire;
    ValidBook(t, m);
    CountersOrdered(t, m.ledger.book);
  }

  lemma CountersOrdered(t: Task, b: Book)
    requires Reserved(t.plan) && BookValid(t, b)
    ensures b.completed <= b.admitted <= Total(t)
  {
    IdCount(t);
    hide Reserved;
    Subset(b.completedSteps, b.admittedSteps);
    Subset(b.admittedSteps, Ids(t));
  }

  /** What a record whose guards pass does to the book and the counters. */
  lemma RecordOutcome(t: Task, m: Machine, ended: Stamp, o: Observation, id: StepId, labels: Option<Labels>, storeOk: bool)
    requires Refusal(t, m.ledger, o, Some(id), labels).None?
    requires id in m.ledger.counts && id in m.ledger.book.prepared
    requires m.ledger.counts[id].observations < m.ledger.book.prepared[id].step.fields.cost.maxObservations
    ensures var r := RecordBound(t, m, ended, o, Some(id), labels, storeOk);
            && r.next.admission == m.admission
            && (r.error.Some? ==>
                  && (r.error == Some(StepOutput)
                      || r.error == Append(t, m, ended, Bind(t, o, m.ledger.book.prepared[id], labels), storeOk).error)
                  && r.next.ledger.book == m.ledger.book && r.next.ledger.counts == m.ledger.counts)
            && (r.error.None? ==>
                  && r.next.ledger.book == m.ledger.book.(observed := m.ledger.book.observed + {id})
                  && id in r.next.ledger.counts
                  && r.next.ledger.counts == m.ledger.counts[id := r.next.ledger.counts[id]]
                  && r.next.ledger.counts[id].observations == m.ledger.counts[id].observations + 1)
  {
    hide Refusal, Append, Bind, Text;
    var bound := Bind(t, o, m.ledger.book.prepared[id], labels);
    AppendKeeps(t, m, ended, bound, storeOk);
  }

  lemma RecordRefused(t: Task, m: Machine, ended: Stamp, o: Observation, id: StepId, labels: Option<Labels>, storeOk: bool)
    ensures var refusal := Refusal(t, m.ledger, o, Some(id), labels);
            refusal.Some? ==> RecordBound(t, m, ended, o, Some(id), labels, storeOk) == Reaction(m, refusal)
    ensures RecordBound(t, m, ended, o, Some(id), labels, storeOk).next.cancelled == m.cancelled
  {
    hide Refusal, Text, Bind, ReserveOutput;
  }

  /** The task's view of one paired record: refused for a step that was not admitted;
      otherwise it succeeds, or fails for a reason other than the step's lifecycle. */
  lemma PairRecordEffect(lease: Lease, m: Machine, side: Side, phase: Phase, at: Moment)
    requires LeaseValid(lease) && Valid(lease.task, m) && AddressesBound(m)
    requires Id(lease, side) in m.ledger.book.admittedSteps ==>
               && Id(lease, side) !in m.ledger.book.completedSteps
               && Id(lease, side) in m.ledger.counts && m.ledger.counts[Id(lease, side)].observations < 2
    ensures var id, r := Id(lease, side), RecordPair(lease, m, side, phase, at);
            && Valid(lease.task, r.next) && AddressesBound(r.next) && r.next.cancelled == m.cancelled
            && (id !in m.ledger.book.admittedSteps ==> r.next == m && (r.error == Some(NothingAdmitted) || r.error == Some(StepMissing)))
            && (id in m.ledger.book.admittedSteps ==>
                  && (r.error.Some? ==> !Lifecycle(r.error.value) && r.next.ledger.book == m.ledger.book && r.next.ledger.counts == m.ledger.counts)
                  && (r.error.None? ==> Noted(m, r.next, id)))
  {
    hide Refusal, Append, Bind, RecordBound, Evidence, PhaseText, Reserved, OutputValid, EventsValid, Ids, Spent, StepOf;
    var t, o := lease.task, Evidence(lease, side, phase, at.others);
    var id, labels := Id(lease, side), Some(Labels(lease.endpoint, lease.correlation, PhaseText(phase)));
    PairRefusal(lease, m, side, phase, at.others);
    RecordValid(t, m, at.ended, o, Some(id), labels, at.stored);
    RecordRefused(t, m, at.ended, o, id, labels, at.stored);
    hide Valid;
    if id in m.ledger.book.admittedSteps {
      assert BookValid(t, m.ledger.book) by { ValidBook(t, m); }
      PlannedCost(lease, m, side);
      RecordOutcome(t, m, at.ended, o, id, labels, at.stored);
      AppendErrors(t, m, at.ended, Bind(t, o, m.ledger.book.prepared[id], labels), at.stored);
    }
  }

  lemma ValidBook(t: Task, m: Machine)
    requires Valid(t, m)
    ensures BookValid(t, m.ledger.book)
  {
  }

  /** One more observation on a step, and nothing else in book or counters. */
  predicate Noted(m: Machine, m': Machine, id: StepId) {
    && m'.ledger.book == m.ledger.book.(observed := m.ledger.book.observed + {id})
    && id in m.ledger.counts && id in m'.ledger.counts
    && m'.ledger.counts == m.ledger.counts[id := m'.ledger.counts[id]]
    && m'.ledger.counts[id].observations == m.ledger.counts[id].observations + 1
  }

  // --- every move keeps the invariant --------------------------------------------------------

  function Other(side: Side): Side {
    if side.TcpSide? then UdpSide else TcpSide
  }

  /** One record, as the view of its step sees it. */
  predicate RecordedAs(v: View, v': View, phase: Phase) {
    if v'.failed then v' == v.(failed := true)
    else v.admitted && v' == v.(log := v.log + [phase], observed := true, observations := Some(|v.log| + 1))
  }

  /** A step in the hands of its claimant, who may still record. */
  predicate InHand(v: View) {
    v.claimed && !v.failed && !v.completed && |v.log| < 2 && (v.observed <==> v.log != []) && v.observations == Some(|v.log|)
  }

  lemma RecordedEffect(lease: Lease, s: Listener, side: Side, phase: Phase, at: Moment)
    requires LeaseValid(lease) && TaskValid(lease, s) && InHand(ViewOf(lease, s, side))
    ensures var s', v := Recorded(lease, s, side, phase, at), ViewOf(lease, s, side);
            && TaskValid(lease, s') && RecordedAs(v, ViewOf(lease, s', side), phase)
            && ViewOf(lease, s', Other(side)) == ViewOf(lease, s, Other(side))
            && s'.stage == s.stage && s'.known == s.known && s'.replying == s.replying
            && (v.admitted ==> s'.faults == s.faults)
            && (!v.admitted ==> s'.faults == s.faults + {NothingAdmitted} || s'.faults == s.faults + {StepMissing})
  {
    hide LeaseValid, Valid, AddressesBound, RecordPair, Lifecycle, Noted, ViewOf;
    ViewMeaning(lease, s, side);
    PairRecordEffect(lease, s.m, side, phase, at);
    RefusalsCount();
    IdsDiffer(lease);
    var r := RecordPair(lease, s.m, side, phase, at);
    if r.error.Some? {
      SameBookViews(lease, s, s.(m := r.next), side);
      FailingViews(lease, s.(m := r.next), side, r.error.value);
    } else {
      NotedViews(lease, s, r.next, side, phase);
    }
  }

  lemma ViewMeaning(lease: Lease, s: Listener, side: Side)
    ensures var v, id := ViewOf(lease, s, side), Id(lease, side);
            && (v.admitted <==> id in s.m.ledger.book.admittedSteps)
            && (v.completed <==> id in s.m.ledger.book.completedSteps)
            && (v.observations.Some? <==> id in s.m.ledger.counts)
            && (v.observations.Some? ==> v.observations.value == s.m.ledger.counts[id].observations)
            && v.log == s.log.Of(side) && (v.failed <==> side in s.failed)
  {
  }

  lemma SameBookViews(lease: Lease, s: Listener, s': Listener, side: Side)
    requires s' == s.(m := s'.m)
    requires s'.m.ledger.book == s.m.ledger.book && s'.m.ledger.counts == s.m.ledger.counts
    ensures ViewOf(lease, s', side) == ViewOf(lease, s, side) && ViewOf(lease, s', Other(side)) == ViewOf(lease, s, Other(side))
  {
  }

  lemma FailingViews(lease: Lease, s: Listener, side: Side, error: TaskError)
    ensures ViewOf(lease, Failing(s, side, error), side) == ViewOf(lease, s, side).(failed := true)
    ensures ViewOf(lease, Failing(s, side, error), Other(side)) == ViewOf(lease, s, Other(side))
  {
    hide Lifecycle;
  }

  lemma NotedViews(lease: Lease, s: Listener, m: Machine, side: Side, phase: Phase)
    requires Noted(s.m, m, Id(lease, side)) && Id(lease, TcpSide) != Id(lease, UdpSide)
    requires s.m.ledger.counts[Id(lease, side)].observations == |s.log.Of(side)|
    ensures var s' := s.(m := m, log := s.log.Put(side, s.log.Of(side) + [phase]));
            var v := ViewOf(lease, s, side);
            && ViewOf(lease, s', side) == v.(log := v.log + [phase], observed := true, observations := Some(|v.log| + 1))
            && ViewOf(lease, s', Other(side)) == ViewOf(lease, s, Other(side))
  {
  }

  lemma RefusalsCount()
    ensures Lifecycle(NothingAdmitted) && Lifecycle(StepMissing)
  {
  }

  lemma IdsDiffer(lease: Lease)
    requires LeaseValid(lease)
    ensures Id(lease, TcpSide) != Id(lease, UdpSide)
  {
  }

  lemma CompletedEffect(lease: Lease, s: Listener, side: Side)
    requires LeaseValid(lease) && TaskValid(lease, s)
    requires var v := ViewOf(lease, s, side); v.admitted && v.observed && !v.completed
    ensures var s' := WithCompletion(lease, s, side);
            && TaskValid(lease, s') && ViewOf(lease, s', side) == ViewOf(lease, s, side).(completed := true)
            && ViewOf(lease, s', Other(side)) == ViewOf(lease, s, Other(side))
            && s'.stage == s.stage && s'.known == s.known && s'.replying == s.replying && s'.faults == s.faults
  {
    hide LeaseValid, Valid;
    CompleteValid(lease.task, s.m, Id(lease, side));
    IdsDiffer(lease);
  }

  lemma ClaimEffect(lease: Lease, s: Listener, side: Side)
    requires TaskValid(lease, s)
    ensures TaskValid(lease, Claim(s, side))
    ensures ViewOf(lease, Claim(s, side), side) == ViewOf(lease, s, side).(claimed := true)
    ensures ViewOf(lease, Claim(s, side), Other(side)) == ViewOf(lease, s, Other(side))
  {
    hide Valid, AddressesBound;
  }

  lemma AdmissionEffect(t: Task, m: Machine, a: Action)
    requires AddressesBound(m) && AdmissionAction(a)
    ensures var m' := React(t, m, a).next;
            && AddressesBound(m')
            && m'.ledger.counts == m.ledger.counts && m'.ledger.book.observed == m.ledger.book.observed
            && m'.ledger.book.completedSteps == m.ledger.book.completedSteps
            && m.ledger.book.admittedSteps <= m'.ledger.book.admittedSteps
  {
    hide Begin, Prepare, Wake;
    match a
    case AdmitBegin(id) => BeginEffect(t, m, id);
    case AdmitPrepare(now, preflight) => PrepareEffect(t, m, now, preflight);
    case AdmitWake(actual, timedOut) => WakeEffect(t, m, actual, timedOut);
    case AdmitAbort =>
  }

  lemma BeginEffect(t: Task, m: Machine, id: StepId)
    ensures var m' := Begin(t, m, id).next; m'.ledger == m.ledger && (m' == m || m'.admission.Checked?)
  {
    hide Ids, Total;
  }

  lemma PrepareEffect(t: Task, m: Machine, now: real, preflight: Result<Prepared, Failure>)
    ensures var m' := Prepare(t, m, now, preflight).next;
            && m'.ledger == m.ledger
            && (m'.admission.Waiting? ==> m' == m || (preflight.Ok? && m'.admission.prepared == preflight.value))
  {
    hide StepOf, StartTime;
  }

  lemma WakeEffect(t: Task, m: Machine, actual: real, timedOut: bool)
    ensures var b, m' := m.ledger.book, Wake(t, m, actual, timedOut).next;
            && m'.ledger.counts == m.ledger.counts && (m' == m || m'.admission.Idle?)
            && (m'.ledger.book == b
                || (m.admission.Waiting? && m'.ledger.book == Admit(b, m.admission.id, m.admission.prepared)))
  {
    hide Gap, ExpectedTarget, Max;
  }

  lemma AdmissionKeeps(lease: Lease, s: Listener, action: Action)
    requires LeaseValid(lease) && ListenerValid(lease, s)
    ensures ListenerValid(lease, OnAdmission(lease, s, action))
  {
    hide LeaseValid, Valid, AddressesBound, React;
    if s.stage == Admitting && Admits(lease, s, action) {
      DistinctPlan(lease);
      ActionValid(lease.task, s.m, action);
      AdmissionEffect(lease.task, s.m, action);
    }
  }

  lemma SilenceKeeps(lease: Lease, s: Listener, side: Side, at: Moment)
    requires LeaseValid(lease) && ListenerValid(lease, s)
    ensures ListenerValid(lease, OnSilence(lease, s, side, at))
  {
    hide LeaseValid, TaskValid, Recorded, WithCompletion, ViewOf;
    ViewClaims(lease, s);
    if s.stage in {Serving, Aborted} && s.known && side !in s.claimed {
      var claimed := Claim(s, side);
      ClaimEffect(lease, s, side);
      RecordedEffect(lease, claimed, side, Received, at);
      var noted := Recorded(lease, claimed, side, Received, at);
      ViewClaims(lease, noted);
      if side !in noted.failed {
        CompletedEffect(lease, noted, side);
      }
    }
  }

  lemma ViewClaims(lease: Lease, s: Listener)
    ensures forall side: Side :: ViewOf(lease, s, side).claimed <==> side in s.claimed
    ensures forall side: Side :: ViewOf(lease, s, side).failed <==> side in s.failed
    ensures BothAdmitted(lease, s) <==> ViewOf(lease, s, TcpSide).admitted && ViewOf(lease, s, UdpSide).admitted
  {
  }

  lemma DatagramKeeps(lease: Lease, s: Listener, arrival: Moment, sent: bool, reply: Moment)
    requires LeaseValid(lease) && ListenerValid(lease, s)
    ensures ListenerValid(lease, OnDatagram(lease, s, arrival, sent, reply))
  {
    hide LeaseValid, TaskValid, Recorded, WithCompletion, ViewOf, BothAdmitted;
    ViewClaims(lease, s);
    if Handling(s) && BothAdmitted(lease, s) && UdpSide !in s.claimed {
      var claimed := Claim(s, UdpSide);
      ClaimEffect(lease, s, UdpSide);
      RecordedEffect(lease, claimed, UdpSide, Arrived, arrival);
      var arrived := Recorded(lease, claimed, UdpSide, Arrived, arrival);
      ViewClaims(lease, arrived);
      if UdpSide !in arrived.failed {
        DatagramReplies(lease, arrived, sent, reply);
      }
    }
  }

  /** The second half of a datagram handler. */
  lemma DatagramReplies(lease: Lease, s: Listener, sent: bool, reply: Moment)
    requires LeaseValid(lease) && TaskValid(lease, s)
    requires var tcp, udp := ViewOf(lease, s, TcpSide), ViewOf(lease, s, UdpSide);
             && StageValid(s, tcp, udp) && SideValid(tcp, s.replying) && SideValid(udp, true)
             && udp.claimed && udp.admitted && !udp.failed && !udp.completed && udp.log == [Arrived]
    ensures var s' := if !sent then s.(failed := s.failed + {UdpSide})
                      else
                        var replied := Recorded(lease, s, UdpSide, Replied, reply);
                        if UdpSide in replied.failed then replied else WithCompletion(lease, replied, UdpSide);
            ListenerValid(lease, s')
  {
    hide LeaseValid, TaskValid, Recorded, WithCompletion, ViewOf;
    FailEffect(lease, s, UdpSide);
    if sent {
      RecordedEffect(lease, s, UdpSide, Replied, reply);
      var replied := Recorded(lease, s, UdpSide, Replied, reply);
      ViewClaims(lease, replied);
      if UdpSide !in replied.failed {
        CompletedEffect(lease, replied, UdpSide);
      }
    }
  }

  lemma FailEffect(lease: Lease, s: Listener, side: Side)
    requires TaskValid(lease, s)
    ensures TaskValid(lease, s.(failed := s.failed + {side}))
    ensures ViewOf(lease, s.(failed := s.failed + {side}), side) == ViewOf(lease, s, side).(failed := true)
    ensures ViewOf(lease, s.(failed := s.failed + {side}), Other(side)) == ViewOf(lease, s, Other(side))
  {
    hide Valid, AddressesBound;
  }

  lemma ReplyingEffect(lease: Lease, s: Listener, replying: bool)
    requires TaskValid(lease, s)
    ensures TaskValid(lease, s.(replying := replying))
    ensures forall side: Side :: ViewOf(lease, s.(replying := replying), side) == ViewOf(lease, s, side)
  {
    hide Valid, AddressesBound;
  }

  lemma ConnectKeeps(lease: Lease, s: Listener, at: Moment)
    requires LeaseValid(lease) && ListenerValid(lease, s)
    ensures ListenerValid(lease, OnConnect(lease, s, at))
  {
    hide LeaseValid, TaskValid, Recorded, ViewOf, BothAdmitted;
    ViewClaims(lease, s);
    if Handling(s) && BothAdmitted(lease, s) && TcpSide !in s.claimed {
      var claimed := Claim(s, TcpSide);
      ClaimEffect(lease, s, TcpSide);
      RecordedEffect(lease, claimed, TcpSide, Arrived, at);
      var arrived := Recorded(lease, claimed, TcpSide, Arrived, at);
      ViewClaims(lease, arrived);
      ReplyingEffect(lease, arrived, TcpSide !in arrived.failed);
    }
  }

  lemma ReplyKeeps(lease: Lease, s: Listener, sent: bool, at: Moment)
    requires LeaseValid(lease) && ListenerValid(lease, s)
    ensures ListenerValid(lease, OnReply(lease, s, sent, at))
  {
    hide LeaseValid, TaskValid, Recorded, WithCompletion, ViewOf;
    if s.replying {
      var handling := s.(replying := false);
      ReplyingEffect(lease, s, false);
      FailEffect(lease, handling, TcpSide);
      if sent {
        RecordedEffect(lease, handling, TcpSide, Replied, at);
        var replied := Recorded(lease, handling, TcpSide, Replied, at);
        ViewClaims(lease, replied);
        if TcpSide !in replied.failed {
          CompletedEffect(lease, replied, TcpSide);
        }
      }
    }
  }

  lemma StageKeeps(lease: Lease, s: Listener, move: Move)
    requires ListenerValid(lease, s) && (move.Start? || move.Open? || move.Serve? || move.CancelTask?)
    ensures ListenerValid(lease, Step(lease, s, move))
  {
    hide Valid, SideValid, Overreached, React;
    AbortValid(lease.task, s.m);
    assert move.CancelTask? ==> React(lease.task, s.m, Cancel).next == s.m.(cancelled := true) by { CancelEffect(lease.task, s.m); }
  }

  lemma CancelEffect(t: Task, m: Machine)
    ensures React(t, m, Cancel).next == m.(cancelled := true)
  {
  }

  lemma MoveKeeps(lease: Lease, s: Listener, move: Move)
    requires LeaseValid(lease) && ListenerValid(lease, s)
    ensures ListenerValid(lease, Step(lease, s, move))
  {
    hide LeaseValid, ListenerValid, OnAdmission, OnConnect, OnReply, OnDatagram, OnSilence, Raised;
    match move
    case Admission(action) => AdmissionKeeps(lease, s, action);
    case Connect(at) => ConnectKeeps(lease, s, at);
    case Reply(sent, at) => ReplyKeeps(lease, s, sent, at);
    case Datagram(arrival, sent, reply) => DatagramKeeps(lease, s, arrival, sent, reply);
    case Sweep(first, second) =>
      SilenceKeeps(lease, s, TcpSide, first);
      SilenceKeeps(lease, OnSilence(lease, s, TcpSide, first), UdpSide, second);
    case _ => StageKeeps(lease, s, move);
  }

  lemma {:induction false} RunListenerValid(lease: Lease, now: real, moves: seq<Move>)
    requires LeaseValid(lease)
    ensures ListenerValid(lease, RunListener(lease, now, moves))
  {
    hide LeaseValid, ListenerValid, Step, Fresh;
    if moves == [] {
      FreshValid(lease, now);
    } else {
      RunListenerValid(lease, now, moves[..|moves| - 1]);
      MoveKeeps(lease, RunListener(lease, now, moves[..|moves| - 1]), moves[|moves| - 1]);
    }
  }

  lemma FreshValid(lease: Lease, now: real)
    requires LeaseValid(lease)
    ensures ListenerValid(lease, Fresh(lease, now))
  {
    InitialValid(lease.task, now);
    hide Valid, Reserved;
  }

  // --- theorems --------------------------------------------------------------------------------

  /** Every claim race resolves once. In every interleaving of admissions, connections,
      datagrams, expiry and stop, a step has been given nothing, an arrival, an arrival
      and its reply, or one silence record, never both kinds; that is at most the two
      observations its cost reserves; it is completed only after one of the two finished
      forms, and every claimant who has neither failed nor is still busy has completed it. */
  lemma {:induction false} ClaimsResolveOnce(lease: Lease, now: real, moves: seq<Move>, side: Side)
    requires LeaseValid(lease)
    ensures var s := RunListener(lease, now, moves);
            var log, id, book := s.log.Of(side), Id(lease, side), s.m.ledger.book;
            && (log == [] || log == [Arrived] || log == [Arrived, Replied] || log == [Received])
            && id in s.m.ledger.counts && s.m.ledger.counts[id].observations == |log|
            && (id in book.completedSteps ==> log == [Arrived, Replied] || log == [Received])
            && (side in s.claimed && side !in s.failed && !(side.TcpSide? && s.replying) ==> id in book.completedSteps)
            && (side !in s.claimed ==> log == [] && id !in book.completedSteps)
  {
    RunListenerValid(lease, now, moves);
    ViewMeaning(lease, RunListener(lease, now, moves), side);
    hide LeaseValid, TaskValid, RunListener;
  }

  /** The task reports a lifecycle error exactly when the silence pass has taken a step
      that `start()` never admitted; so never once both steps are admitted. */
  lemma {:induction false} FaultsExactly(lease: Lease, now: real, moves: seq<Move>)
    requires LeaseValid(lease)
    ensures var s := RunListener(lease, now, moves);
            && (s.faults != {} <==>
                  exists side: Side :: side in s.claimed && Id(lease, side) !in s.m.ledger.book.admittedSteps)
            && s.faults <= {NothingAdmitted, StepMissing}
            && (BothAdmitted(lease, s) ==> s.faults == {})
  {
    var s := RunListener(lease, now, moves);
    RunListenerValid(lease, now, moves);
    hide LeaseValid, TaskValid, RunListener;
    if side: Side :| side in s.claimed && Id(lease, side) !in s.m.ledger.book.admittedSteps {
      assert side == TcpSide || side == UdpSide;
    }
  }

  /** What one pass of stop settles. It always claims the TCP step. It leaves the UDP step
      unclaimed exactly when nobody had claimed either step and the TCP record raised.
      A step that is in nobody's hands afterwards is completed exactly when it is claimed
      and its claimant did not fail. */
  lemma {:induction false} StopExactly(lease: Lease, now: real, moves: seq<Move>, first: Moment, second: Moment, side: Side)
    requires LeaseValid(lease)
    requires var s := RunListener(lease, now, moves); s.stage in {Serving, Aborted} && s.known
    ensures var s, s' := RunListener(lease, now, moves), RunListener(lease, now, moves + [Sweep(first, second)]);
            && TcpSide in s'.claimed
            && (UdpSide !in s'.claimed
                <==> TcpSide !in s.claimed && UdpSide !in s.claimed && RecordPair(lease, s.m, TcpSide, Received, first).error.Some?)
            && (UdpSide !in s'.claimed ==> TcpSide in s'.failed)
            && (side.UdpSide? || !s'.replying ==>
                  (Id(lease, side) in s'.m.ledger.book.completedSteps <==> side in s'.claimed && side !in s'.failed))
  {
    hide LeaseValid, TaskValid, RunListener, OnSweep;
    Extend(lease, now, moves, Sweep(first, second));
    RunListenerValid(lease, now, moves);
    RunListenerValid(lease, now, moves + [Sweep(first, second)]);
    SweepClaims(lease, RunListener(lease, now, moves), first, second);
    var after := RunListener(lease, now, moves + [Sweep(first, second)]);
    if side.UdpSide? || !after.replying {
      Settled(lease, after, side);
    }
  }

  /** If no handler and no silence record failed, stop leaves no admitted step open. */
  lemma {:induction false} StopResolves(lease: Lease, now: real, moves: seq<Move>, first: Moment, second: Moment, side: Side)
    requires LeaseValid(lease)
    requires var s := RunListener(lease, now, moves); s.stage in {Serving, Aborted} && s.known
    ensures var s := RunListener(lease, now, moves + [Sweep(first, second)]);
            s.failed == {} && !s.replying ==> Id(lease, side) in s.m.ledger.book.completedSteps
  {
    hide LeaseValid, RunListener;
    StopExactly(lease, now, moves, first, second, side);
  }

  /** A second pass reaches what a failure kept the first one from. */
  lemma {:induction false} SecondPassClaims(
    lease: Lease, now: real, moves: seq<Move>, first: Moment, second: Moment, third: Moment, fourth: Moment)
    requires LeaseValid(lease)
    requires var s := RunListener(lease, now, moves); s.stage in {Serving, Aborted} && s.known
    ensures RunListener(lease, now, moves + [Sweep(first, second)] + [Sweep(third, fourth)]).claimed == {TcpSide, UdpSide}
  {
    hide LeaseValid, RunListener, OnSweep, ListenerValid;
    var one := moves + [Sweep(first, second)];
    Extend(lease, now, moves, Sweep(first, second));
    RunListenerValid(lease, now, moves);
    SweepClaims(lease, RunListener(lease, now, moves), first, second);
    Extend(lease, now, one, Sweep(third, fourth));
    RunListenerValid(lease, now, one);
    SweepClaims(lease, RunListener(lease, now, one), third, fourth);
    BothClaimed(RunListener(lease, now, one + [Sweep(third, fourth)]));
  }

  lemma BothClaimed(s: Listener)
    requires TcpSide in s.claimed && UdpSide in s.claimed
    ensures s.claimed == {TcpSide, UdpSide}
  {
    forall side: Side ensures side in s.claimed <==> side in {TcpSide, UdpSide} {
      assert side == TcpSide || side == UdpSide;
    }
  }

  lemma SweepClaims(lease: Lease, s: Listener, first: Moment, second: Moment)
    requires LeaseValid(lease) && ListenerValid(lease, s) && s.stage in {Serving, Aborted} && s.known
    ensures var s' := OnSweep(lease, s, first, second);
            var refused := TcpSide !in s.claimed && RecordPair(lease, s.m, TcpSide, Received, first).error.Some?;
            && TcpSide in s'.claimed && s.claimed <= s'.claimed && s'.stage == s.stage && s'.known
            && (UdpSide in s'.claimed <==> UdpSide in s.claimed || !refused)
            && (refused ==> TcpSide in s'.failed)
  {
    hide RecordPair, OnSilence, LeaseValid, ListenerValid;
    var visited := OnSilence(lease, s, TcpSide, first);
    SilenceClaims(lease, s, TcpSide, first);
    SilenceClaims(lease, visited, UdpSide, second);
    SilenceKeeps(lease, s, TcpSide, first);
    SilenceRaises(lease, s, TcpSide, first);
  }

  /** A visit raises exactly when its record does: a recorded step can be completed. */
  lemma SilenceRaises(lease: Lease, s: Listener, side: Side, at: Moment)
    requires LeaseValid(lease) && ListenerValid(lease, s) && s.stage in {Serving, Aborted} && s.known
    ensures Raised(s, OnSilence(lease, s, side, at), side)
            <==> side !in s.claimed && RecordPair(lease, s.m, side, Received, at).error.Some?
  {
    hide LeaseValid, TaskValid, Recorded, WithCompletion, ViewOf, RecordPair, Lifecycle;
    ViewClaims(lease, s);
    if side !in s.claimed {
      var claimed := Claim(s, side);
      ClaimEffect(lease, s, side);
      RecordedEffect(lease, claimed, side, Received, at);
      var noted := Recorded(lease, claimed, side, Received, at);
      ViewClaims(lease, noted);
      ClaimKeepsMachine(lease, s, side, at);
      if side !in noted.failed {
        CompletedEffect(lease, noted, side);
        ViewClaims(lease, WithCompletion(lease, noted, side));
      }
    }
  }

  lemma {:induction false} Extend(lease: Lease, now: real, moves: seq<Move>, move: Move)
    ensures RunListener(lease, now, moves + [move]) == Step(lease, RunListener(lease, now, moves), move)
  {
    hide Step;
    assert (moves + [move])[..|moves|] == moves;
  }

  lemma Settled(lease: Lease, s: Listener, side: Side)
    requires ListenerValid(lease, s) && (side.UdpSide? || !s.replying)
    ensures Id(lease, side) in s.m.ledger.book.completedSteps <==> side in s.claimed && side !in s.failed
  {
    hide TaskValid;
  }

  lemma SilenceClaims(lease: Lease, s: Listener, side: Side, at: Moment)
    requires s.stage in {Serving, Aborted} && s.known
    ensures var s' := OnSilence(lease, s, side, at);
            s'.claimed == s.claimed + {side} && s'.stage == s.stage && s'.known
  {
    hide RecordPair, Lifecycle;
    ClaimedAlready(s, side);
  }

  lemma ClaimedAlready(s: Listener, side: Side)
    ensures side in s.claimed ==> s.claimed == s.claimed + {side}
  {
  }

  lemma ClaimKeepsMachine(lease: Lease, s: Listener, side: Side, at: Moment)
    ensures Recorded(lease, Claim(s, side), side, Received, at)
         == var r := RecordPair(lease, s.m, side, Received, at);
            var s' := Claim(s, side).(m := r.next);
            if r.error.Some? then Failing(s', side, r.error.value) else s'.(log := s'.log.Put(side, s'.log.Of(side) + [Received]))
  {
    hide RecordPair, Lifecycle;
  }

  /** A start that is cancelled while it waits for its first admission: the stop that
      follows records silence for a step the task has not admitted, which is an error. */
  lemma {:induction false} AbortedStartFaults(lease: Lease, now: real, first: Moment, second: Moment)
    requires LeaseValid(lease)
    ensures var s := RunListener(lease, now, [Start(true), Admission(AdmitAbort), Sweep(first, second)]);
            s.faults != {} && s.claimed == {TcpSide} && s.log.tcp == []
  {
    hide LeaseValid, OnSilence, OnAdmission, OnStart, ListenerValid, Fresh, RunListener, Raised;
    var one, two := [Start(true)], [Start(true), Admission(AdmitAbort)];
    assert [] + [Start(true)] == one && one + [Admission(AdmitAbort)] == two;
    assert two + [Sweep(first, second)] == [Start(true), Admission(AdmitAbort), Sweep(first, second)];
    Extend(lease, now, [], Start(true));
    Extend(lease, now, one, Admission(AdmitAbort));
    Extend(lease, now, two, Sweep(first, second));
    assert RunListener(lease, now, []) == Fresh(lease, now) by { NoMoves(lease, now); }
    FreshAborts(lease, now);
    RunListenerValid(lease, now, two);
    FaultsExactly(lease, now, two + [Sweep(first, second)]);
    UnadmittedSilence(lease, RunListener(lease, now, two), TcpSide, first);
  }

  lemma {:induction false} NoMoves(lease: Lease, now: real)
    ensures RunListener(lease, now, []) == Fresh(lease, now)
  {
  }

  lemma FreshAborts(lease: Lease, now: real)
    ensures var s := OnAdmission(lease, OnStart(Fresh(lease, now), true), AdmitAbort);
            s.stage == Aborted && s.known && s.claimed == {} && s.log.tcp == [] && Id(lease, TcpSide) !in s.m.ledger.book.admittedSteps
  {
  }

  lemma UnadmittedSilence(lease: Lease, s: Listener, side: Side, at: Moment)
    requires LeaseValid(lease) && ListenerValid(lease, s)
    requires s.stage == Aborted && s.known && side !in s.claimed && Id(lease, side) !in s.m.ledger.book.admittedSteps
    ensures var s' := OnSilence(lease, s, side, at);
            && Raised(s, s', side)
            && s'.claimed == s.claimed + {side} && s'.log.Of(side) == [] && Id(lease, side) !in s'.m.ledger.book.admittedSteps
  {
    hide LeaseValid, TaskValid, ViewOf, RecordPair, Lifecycle;
    ViewMeaning(lease, s, side);
    ViewClaims(lease, s);
    ClaimEffect(lease, s, side);
    RecordedEffect(lease, Claim(s, side), side, Received, at);
    var noted := Recorded(lease, Claim(s, side), side, Received, at);
    ViewMeaning(lease, noted, side);
  }

  // --- a pass that ends early ---------------------------------------------------------------

  /** The three moves by which `start()` admits one step. */
  function AdmissionMoves(step: ProbeStep): seq<Move> {
    [Admission(TaskRuns.Begins(step)), Admission(TaskRuns.Prepares(step, 0.0)), Admission(AdmitWake(0.0, true))]
  }

  function ServingMoves(lease: Lease): seq<Move> {
    [Start(true)] + AdmissionMoves(lease.steps.tcp) + AdmissionMoves(lease.steps.udp) + [Open(true)] + [Serve]
  }

  /** A listener that is admitting and has admitted these steps so far. */
  ghost predicate HasAdmitted(lease: Lease, s: Listener, ids: set<StepId>) {
    && s.stage == Admitting && s.known && s.claimed == {} && s.failed == {} && !s.replying
    && s.m.admission.Idle? && !s.m.cancelled
    && s.m.ledger.book.admittedSteps == ids && s.m.ledger.book.admitted == |ids|
    && s.m.ledger.book.completed == 0 && s.m.ledger.book.completedSteps == {}
  }

  lemma {:induction false} OneAdmission(lease: Lease, now: real, moves: seq<Move>, side: Side, ids: set<StepId>)
    requires LeaseValid(lease) && lease.task.plan.limits.maxConcurrency >= 2
    requires HasAdmitted(lease, RunListener(lease, now, moves), ids)
    requires ids == if side.TcpSide? then {} else {Id(lease, TcpSide)}
    ensures HasAdmitted(lease, RunListener(lease, now, moves + AdmissionMoves(lease.steps.Of(side))), ids + {Id(lease, side)})
  {
    hide LeaseValid, RunListener, ListenerValid, HasAdmitted, OnAdmission, TaskRuns.Begins, TaskRuns.Prepares;
    var step := lease.steps.Of(side);
    var one := moves + [Admission(TaskRuns.Begins(step))];
    var two := one + [Admission(TaskRuns.Prepares(step, 0.0))];
    Extend(lease, now, moves, Admission(TaskRuns.Begins(step)));
    Extend(lease, now, one, Admission(TaskRuns.Prepares(step, 0.0)));
    Extend(lease, now, two, Admission(AdmitWake(0.0, true)));
    assert two + [Admission(AdmitWake(0.0, true))] == moves + AdmissionMoves(step);
    RunListenerValid(lease, now, moves);
    ThreeMoves(lease, RunListener(lease, now, moves), side, ids);
  }

  lemma ThreeMoves(lease: Lease, s: Listener, side: Side, ids: set<StepId>)
    requires LeaseValid(lease) && lease.task.plan.limits.maxConcurrency >= 2 && ListenerValid(lease, s)
    requires HasAdmitted(lease, s, ids) && ids == if side.TcpSide? then {} else {Id(lease, TcpSide)}
    ensures var step := lease.steps.Of(side);
            var one := OnAdmission(lease, s, TaskRuns.Begins(step));
            var two := OnAdmission(lease, one, TaskRuns.Prepares(step, 0.0));
            HasAdmitted(lease, OnAdmission(lease, two, AdmitWake(0.0, true)), ids + {Id(lease, side)})
  {
    hide LeaseValid, React, ListenerValid, TaskRuns.Admitted, TaskRuns.Ready, StartTime;
    var step := lease.steps.Of(side);
    ReadySide(lease, s, side);
    TaskRuns.ReadyIsAdmitted(lease.task, s.m, step, 0.0, 0.0);
    var m := React(lease.task, React(lease.task, React(lease.task, s.m, TaskRuns.Begins(step)).next,
      TaskRuns.Prepares(step, 0.0)).next, AdmitWake(0.0, true)).next;
    AdmittedSide(lease, s, m, side, ids);
    hide HasAdmitted;
  }

  lemma ReadySide(lease: Lease, s: Listener, side: Side)
    requires LeaseValid(lease) && ListenerValid(lease, s) && lease.task.plan.limits.maxConcurrency >= 2
    requires HasAdmitted(lease, s, if side.TcpSide? then {} else {Id(lease, TcpSide)})
    ensures Reserved(lease.task.plan) && Valid(lease.task, s.m) && TaskRuns.Ready(lease.task, s.m, lease.steps.Of(side))
    ensures Admits(lease, s, TaskRuns.Begins(lease.steps.Of(side)))
  {
    hide Reserved, Valid;
  }

  lemma AdmittedSide(lease: Lease, s: Listener, m: Machine, side: Side, ids: set<StepId>)
    requires HasAdmitted(lease, s, ids) && Id(lease, side) !in ids
    requires TaskRuns.Admitted(lease.task, s.m, m, lease.steps.Of(side), 0.0, 0.0)
    ensures HasAdmitted(lease, s.(m := m), ids + {Id(lease, side)})
  {
    hide TaskRuns.StartOf, Pace;
  }

  lemma {:induction false} Serves(lease: Lease, now: real)
    requires LeaseValid(lease) && lease.task.plan.limits.maxConcurrency >= 2
    ensures var s := RunListener(lease, now, ServingMoves(lease));
            s.stage == Serving && s.known && s.claimed == {} && s.failed == {} && !s.replying && BothAdmitted(lease, s)
  {
    hide LeaseValid, RunListener, HasAdmitted, OnAdmission;
    var one := [Start(true)];
    var two, three := one + AdmissionMoves(lease.steps.tcp), one + AdmissionMoves(lease.steps.tcp) + AdmissionMoves(lease.steps.udp);
    Started(lease, now);
    OneAdmission(lease, now, one, TcpSide, {});
    IdsDiffer(lease);
    assert {} + {Id(lease, TcpSide)} == {Id(lease, TcpSide)};
    OneAdmission(lease, now, two, UdpSide, {Id(lease, TcpSide)});
    Extend(lease, now, three, Open(true));
    Extend(lease, now, three + [Open(true)], Serve);
    BothInBook(lease, RunListener(lease, now, three));
  }

  lemma {:induction false} Started(lease: Lease, now: real)
    ensures HasAdmitted(lease, RunListener(lease, now, [Start(true)]), {})
  {
    assert [] + [Start(true)] == [Start(true)];
    Extend(lease, now, [], Start(true));
    NoMoves(lease, now);
    hide RunListener;
  }

  lemma BothInBook(lease: Lease, s: Listener)
    requires HasAdmitted(lease, s, {Id(lease, TcpSide)} + {Id(lease, UdpSide)})
    ensures BothAdmitted(lease, s) && s.stage == Admitting && s.known && s.claimed == {} && s.failed == {} && !s.replying
  {
  }

  /** While the listener serves and nobody has called, the store refuses the record of TCP
      silence. The pass ends there: UDP is admitted, nobody has claimed it, no handler of it
      failed, and it stays open. */
  lemma {:induction false} FailedSilenceLeavesUdpOpen(lease: Lease, now: real, first: Moment, second: Moment)
    requires LeaseValid(lease) && lease.task.plan.limits.maxConcurrency >= 2 && !first.stored
    ensures var s := RunListener(lease, now, ServingMoves(lease) + [Sweep(first, second)]);
            && Id(lease, UdpSide) in s.m.ledger.book.admittedSteps
            && s.claimed == {TcpSide} && UdpSide !in s.failed && Id(lease, UdpSide) !in s.m.ledger.book.completedSteps
  {
    hide LeaseValid, RunListener, RecordPair, ServingMoves, ListenerValid;
    var s := RunListener(lease, now, ServingMoves(lease));
    Serves(lease, now);
    RunListenerValid(lease, now, ServingMoves(lease));
    UnstoredFails(lease, s.m, TcpSide, Received, first);
    StopExactly(lease, now, ServingMoves(lease), first, second, UdpSide);
    Extend(lease, now, ServingMoves(lease), Sweep(first, second));
    FailedPass(lease, s, first, second);
  }

  lemma UnstoredFails(lease: Lease, m: Machine, side: Side, phase: Phase, at: Moment)
    requires !at.stored
    ensures RecordPair(lease, m, side, phase, at).error.Some?
  {
    hide Refusal, Evidence, Text, Wire, Bind;
  }

  lemma FailedPass(lease: Lease, s: Listener, first: Moment, second: Moment)
    requires LeaseValid(lease) && ListenerValid(lease, s) && s.stage == Serving && s.known && s.claimed == {} && s.failed == {}
    requires RecordPair(lease, s.m, TcpSide, Received, first).error.Some?
    ensures var s' := OnSweep(lease, s, first, second);
            s'.claimed == {TcpSide} && s'.failed == {TcpSide} && Id(lease, UdpSide) in s'.m.ledger.book.admittedSteps
  {
    hide LeaseValid, TaskValid, ViewOf, RecordPair, Lifecycle;
    ViewClaims(lease, s);
    ClaimEffect(lease, s, TcpSide);
    ClaimKeepsMachine(lease, s, TcpSide, first);
    RecordedEffect(lease, Claim(s, TcpSide), TcpSide, Received, first);
    ViewMeaning(lease, s, UdpSide);
    ViewMeaning(lease, Recorded(lease, Claim(s, TcpSide), TcpSide, Received, first), UdpSide);
  }

  /** A lease over one TCP and one UDP probe. */
  function PlainLease(task: Task): Lease {
    Lease(task, Both(TaskRuns.LoopbackProbe(Tcp, 1), TaskRuns.LoopbackProbe(Udp, 1)), "peer", "1", (id: StepId) => "1")
  }

  function PlainTask(): Task {
    var steps := [TaskRuns.LoopbackProbe(Tcp, 1), TaskRuns.LoopbackProbe(Udp, 1)];
    Task(TaskRuns.PlanOver(steps, 1, 2, 8_192),
         Envelope(Quoted("1"), Quoted("paired"), Quoted("peer"), Object([]), Object([])),
         "2026-01-01T00:00:00.000000Z", (j: Json) => true, (step: ProbeStep, labels: Option<Labels>) => [])
  }

  lemma PlainLeaseValid()
    ensures LeaseValid(PlainLease(PlainTask())) && PlainTask().plan.limits.maxConcurrency >= 2
  {
    var tcp, udp := TaskRuns.LoopbackProbe(Tcp, 1), TaskRuns.LoopbackProbe(Udp, 1);
    var steps := [tcp, udp];
    TaskRuns.PlanOverReserved(steps, 1, 2, 8_192);
    hide Reserved;
    assert steps[0] == tcp && steps[1] == udp;
    assert tcp in steps && udp in steps;
  }
}
