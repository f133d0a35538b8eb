/** The state of one running task and what each of its atomic actions does to it.
    An action is the code between two suspension points of the event loop, so a
    sequence of actions is an interleaving of coroutines. An action that raises may
    still leave part of its updates behind; `Reaction` keeps both. */
module TaskLedger {
  import opened Outcomes
  import opened Collections
  import opened JsonText
  import opened ResultDocument
  import opened Plans

  const MAX_ITEMS: nat := 256

  datatype TaskError =
    | UnknownStep | CooperativeCancellation | AdmittedTwice | PlanExceeded | ConcurrencyCeiling
    | PreflightRefused | DatagramReservation | ByteReservation | PacketReservation
    | NotAdmitted | CompletedTwice | NoEvidence
    | NothingAdmitted | StepMissing | StepCompleted | WrongTarget | WrongAttempt | WrongProbe
    | WrongDirection | PairedProbe | WrongEvidence | ReservedField | ReservedId | BadLabels
    | StepObservations | StepOutput | UnsafeContent | EventBudget | InvalidResult | OutputBudget
    | HistoryFailure | ReservedConclusion | NotAttributed | StepReservation | TooManyItems

  // --- evidence -------------------------------------------------------------------

  datatype Direction = Local | Outbound | Inbound | Reverse

  datatype Observation = Observation(
    id: string, probe: string, evidence: string, direction: Direction, target: string, attempt: nat,
    detail: seq<Member>, others: seq<Member>)

  datatype Conclusion = Conclusion(id: string, cites: seq<string>, wire: Json)

  datatype Prepared = Prepared(step: ProbeStep, address: Option<string>)

  datatype Labels = Labels(endpoint: string, correlation: string, phase: string)

  function Wire(o: Observation): Json {
    Object(o.others + [Member("detail", Object(o.detail))])
  }

  function Wires(observations: seq<Observation>): seq<Json> {
    seq(|observations|, i requires 0 <= i < |observations| => Wire(observations[i]))
  }

  function ConclusionWires(conclusions: seq<Conclusion>): seq<Json> {
    seq(|conclusions|, i requires 0 <= i < |conclusions| => conclusions[i].wire)
  }

  function ProbeName(kind: ProbeKind): string {
    match kind
    case LocalSnapshot => "local_snapshot"
    case SystemDns => "system_dns"
    case TcpConnect => "tcp_connect"
    case UdpExchange => "udp_exchange"
    case TlsHandshake => "tls_handshake"
    case HttpExchange => "http_exchange"
    case NativePing => "native_ping"
    case NativePath => "native_path"
    case NativePortScan => "native_port_scan"
  }

  /** `_ALLOWED_EVIDENCE`. */
  function AllowedEvidence(kind: ProbeKind): set<string> {
    match kind
    case LocalSnapshot => {"local_fact", "unsupported", "permission_denied", "execution_error"}
    case SystemDns => {"dns_answer", "dns_failure", "timeout", "execution_error"}
    case TcpConnect => {
      "tcp_connected", "tcp_refused", "tcp_reset", "network_unreachable", "host_unreachable",
      "admin_prohibited", "timeout", "silent", "peer_observed_arrival", "peer_acknowledgement",
      "dns_query", "ssh_banner", "execution_error"}
    case UdpExchange => {
      "udp_application_reply", "peer_observed_arrival", "peer_acknowledgement", "dns_query",
      "icmp_unreachable", "network_unreachable", "host_unreachable", "admin_prohibited", "timeout",
      "silent", "execution_error"}
    case TlsHandshake => {
      "tls_handshake", "tls_verification_failed", "tls_handshake_failed", "tcp_refused", "tcp_reset",
      "network_unreachable", "host_unreachable", "timeout", "execution_error"}
    case HttpExchange => {
      "http_response", "tls_verification_failed", "tls_handshake_failed", "tcp_refused", "tcp_reset",
      "network_unreachable", "host_unreachable", "timeout", "execution_error"}
    case NativePing => {
      "native_ping_reply", "native_ping_failure", "icmp_unreachable", "network_unreachable",
      "host_unreachable", "admin_prohibited", "timeout", "silent", "unsupported",
      "permission_denied", "execution_error"}
    case NativePath => {
      "path_hop", "path_hop_unanswered", "path_complete", "path_incomplete", "timeout",
      "unsupported", "permission_denied", "execution_error"}
    case NativePortScan => {
      "native_port_state", "timeout", "silent", "unsupported", "permission_denied", "execution_error"}
  }

  const RESERVED_IDS: set<string> :=
    {"task-cancelled", "task-execution-error", "task-finalization-error", "task-output-budget", "task-timeout"}

  const RESERVED_KEYS: set<string> := {
    "plan_step_id", "probe_kind", "planned_target", "planned_address", "port", "transport",
    "scope_id", "source_hostname", "resolution_slot", "server_name", "http_scheme", "max_hops",
    "timeout_s", "required", "payload_metadata", "cost", "dns_changed", "preflight_rejected",
    "rejection_code", "paired_endpoint", "paired_correlation", "paired_phase"}

  function PhaseDirection(phase: string): Option<Direction> {
    if phase == "sent" then Some(Reverse)
    else if phase == "arrived" then Some(Inbound)
    else if phase == "replied" then Some(Reverse)
    else if phase == "received" then Some(Outbound)
    else None
  }

  // --- one task ---------------------------------------------------------------------

  /** `safe` is the persistence check on credentials and raw content; `bound` renders
      the fields that binding adds to an observation's detail. */
  datatype Task = Task(
    plan: Preview, envelope: Envelope, started: Stamp,
    safe: Json -> bool, bound: (ProbeStep, Option<Labels>) -> seq<Member>)

  datatype Counts = Counts(
    observations: nat, capabilities: nat, conclusions: nat, errors: nat, outputBytes: nat)

  datatype Spend = Spend(datagrams: nat, bytes: nat, packets: nat)

  datatype Collection = InObservations | InConclusions | InCapabilities | InErrors

  /** One number for each output collection. */
  datatype Quad = Quad(observations: nat, conclusions: nat, capabilities: nat, errors: nat) {
    function Of(c: Collection): nat {
      match c
      case InObservations => observations
      case InConclusions => conclusions
      case InCapabilities => capabilities
      case InErrors => errors
    }

    function Add(c: Collection, n: nat): Quad {
      match c
      case InObservations => this.(observations := observations + n)
      case InConclusions => this.(conclusions := conclusions + n)
      case InCapabilities => this.(capabilities := capabilities + n)
      case InErrors => this.(errors := errors + n)
    }

    function Total(): nat {
      observations + conclusions + capabilities + errors
    }
  }

  datatype Output = Output(
    observations: seq<Observation>, conclusions: seq<Conclusion>, capabilities: seq<Json>, errors: seq<Json>,
    bytes: Quad, counts: Quad)

  /** Which steps were admitted, observed and completed, with their two counters. */
  datatype Book = Book(
    admitted: nat, completed: nat, admittedSteps: set<StepId>, prepared: map<StepId, Prepared>,
    observed: set<StepId>, completedSteps: set<StepId>)

  /** The earliest next start, for the whole task and for each address. */
  datatype Pacing = Pacing(nextGlobal: real, nextTarget: map<string, real>)

  datatype Ledger = Ledger(
    book: Book, spend: Spend, events: nat, pacing: Pacing, counts: map<StepId, Counts>, out: Output)

  /** The holder of the admission lock: nobody, a step whose preflight is under way,
      or a step that waits for its start time. */
  datatype Admission = Idle | Checked(id: StepId) | Waiting(id: StepId, prepared: Prepared, startAt: real)

  /** A committed admission: the start time that pacing accounts for, and the clock
      reading at which the step really began. */
  datatype Begun = Begun(key: string, at: real, actual: real)

  /** `begun` and `stored` are history variables: the admissions committed so far and
      the observation events that reached the store. */
  datatype Machine = Machine(
    ledger: Ledger, admission: Admission, cancelled: bool, begun: seq<Begun>, stored: nat)

  datatype Action =
    | AdmitBegin(id: StepId)
    | AdmitPrepare(now: real, preflight: Result<Prepared, Failure>)
    | AdmitWake(actual: real, timedOut: bool)
    | AdmitAbort
    | Record(ended: Stamp, observation: Observation, step: Option<StepId>, labels: Option<Labels>, storeOk: bool)
    | RecordAggregate(ended: Stamp, observation: Observation, storeOk: bool)
    | Complete(id: StepId)
    | CompleteAggregate(id: StepId)
    | AddConclusion(ended: Stamp, conclusion: Conclusion, step: Option<StepId>)
    | AddCapability(ended: Stamp, capability: Json, step: Option<StepId>)
    | AddError(ended: Stamp, message: Json, step: Option<StepId>)
    | Cancel

  datatype Reaction = Reaction(next: Machine, error: Option<TaskError>)

  function Total(t: Task): nat {
    t.plan.estimate.attempts
  }

  function Ids(t: Task): set<StepId> {
    set s | s in t.plan.steps :: s.id
  }

  /** `self._steps[step_id]`. */
  function StepOf(steps: seq<ProbeStep>, id: StepId): Option<ProbeStep> {
    if steps == [] then None
    else if steps[|steps| - 1].id == id then Some(steps[|steps| - 1])
    else StepOf(steps[..|steps| - 1], id)
  }

  function ExpectedTarget(p: Prepared): string {
    if p.address.Some? then p.address.value else p.step.fields.target
  }

  function Gap(rate: nat): real {
    if rate == 0 then 0.0 else 1.0 / rate as real
  }

  function Max(a: real, b: real): real {
    if a >= b then a else b
  }

  function Initial(t: Task, now: real): Machine {
    var ledger := Ledger(
      Book(0, 0, {}, map[], {}, {}), Spend(0, 0, 0), 3, Pacing(now, map[]),
      map id | id in Ids(t) :: Counts(0, 0, 0, 0, 0),
      Output([], [], [], [], Quad(0, 0, 0, 0), Quad(0, 0, 0, 0)));
    Machine(ledger, Idle, false, [], 0)
  }

  // --- output reservation -------------------------------------------------------------

  /** The candidate result with no evidence in it. */
  function Baseline(t: Task, l: Ledger, ended: Stamp): Json {
    ResultWire(t.envelope, Completed, t.started, ended, Progress(l.book.admitted, l.book.completed, Total(t)), [], [], [], [])
  }

  /** `_candidate_result`: everything recorded so far. */
  function Candidate(t: Task, l: Ledger, ended: Stamp): Json {
    ResultWire(t.envelope, Completed, t.started, ended, Progress(l.book.admitted, l.book.completed, Total(t)),
      Wires(l.out.observations), ConclusionWires(l.out.conclusions), l.out.capabilities, l.out.errors)
  }

  /** `_reserve_output_item`. */
  function ReserveOutput(t: Task, l: Ledger, ended: Stamp, c: Collection, wire: Json): Result<Output, TaskError> {
    if !(l.book.completed <= l.book.admitted <= Total(t)) then Err(InvalidResult)
    else
      var contribution := |Text(wire)| + (if l.out.counts.Of(c) > 0 then 1 else 0);
      var size := |Text(Baseline(t, l, ended))| + l.out.bytes.Total() + contribution;
      if size > t.plan.limits.maxOutputBytes then Err(OutputBudget)
      else Ok(l.out.(bytes := l.out.bytes.Add(c, contribution), counts := l.out.counts.Add(c, 1)))
  }

  // --- admission ----------------------------------------------------------------------

  function Begin(t: Task, m: Machine, id: StepId): Reaction {
    var l := m.ledger;
    if id !in Ids(t) then Reaction(m, Some(UnknownStep))
    else if m.cancelled then Reaction(m, Some(CooperativeCancellation))
    else if !m.admission.Idle? then Reaction(m, None)   // the lock is held: the caller waits
    else if id in l.book.admittedSteps then Reaction(m, Some(AdmittedTwice))
    else if l.book.admitted >= Total(t) then Reaction(m, Some(PlanExceeded))
    else if l.book.admitted - l.book.completed >= t.plan.limits.maxConcurrency then Reaction(m, Some(ConcurrencyCeiling))
    else Reaction(m.(admission := Checked(id)), None)
  }

  function StartTime(t: Task, l: Ledger, p: Prepared, now: real): real {
    var key := ExpectedTarget(p);
    Max(Max(now, l.pacing.nextGlobal), if key in l.pacing.nextTarget then l.pacing.nextTarget[key] else now)
  }

  /** Preflight has answered. Its answer always concerns the requested step; see
      `Preflight.PreflightSound`. */
  function Prepare(t: Task, m: Machine, now: real, preflight: Result<Prepared, Failure>): Reaction {
    if !m.admission.Checked? then Reaction(m, None)
    else
      match preflight
      case Err(_) => Reaction(m.(admission := Idle), Some(PreflightRefused))
      case Ok(p) =>
        if StepOf(t.plan.steps, m.admission.id) != Some(p.step) then Reaction(m, None)
        else if m.cancelled then Reaction(m.(admission := Idle), Some(CooperativeCancellation))
        else Reaction(m.(admission := Waiting(m.admission.id, p, StartTime(t, m.ledger, p, now))), None)
  }

  function Pace(t: Task, l: Ledger, key: string, at: real): Ledger {
    l.(pacing := Pacing(
      at + Gap(t.plan.limits.maxGlobalRate),
      l.pacing.nextTarget[key := at + Gap(t.plan.limits.maxTargetRate)]))
  }

  function Admit(b: Book, id: StepId, p: Prepared): Book {
    b.(admittedSteps := b.admittedSteps + {id}, prepared := b.prepared[id := p], admitted := b.admitted + 1)
  }

  /** The pacing wait is over: pacing moves first, then the reservations are checked. */
  function Wake(t: Task, m: Machine, actual: real, timedOut: bool): Reaction {
    if !m.admission.Waiting? || (!timedOut && !m.cancelled) then Reaction(m, None)
    else if !timedOut then Reaction(m.(admission := Idle), Some(CooperativeCancellation))
    else
      var Waiting(id, p, startAt) := m.admission;
      var key := ExpectedTarget(p);
      var at := Max(startAt, actual);
      var l := Pace(t, m.ledger, key, at);
      var idle := m.(admission := Idle, ledger := l);
      var cost, e := p.step.fields.cost, t.plan.estimate;
      var spend := Spend(
        l.spend.datagrams + cost.datagrams, l.spend.bytes + cost.applicationBytes, l.spend.packets + cost.packets);
      if spend.datagrams > e.datagrams then Reaction(idle, Some(DatagramReservation))
      else if spend.bytes > e.applicationBytes then Reaction(idle, Some(ByteReservation))
      else if spend.packets > e.packets then Reaction(idle, Some(PacketReservation))
      else
        Reaction(idle.(ledger := l.(spend := spend, book := Admit(l.book, id, p)), begun := m.begun + [Begun(key, at, actual)]), None)
  }

  // --- evidence and completion ----------------------------------------------------------

  /** `_append_observation`: the event is counted before the store is asked. */
  function Append(t: Task, m: Machine, ended: Stamp, o: Observation, storeOk: bool): Reaction {
    var l := m.ledger;
    if !t.safe(Wire(o)) then Reaction(m, Some(UnsafeContent))
    else if l.events + 2 > t.plan.limits.maxEvents then Reaction(m, Some(EventBudget))
    else
      match ReserveOutput(t, l, ended, InObservations, Wire(o))
      case Err(e) => Reaction(m, Some(e))
      case Ok(out) =>
        var kept := l.(out := out.(observations := l.out.observations + [o]), events := l.events + 1);
        if storeOk then Reaction(m.(ledger := kept, stored := m.stored + 1), None)
        else Reaction(m.(ledger := kept), Some(HistoryFailure))
  }

  function Bind(t: Task, o: Observation, p: Prepared, labels: Option<Labels>): Observation {
    o.(detail := o.detail + t.bound(p.step, labels))
  }

  /** The guards of `record_paired` and `_record_bound`, in their order. */
  function Refusal(t: Task, l: Ledger, o: Observation, step: Option<StepId>, labels: Option<Labels>): Option<TaskError> {
    if labels.Some? && !(1 <= |labels.value.endpoint| <= 64 && 1 <= |labels.value.correlation| <= 64
         && PhaseDirection(labels.value.phase) == Some(o.direction)) then Some(BadLabels)
    else if l.book.admitted == 0 then Some(NothingAdmitted)
    else if step.None? || step.value !in l.book.prepared then Some(StepMissing)
    else if step.value in l.book.completedSteps then Some(StepCompleted)
    else
      var p := l.book.prepared[step.value];
      var f := p.step.fields;
      if o.target != ExpectedTarget(p) then Some(WrongTarget)
      else if o.attempt != f.attempt then Some(WrongAttempt)
      else if o.probe != ProbeName(f.kind) then Some(WrongProbe)
      else if labels.None? && o.direction != (if f.kind.LocalSnapshot? then Local else Outbound) then Some(WrongDirection)
      else if labels.Some? && !(f.kind.TcpConnect? || f.kind.UdpExchange?) then Some(PairedProbe)
      else if o.evidence !in AllowedEvidence(f.kind) then Some(WrongEvidence)
      else if exists i :: 0 <= i < |o.detail| && o.detail[i].key in RESERVED_KEYS then Some(ReservedField)
      else if o.id in RESERVED_IDS then Some(ReservedId)
      else None
  }

  function RecordBound(
    t: Task, m: Machine, ended: Stamp, o: Observation, step: Option<StepId>, labels: Option<Labels>, storeOk: bool): Reaction
  {
    var l := m.ledger;
    var refusal := Refusal(t, l, o, step, labels);
    if refusal.Some? then Reaction(m, refusal)
    else
      var id := step.value;
      var p := l.book.prepared[id];
      var b := Bind(t, o, p, labels);
      var counts := if id in l.counts then l.counts[id] else Counts(0, 0, 0, 0, 0);
      var contribution := |Text(Wire(b))|;
      if counts.observations >= p.step.fields.cost.maxObservations then Reaction(m, Some(StepObservations))
      else if counts.outputBytes + contribution > p.step.fields.cost.maxOutputBytes then Reaction(m, Some(StepOutput))
      else
        var appended := Append(t, m, ended, b, storeOk);
        if appended.error.Some? then appended
        else
          var l' := appended.next.ledger;
          var counts' := counts.(observations := counts.observations + 1, outputBytes := counts.outputBytes + contribution);
          Reaction(appended.next.(ledger := l'.(counts := l'.counts[id := counts'], book := l'.book.(observed := l'.book.observed + {id}))), None)
  }

  function CompleteStep(m: Machine, id: StepId): Reaction {
    var l := m.ledger;
    if id !in l.book.admittedSteps then Reaction(m, Some(NotAdmitted))
    else if id in l.book.completedSteps then Reaction(m, Some(CompletedTwice))
    else if id !in l.book.observed then Reaction(m, Some(NoEvidence))
    else Reaction(m.(ledger := l.(book := l.book.(completedSteps := l.book.completedSteps + {id}, completed := l.book.completed + 1))), None)
  }

  function CompleteAggregateStep(m: Machine, id: StepId): Reaction {
    var l := m.ledger;
    if id !in l.book.admittedSteps then Reaction(m, Some(NotAdmitted))
    else if id in l.book.completedSteps then Reaction(m, Some(CompletedTwice))
    else CompleteStep(m.(ledger := l.(book := l.book.(observed := l.book.observed + {id}))), id)
  }

  /** The step attribution shared by conclusions, capabilities and errors. */
  predicate Attributed(l: Ledger, step: Option<StepId>) {
    step.Some? ==>
      && step.value in l.book.admittedSteps && step.value !in l.book.completedSteps
      && step.value in l.counts && step.value in l.book.prepared
  }

  function Conclude(t: Task, m: Machine, ended: Stamp, c: Conclusion, step: Option<StepId>): Reaction {
    var l := m.ledger;
    if c.id == "task-summary" then Reaction(m, Some(ReservedConclusion))
    else if !Attributed(l, step) then Reaction(m, Some(NotAttributed))
    else if step.Some? && l.counts[step.value].conclusions >= l.book.prepared[step.value].step.fields.cost.maxConclusions
      then Reaction(m, Some(StepReservation))
    else if |l.out.conclusions| >= MAX_ITEMS then Reaction(m, Some(TooManyItems))
    else if !t.safe(c.wire) then Reaction(m, Some(UnsafeContent))
    else
      match ReserveOutput(t, l, ended, InConclusions, c.wire)
      case Err(e) => Reaction(m, Some(e))
      case Ok(out) =>
        var l' := l.(out := out.(conclusions := l.out.conclusions + [c]));
        if step.None? then Reaction(m.(ledger := l'), None)
        else
          var n := l.counts[step.value];
          Reaction(m.(ledger := l'.(counts := l.counts[step.value := n.(conclusions := n.conclusions + 1)])), None)
  }

  function Claim(t: Task, m: Machine, ended: Stamp, capability: Json, step: Option<StepId>): Reaction {
    var l := m.ledger;
    if !Attributed(l, step) then Reaction(m, Some(NotAttributed))
    else if step.Some? && l.counts[step.value].capabilities >= l.book.prepared[step.value].step.fields.cost.maxCapabilities
      then Reaction(m, Some(StepReservation))
    else if |l.out.capabilities| >= MAX_ITEMS then Reaction(m, Some(TooManyItems))
    else if !t.safe(capability) then Reaction(m, Some(UnsafeContent))
    else
      match ReserveOutput(t, l, ended, InCapabilities, capability)
      case Err(e) => Reaction(m, Some(e))
      case Ok(out) =>
        var l' := l.(out := out.(capabilities := l.out.capabilities + [capability]));
        if step.None? then Reaction(m.(ledger := l'), None)
        else
          var n := l.counts[step.value];
          Reaction(m.(ledger := l'.(counts := l.counts[step.value := n.(capabilities := n.capabilities + 1)])), None)
  }

  /** `add_error` reports most refusals as a plain `False`: no error, no change. */
  function Complain(t: Task, m: Machine, ended: Stamp, message: Json, step: Option<StepId>): Reaction {
    var l := m.ledger;
    if !Attributed(l, step) then Reaction(m, Some(NotAttributed))
    else if step.Some? && l.counts[step.value].errors >= l.book.prepared[step.value].step.fields.cost.maxErrors
      then Reaction(m, None)
    else if |l.out.errors| >= MAX_ITEMS then Reaction(m, None)
    else
      match ReserveOutput(t, l, ended, InErrors, message)
      case Err(_) => Reaction(m, None)
      case Ok(out) =>
        var l' := l.(out := out.(errors := l.out.errors + [message]));
        if step.None? then Reaction(m.(ledger := l'), None)
        else
          var n := l.counts[step.value];
          Reaction(m.(ledger := l'.(counts := l.counts[step.value := n.(errors := n.errors + 1)])), None)
  }

  // --- runs -------------------------------------------------------------------------------

  function React(t: Task, m: Machine, a: Action): Reaction {
    match a
    case AdmitBegin(id) => Begin(t, m, id)
    case AdmitPrepare(now, preflight) => Prepare(t, m, now, preflight)
    case AdmitWake(actual, timedOut) => Wake(t, m, actual, timedOut)
    case AdmitAbort => Reaction(m.(admission := Idle), None)
    case Record(ended, o, step, labels, storeOk) => RecordBound(t, m, ended, o, step, labels, storeOk)
    case RecordAggregate(ended, o, storeOk) => Append(t, m, ended, o, storeOk)
    case Complete(id) => CompleteStep(m, id)
    case CompleteAggregate(id) => CompleteAggregateStep(m, id)
    case AddConclusion(ended, c, step) => Conclude(t, m, ended, c, step)
    case AddCapability(ended, c, step) => Claim(t, m, ended, c, step)
    case AddError(ended, message, step) => Complain(t, m, ended, message, step)
    case Cancel => Reaction(m.(cancelled := true), None)
  }

  /** The state after any interleaving of actions, from a context created at `now`. */
  function Run(t: Task, now: real, actions: seq<Action>): Machine {
    if actions == [] then Initial(t, now)
    else React(t, Run(t, now, actions[..|actions| - 1]), actions[|actions| - 1]).next
  }
}
