/** What the paired listeners leave in the task: every observation, whatever races happen,
    is the evidence that belongs to its step and to the phase it was recorded for. */
module ListenerEvidence {
  import opened Outcomes
  import opened JsonText
  import opened ResultDocument
  import opened Plans
  import opened TaskLedger
  import opened TaskInvariants
  import TaskRuns
  import opened PairedListener

  /** A peer that arrived is seen inbound, an answer goes out in reverse, and silence is a
      TCP timeout or UDP silence of the planned direction. */
  predicate Observes(side: Side, phase: Phase, o: Observation) {
    match phase
    case Arrived => o.evidence == "peer_observed_arrival" && o.direction == Inbound
    case Replied => o.direction == Reverse && o.evidence == (if side == TcpSide then "tcp_connected" else "udp_application_reply")
    case Received => o.direction == Outbound && o.evidence == (if side == TcpSide then "timeout" else "silent")
  }

  function Word(phase: Phase): string {
    match phase
    case Arrived => "arrived"
    case Replied => "replied"
    case Received => "received"
  }

  /** That evidence, about this lease's step: its probe, planned address, attempt, an
      identifier made of correlation, step and phase, and the labels of the pair. */
  predicate Shows(lease: Lease, side: Side, phase: Phase, o: Observation) {
    var step := if side == TcpSide then lease.steps.tcp else lease.steps.udp;
    && Observes(side, phase, o)
    && o.id == "paired-" + (lease.correlation + "-" + lease.suffix(step.id) + "-" + Word(phase))
    && o.probe == (if side == TcpSide then "tcp_connect" else "udp_exchange")
    && o.target == (if step.fields.address.Some? then step.fields.address.value else step.fields.target)
    && o.attempt == step.fields.attempt
    && o.detail == lease.task.bound(step, Some(Labels(lease.endpoint, lease.correlation, Word(phase))))
  }

  predicate ShowsSome(lease: Lease, o: Observation) {
    exists side: Side, phase: Phase :: Shows(lease, side, phase, o)
  }

  predicate Shown(lease: Lease, observations: seq<Observation>, side: Side, phase: Phase) {
    exists i :: 0 <= i < |observations| && Shows(lease, side, phase, observations[i])
  }

  /** Every observation is such evidence, and every phase in the listeners' log has one. */
  predicate Told(lease: Lease, s: Listener) {
    && (forall i :: 0 <= i < |s.m.ledger.out.observations| ==> ShowsSome(lease, s.m.ledger.out.observations[i]))
    && (forall side: Side, phase: Phase :: phase in s.log.Of(side) ==> Shown(lease, s.m.ledger.out.observations, side, phase))
  }

  lemma EvidenceShows(lease: Lease, side: Side, phase: Phase, others: seq<Member>)
    requires LeaseValid(lease)
    ensures var o := Evidence(lease, side, phase, others);
            Shows(lease, side, phase,
                  o.(detail := lease.task.bound(lease.steps.Of(side), Some(Labels(lease.endpoint, lease.correlation, PhaseText(phase))))))
  {
    hide Reserved;
  }

  /** A record leaves that evidence, at the end of the list, or leaves the list alone. */
  lemma RecordShows(lease: Lease, m: Machine, side: Side, phase: Phase, at: Moment)
    requires LeaseValid(lease) && BookValid(lease.task, m.ledger.book)
    ensures var r := RecordPair(lease, m, side, phase, at);
            var before, after := m.ledger.out.observations, r.next.ledger.out.observations;
            || (after == before && r.error.Some?)
            || (|after| == |before| + 1 && after[..|before|] == before && Shows(lease, side, phase, after[|before|]))
  {
    hide Refusal, Evidence, Shows, Text, Wire, Reserved, Ids, ReserveOutput, PhaseText, Bind, StepOf;
    var id := Id(lease, side);
    if id in m.ledger.book.prepared {
      DistinctPlan(lease);
      TaskRuns.FoundStep(lease.task.plan.steps, lease.steps.Of(side));
      BoundShows(lease, m.ledger.book.prepared[id], side, phase, at.others);
    } else {
      StrangerRefused(lease, m, side, phase, at);
    }
  }

  lemma BoundShows(lease: Lease, p: Prepared, side: Side, phase: Phase, others: seq<Member>)
    requires LeaseValid(lease) && p.step == lease.steps.Of(side)
    ensures Shows(lease, side, phase, Bind(lease.task, Evidence(lease, side, phase, others), p,
                                           Some(Labels(lease.endpoint, lease.correlation, PhaseText(phase)))))
  {
    hide LeaseValid, Shows;
    EvidenceShows(lease, side, phase, others);
    var added := lease.task.bound(p.step, Some(Labels(lease.endpoint, lease.correlation, PhaseText(phase))));
    assert [] + added == added;
  }

  lemma StrangerRefused(lease: Lease, m: Machine, side: Side, phase: Phase, at: Moment)
    requires Id(lease, side) !in m.ledger.book.prepared
    ensures RecordPair(lease, m, side, phase, at).next == m && RecordPair(lease, m, side, phase, at).error.Some?
  {
    hide Evidence, PhaseText, AllowedEvidence, Text, Wire;
  }

  lemma RecordedTells(lease: Lease, s: Listener, side: Side, phase: Phase, at: Moment)
    requires LeaseValid(lease) && Valid(lease.task, s.m) && Told(lease, s)
    ensures Told(lease, Recorded(lease, s, side, phase, at)) && Valid(lease.task, Recorded(lease, s, side, phase, at).m)
  {
    hide LeaseValid, RecordPair, Lifecycle, Shows;
    RecordKeepsTask(lease, s.m, side, phase, at);
    RecordShows(lease, s.m, side, phase, at);
    hide Valid;
    var s' := Recorded(lease, s, side, phase, at);
    var before, after := s.m.ledger.out.observations, s'.m.ledger.out.observations;
    forall i | 0 <= i < |after| ensures ShowsSome(lease, after[i]) {
      if i < |before| {
        assert after[i] == before[i];
      }
    }
    forall x: Side, p: Phase | p in s'.log.Of(x) ensures Shown(lease, after, x, p) {
      if p in s.log.Of(x) {
        StillShown(lease, before, after, x, p);
      }
    }
  }

  lemma StillShown(lease: Lease, before: seq<Observation>, after: seq<Observation>, side: Side, phase: Phase)
    requires before <= after && Shown(lease, before, side, phase)
    ensures Shown(lease, after, side, phase)
  {
    hide Shows;
    var i :| 0 <= i < |before| && Shows(lease, side, phase, before[i]);
    assert after[i] == before[i];
  }

  lemma RecordKeepsTask(lease: Lease, m: Machine, side: Side, phase: Phase, at: Moment)
    requires Valid(lease.task, m)
    ensures Valid(lease.task, RecordPair(lease, m, side, phase, at).next) && BookValid(lease.task, m.ledger.book)
  {
    ValidBook(lease.task, m);
    hide Valid, RecordBound, BookValid;
    RecordValid(lease.task, m, at.ended, Evidence(lease, side, phase, at.others), Some(Id(lease, side)),
      Some(Labels(lease.endpoint, lease.correlation, PhaseText(phase))), at.stored);
  }

  // --- moves ------------------------------------------------------------------------------------

  /** The same list of observations and the same log. */
  lemma SameTells(lease: Lease, s: Listener, s': Listener)
    requires Told(lease, s) && s'.m.ledger.out.observations == s.m.ledger.out.observations && s'.log == s.log
    ensures Told(lease, s')
  {
    hide ShowsSome, Shown;
  }

  lemma CompletionTells(lease: Lease, s: Listener, side: Side)
    requires Told(lease, s)
    ensures Told(lease, WithCompletion(lease, s, side))
  {
    SameTells(lease, s, WithCompletion(lease, s, side));
  }

  lemma SilenceTells(lease: Lease, s: Listener, side: Side, at: Moment)
    requires LeaseValid(lease) && Valid(lease.task, s.m) && Told(lease, s)
    ensures Told(lease, OnSilence(lease, s, side, at))
  {
    hide LeaseValid, Valid, Told, Recorded, WithCompletion;
    SameTells(lease, s, PairedListener.Claim(s, side));
    RecordedTells(lease, PairedListener.Claim(s, side), side, Received, at);
    CompletionTells(lease, Recorded(lease, PairedListener.Claim(s, side), side, Received, at), side);
  }

  lemma DatagramTells(lease: Lease, s: Listener, arrival: Moment, sent: bool, reply: Moment)
    requires LeaseValid(lease) && Valid(lease.task, s.m) && Told(lease, s)
    ensures Told(lease, OnDatagram(lease, s, arrival, sent, reply))
  {
    hide LeaseValid, Valid, Told, Recorded, WithCompletion, BothAdmitted;
    SameTells(lease, s, PairedListener.Claim(s, UdpSide));
    RecordedTells(lease, PairedListener.Claim(s, UdpSide), UdpSide, Arrived, arrival);
    var arrived := Recorded(lease, PairedListener.Claim(s, UdpSide), UdpSide, Arrived, arrival);
    SameTells(lease, arrived, arrived.(failed := arrived.failed + {UdpSide}));
    RecordedTells(lease, arrived, UdpSide, Replied, reply);
    CompletionTells(lease, Recorded(lease, arrived, UdpSide, Replied, reply), UdpSide);
  }

  lemma ConnectTells(lease: Lease, s: Listener, at: Moment)
    requires LeaseValid(lease) && Valid(lease.task, s.m) && Told(lease, s)
    ensures Told(lease, OnConnect(lease, s, at))
  {
    hide LeaseValid, Valid, Told, Recorded, BothAdmitted;
    SameTells(lease, s, PairedListener.Claim(s, TcpSide));
    RecordedTells(lease, PairedListener.Claim(s, TcpSide), TcpSide, Arrived, at);
    var arrived := Recorded(lease, PairedListener.Claim(s, TcpSide), TcpSide, Arrived, at);
    SameTells(lease, arrived, arrived.(replying := TcpSide !in arrived.failed));
  }

  lemma ReplyTells(lease: Lease, s: Listener, sent: bool, at: Moment)
    requires LeaseValid(lease) && Valid(lease.task, s.m) && Told(lease, s)
    ensures Told(lease, OnReply(lease, s, sent, at))
  {
    hide LeaseValid, Valid, Told, Recorded, WithCompletion;
    var handling := s.(replying := false);
    SameTells(lease, s, handling);
    SameTells(lease, s, handling.(failed := handling.failed + {TcpSide}));
    RecordedTells(lease, handling, TcpSide, Replied, at);
    CompletionTells(lease, Recorded(lease, handling, TcpSide, Replied, at), TcpSide);
  }

  lemma AdmissionTells(t: Task, m: Machine, a: Action)
    requires AdmissionAction(a) || a.Cancel?
    ensures React(t, m, a).next.ledger.out == m.ledger.out
  {
    hide Begin, Prepare, Wake;
    match a
    case AdmitBegin(id) => BeginEffect(t, m, id);
    case AdmitPrepare(now, preflight) => PrepareEffect(t, m, now, preflight);
    case AdmitWake(actual, timedOut) => WakeTells(t, m, actual, timedOut);
    case AdmitAbort =>
    case Cancel =>
  }

  lemma WakeTells(t: Task, m: Machine, actual: real, timedOut: bool)
    ensures Wake(t, m, actual, timedOut).next.ledger.out == m.ledger.out
  {
    hide Gap, ExpectedTarget, Max;
  }

  lemma MoveTells(lease: Lease, s: Listener, move: Move)
    requires LeaseValid(lease) && ListenerValid(lease, s) && Told(lease, s)
    ensures Told(lease, Step(lease, s, move))
  {
    var s' := Step(lease, s, move);
    hide LeaseValid, Valid, SideValid, StageValid, AddressesBound, ViewOf, Told, React, OnConnect, OnReply, OnDatagram, OnSilence,
         Raised, Admits, BothAdmitted;
    match move
    case Connect(at) => ConnectTells(lease, s, at);
    case Reply(sent, at) => ReplyTells(lease, s, sent, at);
    case Datagram(arrival, sent, reply) => DatagramTells(lease, s, arrival, sent, reply);
    case Sweep(first, second) =>
      SilenceTells(lease, s, TcpSide, first);
      SilenceKeeps(lease, s, TcpSide, first);
      SilenceTells(lease, OnSilence(lease, s, TcpSide, first), UdpSide, second);
    case Admission(action) =>
      if s.stage == Admitting && Admits(lease, s, action) {
        IsAdmission(lease, s, action);
        AdmissionTells(lease.task, s.m, action);
      }
      SameTells(lease, s, s');
    case CancelTask =>
      AdmissionTells(lease.task, s.m, Cancel);
      SameTells(lease, s, s');
    case _ => SameTells(lease, s, s');
  }

  lemma IsAdmission(lease: Lease, s: Listener, action: Action)
    requires Admits(lease, s, action)
    ensures AdmissionAction(action)
  {
  }

  /** In every interleaving of admissions, connections, datagrams, expiry and stop, each
      observation of the paired task is the evidence of one step and one phase, and each
      phase that a handler went through left its evidence. */
  lemma {:induction false} EvidenceExactly(lease: Lease, now: real, moves: seq<Move>)
    requires LeaseValid(lease)
    ensures Told(lease, RunListener(lease, now, moves))
  {
    hide LeaseValid, ListenerValid, Step, Told;
    if moves == [] {
      NothingTold(lease, now);
    } else {
      EvidenceExactly(lease, now, moves[..|moves| - 1]);
      RunListenerValid(lease, now, moves[..|moves| - 1]);
      MoveTells(lease, RunListener(lease, now, moves[..|moves| - 1]), moves[|moves| - 1]);
    }
  }

  lemma NothingTold(lease: Lease, now: real)
    ensures Told(lease, Fresh(lease, now))
  {
  }

  // --- stages -------------------------------------------------------------------------------------

  function Rank(stage: Stage): nat {
    match stage
    case Created => 0
    case Admitting => 1
    case Opening => 2
    case Serving => 3
    case Aborted => 4
  }

  /** `start()` runs once and forward: it admits, opens, serves, and aborts only before its
      sockets are open; it opens only with both steps admitted, and serves only what it
      opened. */
  lemma StagesForward(lease: Lease, s: Listener, move: Move)
    ensures var s' := Step(lease, s, move);
            && Rank(s.stage) <= Rank(s'.stage)
            && (s'.stage == s.stage || s'.stage == Aborted || Rank(s'.stage) == Rank(s.stage) + 1)
            && (s'.stage == Aborted && s.stage != Aborted ==> s.stage == Created || s.stage == Admitting)
            && (s'.stage == Opening && s.stage != Opening ==> BothAdmitted(lease, s) && move == Open(true))
            && (s'.stage == Admitting && s.stage != Admitting ==> move == Start(true))
  {
    hide OnConnect, OnReply, OnDatagram, OnSweep, React, BothAdmitted, Admits;
    if move.Connect? || move.Reply? || move.Datagram? || move.Sweep? {
      HandlersKeepStage(lease, s, move);
    }
  }

  lemma HandlersKeepStage(lease: Lease, s: Listener, move: Move)
    requires move.Connect? || move.Reply? || move.Datagram? || move.Sweep?
    ensures Step(lease, s, move).stage == s.stage
  {
    hide RecordPair, Lifecycle, BothAdmitted;
  }

  // --- a listener that never starts ---------------------------------------------------------------

  /** Over before it admitted anything, and nothing recorded. */
  predicate Dead(lease: Lease, s: Listener) {
    && s.stage == Aborted && !s.known && s.claimed == {} && !s.replying && !BothAdmitted(lease, s)
    && s.m.ledger.out.observations == [] && s.m.admission.Idle? && s.m.ledger.book.admittedSteps == {}
  }

  lemma DeadStays(lease: Lease, s: Listener, move: Move)
    requires Dead(lease, s)
    ensures Dead(lease, Step(lease, s, move))
  {
    hide Recorded, WithCompletion, OnAdmission;
    if move.Admission? {
      NoAdmission(lease, s, move.action);
    }
  }

  lemma NoAdmission(lease: Lease, s: Listener, action: Action)
    requires s.stage == Aborted
    ensures OnAdmission(lease, s, action) == s
  {
    hide React;
  }

  /** Started on a lease that is no longer current, a listener records nothing, claims
      nothing and admits nothing, whatever arrives and however often it is stopped. */
  lemma {:induction false} StaleLeaseIsSilent(lease: Lease, now: real, moves: seq<Move>)
    ensures Dead(lease, RunListener(lease, now, [Start(false)] + moves))
  {
    hide Dead, Step;
    if moves == [] {
      assert [Start(false)] + moves == [] + [Start(false)];
      Extend(lease, now, [], Start(false));
      StaleStart(lease, now);
    } else {
      var front, last := moves[..|moves| - 1], moves[|moves| - 1];
      assert [Start(false)] + moves == ([Start(false)] + front) + [last];
      StaleLeaseIsSilent(lease, now, front);
      Extend(lease, now, [Start(false)] + front, last);
      DeadStays(lease, RunListener(lease, now, [Start(false)] + front), last);
    }
  }

  lemma StaleStart(lease: Lease, now: real)
    ensures Dead(lease, Step(lease, RunListener(lease, now, []), Start(false)))
  {
  }
}
