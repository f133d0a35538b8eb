/** The listener service as the object it is: it owns the claims and drives the task
    context. Each method is one move and leaves service and context as that move says. */
module PairedServices {
  import opened Outcomes
  import opened ResultDocument
  import opened Plans
  import opened TaskLedger
  import opened TaskContexts
  import opened PairedListener

  class PairedListenerService {
    const lease: Lease
    const context: TaskContext
    var stage: Stage
    var known: bool
    var claimed: set<Side>
    var replying: bool

    ghost var log: Both<seq<Phase>>
    ghost var failed: set<Side>
    ghost var faults: set<TaskError>

    ghost function Current(): Listener
      reads this, context
    {
      Listener(context.Current(), stage, known, claimed, replying, log, failed, faults)
    }

    /** Only claimed steps fail, and a busy handler has not failed yet. */
    ghost predicate Linked()
      reads this
    {
      context.task == lease.task && failed <= claimed && (replying ==> TcpSide in claimed && TcpSide !in failed)
    }

    constructor (lease: Lease, context: TaskContext)
      requires context.task == lease.task
      ensures this.lease == lease && this.context == context && Linked()
      ensures Current() == Listener(context.Current(), Created, false, {}, false, Both([], []), {}, {})
    {
      this.lease, this.context := lease, context;
      stage, known, claimed, replying := Created, false, {}, false;
      log, failed, faults := Both([], []), {}, {};
    }

    /** `_claim_step`: the first caller for a step gets it. */
    method ClaimStep(side: Side) returns (mine: bool)
      modifies this`claimed
      ensures mine <==> side !in old(claimed)
      ensures claimed == old(claimed) + {side}
    {
      if side in claimed {
        assert claimed == claimed + {side};
        return false;
      }
      claimed := claimed + {side};
      return true;
    }

    method RecordStep(side: Side, phase: Phase, at: Moment) returns (error: Option<TaskError>)
      requires context.task == lease.task
      modifies this`log, this`failed, this`faults, context
      ensures Current() == Recorded(lease, old(Current()), side, phase, at)
      ensures error.Some? ==> failed == old(failed) + {side}
      ensures error.None? ==> failed == old(failed)
    {
      hide RecordBound, Evidence, Lifecycle, PhaseText;
      error := context.Record(
        at.ended, Evidence(lease, side, phase, at.others), Some(Id(lease, side)),
        Some(Labels(lease.endpoint, lease.correlation, PhaseText(phase))), at.stored);
      if error.Some? {
        failed := failed + {side};
        faults := faults + (if Lifecycle(error.value) then {error.value} else {});
      } else {
        log := log.Put(side, log.Of(side) + [phase]);
      }
    }

    method CompleteStep(side: Side) returns (error: Option<TaskError>)
      requires context.task == lease.task
      modifies this`failed, this`faults, context
      ensures Current() == WithCompletion(lease, old(Current()), side)
      ensures failed == old(failed) + if error.Some? then {side} else {}
    {
      hide TaskLedger.CompleteStep, Lifecycle;
      error := context.CompleteAttempt(Id(lease, side));
      if error.Some? {
        failed := failed + {side};
        faults := faults + (if Lifecycle(error.value) then {error.value} else {});
      }
    }

    predicate Accepting()
      reads this, context
      ensures Accepting() <==> Handling(Current()) && BothAdmitted(lease, Current())
    {
      && stage in {Opening, Serving, Aborted} && !context.cancelled
      && Id(lease, TcpSide) in context.book.admittedSteps && Id(lease, UdpSide) in context.book.admittedSteps
    }

    /** `_handle_tcp` once the preface has matched, up to the write of the reply. */
    method HandleTcp(at: Moment)
      requires Linked()
      modifies this, context
      ensures Current() == OnConnect(lease, old(Current()), at)
      ensures Linked()
    {
      hide Recorded, Handling, BothAdmitted;
      if !Accepting() { return; }
      var mine := ClaimStep(TcpSide);
      if !mine { return; }
      var error := RecordStep(TcpSide, Arrived, at);
      replying := error.None?;
    }

    /** The rest of that handler. */
    method ReplyTcp(sent: bool, at: Moment)
      requires Linked()
      modifies this, context
      ensures Current() == OnReply(lease, old(Current()), sent, at)
      ensures Linked()
    {
      hide Recorded, WithCompletion;
      if !replying { return; }
      replying := false;
      if !sent {
        failed := failed + {TcpSide};
        return;
      }
      var error := RecordStep(TcpSide, Replied, at);
      if error.None? {
        error := CompleteStep(TcpSide);
      }
    }

    /** `_handle_datagram` once the tag has matched. */
    method HandleDatagram(arrival: Moment, sent: bool, reply: Moment)
      requires Linked()
      modifies this, context
      ensures Current() == OnDatagram(lease, old(Current()), arrival, sent, reply)
      ensures Linked()
    {
      hide Recorded, WithCompletion, Handling, BothAdmitted;
      if !Accepting() { return; }
      var mine := ClaimStep(UdpSide);
      if !mine { return; }
      var error := RecordStep(UdpSide, Arrived, arrival);
      if error.Some? { return; }
      if !sent {
        failed := failed + {UdpSide};
        return;
      }
      error := RecordStep(UdpSide, Replied, reply);
      if error.None? {
        error := CompleteStep(UdpSide);
      }
    }

    /** One step of the loop below; true when its record raised. */
    method NoteSilence(side: Side, at: Moment) returns (raised: bool)
      requires Linked() && stage in {Serving, Aborted} && known
      modifies this, context
      ensures Current() == OnSilence(lease, old(Current()), side, at)
      ensures raised <==> Raised(old(Current()), Current(), side)
      ensures Linked() && stage == old(stage) && known == old(known)
    {
      hide Recorded, WithCompletion;
      var mine := ClaimStep(side);
      if !mine { return false; }
      var error := RecordStep(side, Received, at);
      if error.None? {
        error := CompleteStep(side);
      }
      return error.Some?;
    }

    /** `_complete_missing`: TCP, then UDP unless that raised. */
    method CompleteMissing(first: Moment, second: Moment)
      requires Linked()
      modifies this, context
      ensures Current() == OnSweep(lease, old(Current()), first, second)
      ensures Linked()
    {
      hide OnSilence;
      if stage !in {Serving, Aborted} || !known {
        NothingToSweep(lease, Current(), first, second);
        return;
      }
      var raised := NoteSilence(TcpSide, first);
      if raised { return; }
      raised := NoteSilence(UdpSide, second);
    }
  }
}
