/** A coverage receiver on UDP: over any traffic it answers and records exactly the first
    acceptable datagram of its lease. */
module CoverageReceiver {
  import opened Outcomes
  import opened WireFormats

  /** The two datagram profiles; DNS questions carry the correlation as a label. */
  datatype Lease = Lease(dns: bool, correlation: Ascii, source: string, expiresAt: real)

  /** One arrival: the sender, the octets, the clock when the lease is checked, and the
      clock when the receipt is written. */
  datatype Arrival = Arrival(sender: string, octets: seq<Octet>, now: real, recordedAt: real)

  datatype Receipt = Receipt(sender: string, octets: seq<Octet>, arrivedAt: real)

  datatype Receiver = Receiver(claimed: bool, receipts: seq<Receipt>, sent: seq<seq<Octet>>)

  const ACKNOWLEDGED: seq<Octet> := [0x4D, 0x52, 0x43, 0x32, 0x41]

  predicate LeaseValid(lease: Lease) {
    CorrelationValid(lease.correlation)
  }

  function Tag(lease: Lease): seq<Octet> {
    var text: Ascii := CoverageTag("udp_tagged", lease.correlation);
    Octets(text)
  }

  /** The reply a datagram deserves, looking at its octets alone. */
  function Answer(lease: Lease, octets: seq<Octet>): Option<seq<Octet>>
    requires LeaseValid(lease)
  {
    if lease.dns then Reply(lease.correlation, octets)
    else if octets == Tag(lease) then Some(ACKNOWLEDGED)
    else None
  }

  predicate Acceptable(lease: Lease, a: Arrival)
    requires LeaseValid(lease)
  {
    a.sender == lease.source && a.now < lease.expiresAt && Answer(lease, a.octets).Some?
  }

  /** `_receive_datagram` and `_record`. */
  function Receive(lease: Lease, r: Receiver, a: Arrival): Receiver
    requires LeaseValid(lease)
  {
    if r.claimed || a.sender != lease.source || a.now >= lease.expiresAt then r
    else
      match Answer(lease, a.octets)
      case None => r
      case Some(reply) =>
        Receiver(true, r.receipts + [Receipt(a.sender, a.octets, a.recordedAt)], r.sent + [reply])
  }

  const IDLE: Receiver := Receiver(false, [], [])

  function Traffic(lease: Lease, arrivals: seq<Arrival>): Receiver
    requires LeaseValid(lease)
  {
    if arrivals == [] then IDLE
    else Receive(lease, Traffic(lease, arrivals[..|arrivals| - 1]), arrivals[|arrivals| - 1])
  }

  class CoverageReceiverService {
    const lease: Lease
    var claimed: bool
    var receipts: seq<Receipt>
    var sent: seq<seq<Octet>>

    ghost function Current(): Receiver
      reads this
    {
      Receiver(claimed, receipts, sent)
    }

    constructor (lease: Lease)
      ensures this.lease == lease && Current() == IDLE
    {
      this.lease := lease;
      claimed, receipts, sent := false, [], [];
    }

    method ReceiveDatagram(a: Arrival)
      requires LeaseValid(lease)
      modifies this
      ensures Current() == Receive(lease, old(Current()), a)
    {
      if claimed || a.sender != lease.source || a.now >= lease.expiresAt { return; }
      var reply := Answer(lease, a.octets);
      if reply.None? { return; }
      sent := sent + [reply.value];
      Record(a);
    }

    method Record(a: Arrival)
      modifies this`claimed, this`receipts
      ensures if old(claimed) then claimed && receipts == old(receipts)
              else claimed && receipts == old(receipts) + [Receipt(a.sender, a.octets, a.recordedAt)]
    {
      if claimed { return; }
      claimed := true;
      receipts := receipts + [Receipt(a.sender, a.octets, a.recordedAt)];
    }
  }

  /** Arrival `i` is the first acceptable one. */
  predicate First(lease: Lease, arrivals: seq<Arrival>, i: nat)
    requires LeaseValid(lease) && i < |arrivals|
  {
    Acceptable(lease, arrivals[i]) && forall j :: 0 <= j < i ==> !Acceptable(lease, arrivals[j])
  }

  /** Whatever arrives, from whomever and whenever: without an acceptable datagram nothing
      is recorded and nothing sent; otherwise the one receipt is that of the first
      acceptable datagram, and the one reply is its answer. */
  lemma {:induction false} FirstAcceptableOnly(lease: Lease, arrivals: seq<Arrival>)
    requires LeaseValid(lease)
    ensures var r := Traffic(lease, arrivals);
            if exists i :: 0 <= i < |arrivals| && Acceptable(lease, arrivals[i]) then
              exists i :: 0 <= i < |arrivals| && First(lease, arrivals, i) && r.claimed
                          && r.receipts == [Receipt(arrivals[i].sender, arrivals[i].octets, arrivals[i].recordedAt)]
                          && r.sent == [Answer(lease, arrivals[i].octets).value]
            else r == IDLE
  {
    hide Answer;
    if arrivals != [] {
      var n := |arrivals| - 1;
      var front, last := arrivals[..n], arrivals[n];
      FirstAcceptableOnly(lease, front);
      assert forall i :: 0 <= i < n ==> front[i] == arrivals[i];
      var before := Traffic(lease, front);
      if k :| 0 <= k < n && Acceptable(lease, arrivals[k]) {
        assert Acceptable(lease, front[k]);
        var i :| 0 <= i < n && First(lease, front, i) && before.claimed
                 && before.receipts == [Receipt(front[i].sender, front[i].octets, front[i].recordedAt)]
                 && before.sent == [Answer(lease, front[i].octets).value];
        assert First(lease, arrivals, i);
      } else {
        assert before == IDLE;
        if Acceptable(lease, last) {
          assert First(lease, arrivals, n);
          var receipt, reply := Receipt(last.sender, last.octets, last.recordedAt), Answer(lease, last.octets).value;
          assert IDLE.receipts + [receipt] == [receipt] && IDLE.sent + [reply] == [reply];
        }
      }
    }
  }

  /** On DNS the receiver accepts, of all datagrams, exactly queries with the question for its
      own correlation, under any identifier and counts, from its peer and before expiry. */
  lemma OwnQuestionsOnly(lease: Lease, a: Arrival)
    requires LeaseValid(lease) && lease.dns
    ensures Acceptable(lease, a) <==>
              && a.sender == lease.source && a.now < lease.expiresAt
              && exists id, counts :: |id| == 2 && |counts| == 8 && a.octets == id + [1, 0] + counts + Question(lease.correlation)
  {
    ReplyAcceptsExactly(lease.correlation, a.octets);
    hide Reply, Question;
  }

  /** On the tagged profile it accepts exactly its own tag, and acknowledges it with the five
      octets `MRC2A`. */
  lemma OwnTagOnly(lease: Lease, a: Arrival)
    requires LeaseValid(lease) && !lease.dns
    ensures Acceptable(lease, a) <==>
              && a.sender == lease.source && a.now < lease.expiresAt
              && |a.octets| == 16 + |lease.correlation|
              && forall i :: 0 <= i < |a.octets| ==> a.octets[i] as int == ("MRC2:udp_tagged:" + lease.correlation)[i] as int
    ensures Answer(lease, a.octets).Some? ==>
              |Answer(lease, a.octets).value| == 5
              && forall i :: 0 <= i < 5 ==> Answer(lease, a.octets).value[i] as int == "MRC2A"[i] as int
  {
    var text: Ascii := CoverageTag("udp_tagged", lease.correlation);
    assert text == "MRC2:udp_tagged:" + lease.correlation;
  }
}
