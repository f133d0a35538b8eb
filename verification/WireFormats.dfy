/** The data-plane formats: length-prefixed tags, coverage tags, the fixed DNS query and
    reply, and the two-octet framing of DNS over TCP. */
module WireFormats {
  import opened Outcomes

  type Octet = x: int | 0 <= x < 256

  /** `str.isascii()`; correlations have 1 to 64 such characters. */
  type Ascii = s: string | forall i :: 0 <= i < |s| ==> s[i] as int < 128

  predicate CorrelationValid(c: Ascii) {
    1 <= |c| <= 64
  }

  function Octets(s: Ascii): seq<Octet> {
    seq(|s|, i requires 0 <= i < |s| => s[i] as int)
  }

  lemma OctetsPrefix(a: Ascii, b: Ascii)
    ensures Octets(a) <= Octets(b) <==> a <= b
    ensures Octets(a) == Octets(b) <==> a == b
  {
    if Octets(a) <= Octets(b) {
      forall i | 0 <= i < |a| ensures a[i] == b[i] {
        assert Octets(a)[i] == Octets(b)[i];
      }
    }
    if Octets(a) == Octets(b) {
      forall i | 0 <= i < |a| ensures a[i] == b[i] {
        assert Octets(a)[i] == Octets(b)[i];
      }
    }
  }

  // --- paired tags --------------------------------------------------------------------

  const MRP1: seq<Octet> := [0x4D, 0x52, 0x50, 0x31]
  const MRP1T: seq<Octet> := [0x4D, 0x52, 0x50, 0x31, 0x54]

  predicate NonceValid(nonce: Ascii) {
    8 <= |nonce| <= 128
  }

  /** `encode_tcp_tag`. */
  function TcpTag(correlation: Ascii): seq<Octet>
    requires CorrelationValid(correlation)
  {
    MRP1T + [|correlation|] + Octets(correlation)
  }

  /** `encode_udp_tag`. */
  function UdpTag(nonce: Ascii, tag: seq<Octet>): seq<Octet>
    requires NonceValid(nonce)
  {
    MRP1 + [|nonce|] + Octets(nonce) + tag
  }

  /** No preface begins with another one, so a listener that reads as many octets as its
      own preface has accepts exactly its own correlation, whatever follows. */
  lemma TcpTagsPrefixFree(a: Ascii, b: Ascii)
    requires CorrelationValid(a) && CorrelationValid(b)
    ensures TcpTag(a) <= TcpTag(b) <==> a == b
  {
    OctetsPrefix(a, b);
    if TcpTag(a) <= TcpTag(b) {
      assert TcpTag(a)[5] == TcpTag(b)[5];
      assert TcpTag(a)[6..] == Octets(a) && TcpTag(b)[6..] == Octets(b);
    }
  }

  /** The listener's own comparison, the first octets of the stream against its preface:
      once it has read that many, it accepts exactly its own correlation, whatever follows
      the preface that was sent. */
  lemma TcpAdmission(own: Ascii, sent: Ascii, rest: seq<Octet>)
    requires CorrelationValid(own) && CorrelationValid(sent)
    ensures var stream := TcpTag(sent) + rest;
            |TcpTag(own)| <= |stream| ==> (stream[..|TcpTag(own)|] == TcpTag(own) <==> own == sent)
  {
    TcpTagsPrefixFree(own, sent);
    var stream := TcpTag(sent) + rest;
    if |TcpTag(own)| <= |stream| && stream[..|TcpTag(own)|] == TcpTag(own) {
      assert stream[5] == |sent| && stream[..|TcpTag(own)|][5] == |own|;
      assert stream[..|TcpTag(own)|] == TcpTag(sent)[..|TcpTag(own)|];
    }
  }

  /** A datagram determines both its nonce and its tag; its size is always within 1400. */
  lemma UdpTagInjective(n1: Ascii, t1: seq<Octet>, n2: Ascii, t2: seq<Octet>)
    requires NonceValid(n1) && NonceValid(n2) && 1 <= |t1| <= 64 && 1 <= |t2| <= 64
    ensures UdpTag(n1, t1) == UdpTag(n2, t2) <==> n1 == n2 && t1 == t2
    ensures |UdpTag(n1, t1)| <= 1_400
  {
    var a, b := UdpTag(n1, t1), UdpTag(n2, t2);
    if a == b {
      assert a[4] == |n1| && b[4] == |n2|;
      assert a[5..5 + |n1|] == Octets(n1) && b[5..5 + |n2|] == Octets(n2);
      assert a[5 + |n1|..] == t1 && b[5 + |n2|..] == t2;
      OctetsPrefix(n1, n2);
    }
  }

  // --- coverage tags ----------------------------------------------------------------------

  const PROFILES: set<string> := {
    "tcp_connect", "tcp_tagged", "udp_tagged", "dns_udp", "dns_tcp", "icmp_echo", "tls_handshake", "http_exchange",
    "ssh_banner", "arp", "ipv6_nd", "nmap_tcp_connect", "nmap_tcp_syn", "nmap_udp", "nmap_sctp_init"}

  /** `encode_coverage_tag`, as text. */
  function CoverageTag(profile: string, correlation: Ascii): string {
    "MRC2:" + (profile + (":" + correlation))
  }

  lemma NoColon(profile: string)
    requires profile in PROFILES
    ensures ':' !in profile
  {
  }

  lemma {:induction false} SplitAtColon(p: string, q: string, a: string, b: string)
    requires ':' !in p && ':' !in q
    ensures p + (":" + a) <= q + (":" + b) <==> p == q && a <= b
  {
    var x, y := p + (":" + a), q + (":" + b);
    if p == [] && q == [] {
      assert x[1..] == a && y[1..] == b;
      HeadAndTail(x, y);
    } else if p == [] {
      assert x[0] == ':' && y[0] == q[0] && q[0] in q;
    } else if q == [] {
      assert x[0] == p[0] && y[0] == ':' && p[0] in p;
    } else {
      SplitAtColon(p[1..], q[1..], a, b);
      assert x == [p[0]] + (p[1..] + (":" + a)) && y == [q[0]] + (q[1..] + (":" + b));
      assert x <= y <==> p[0] == q[0] && p[1..] + (":" + a) <= q[1..] + (":" + b) by { HeadAndTail(x, y); }
      assert p == [p[0]] + p[1..] && q == [q[0]] + q[1..];
    }
  }

  lemma HeadAndTail(x: string, y: string)
    requires x != [] && y != []
    ensures x <= y <==> x[0] == y[0] && x[1..] <= y[1..]
  {
    if x[0] == y[0] && x[1..] <= y[1..] {
      assert x == [x[0]] + x[1..];
      forall i | 0 <= i < |x| ensures x[i] == y[i] {
        assert i > 0 ==> x[i] == x[1..][i - 1] && y[i] == y[1..][i - 1];
      }
    }
  }

  /** A coverage tag begins with another exactly when the profiles agree and the one
      correlation begins with the other. */
  lemma CoverageTagPrefix(p: string, a: Ascii, q: string, b: Ascii)
    requires p in PROFILES && q in PROFILES
    ensures CoverageTag(p, a) <= CoverageTag(q, b) <==> p == q && a <= b
  {
    NoColon(p);
    NoColon(q);
    hide CoverageTag;
    assert CoverageTag(p, a) <= CoverageTag(q, b) <==> p + (":" + a) <= q + (":" + b) by { AfterMagic(p, a, q, b); }
    SplitAtColon(p, q, a, b);
  }

  lemma AfterMagic(p: string, a: Ascii, q: string, b: Ascii)
    ensures CoverageTag(p, a) <= CoverageTag(q, b) <==> p + (":" + a) <= q + (":" + b)
  {
    var x, y := p + (":" + a), q + (":" + b);
    assert CoverageTag(p, a)[5..] == x && CoverageTag(q, b)[5..] == y;
    if x <= y {
      assert ("MRC2:" + y)[..5 + |x|] == "MRC2:" + y[..|x|];
    }
  }

  /** So the tags are prefix-free among correlations of one length. */
  lemma CoverageTagsPrefixFree(p: string, a: Ascii, q: string, b: Ascii)
    requires p in PROFILES && q in PROFILES && |a| == |b|
    ensures CoverageTag(p, a) <= CoverageTag(q, b) <==> p == q && a == b
  {
    CoverageTagPrefix(p, a, q, b);
  }

  /** Only there: a receiver that reads as many octets as its own tag has also accepts the
      tag of a longer correlation that begins with its own. */
  lemma CoverageAdmission(profile: string, own: Ascii, sent: Ascii, rest: string)
    requires profile in PROFILES && |own| <= |sent|
    ensures var tag, stream := CoverageTag(profile, own), CoverageTag(profile, sent) + rest;
            |tag| <= |stream| && (stream[..|tag|] == tag <==> own <= sent)
  {
    CoverageTagPrefix(profile, own, profile, sent);
    var tag, whole := CoverageTag(profile, own), CoverageTag(profile, sent);
    assert |tag| <= |whole| && (whole + rest)[..|tag|] == whole[..|tag|];
  }

  // --- DNS -----------------------------------------------------------------------------------

  const MERCURY: seq<Octet> := [0x6D, 0x65, 0x72, 0x63, 0x75, 0x72, 0x79]
  const TEST: seq<Octet> := [0x74, 0x65, 0x73, 0x74]

  /** The labels `mercury` and `test`, and the root. */
  const DOMAIN: seq<Octet> := [7] + MERCURY + [4] + TEST + [0]

  function NameOctets(correlation: Ascii): seq<Octet>
    requires CorrelationValid(correlation)
  {
    [|correlation|] + Octets(correlation) + DOMAIN
  }

  function Question(correlation: Ascii): seq<Octet>
    requires CorrelationValid(correlation)
  {
    NameOctets(correlation) + [0, 1, 0, 1]
  }

  const QUERY_HEADER: seq<Octet> := [0x4D, 0x43, 1, 0, 0, 1, 0, 0, 0, 0, 0, 0]
  const REPLY_HEADER: seq<Octet> := [0x81, 0x80, 0, 1, 0, 1, 0, 0, 0, 0]
  const ANSWER: seq<Octet> := [0xC0, 0x0C, 0, 1, 0, 1, 0, 0, 0, 0, 0, 4, 0x7F, 0, 0, 1]

  /** `_dns_coverage_query`. */
  function Query(correlation: Ascii): seq<Octet>
    requires CorrelationValid(correlation)
  {
    QUERY_HEADER + Question(correlation)
  }

  /** `_dns_coverage_reply`. */
  function Reply(correlation: Ascii, query: seq<Octet>): Option<seq<Octet>>
    requires CorrelationValid(correlation)
  {
    if |query| < 17 || query[2..4] != [1, 0] || query[12..] != Question(correlation) then None
    else Some(query[..2] + REPLY_HEADER + Question(correlation) + ANSWER)
  }

  /** A receiver answers exactly its own question: whatever the identifier and the four
      counts, which it does not look at. */
  lemma ReplyAcceptsExactly(correlation: Ascii, query: seq<Octet>)
    requires CorrelationValid(correlation)
    ensures Reply(correlation, query).Some? <==>
              exists id, counts :: |id| == 2 && |counts| == 8 && query == id + [1, 0] + counts + Question(correlation)
  {
    if Reply(correlation, query).Some? {
      assert query == query[..2] + [1, 0] + query[4..12] + Question(correlation);
    }
    if id, counts :| |id| == 2 && |counts| == 8 && query == id + [1, 0] + counts + Question(correlation) {
      assert query[2..4] == [1, 0] && query[12..] == Question(correlation);
    }
  }

  /** The reply for one correlation accepts the query for another exactly when they are
      the same. */
  lemma ReplyMatchesQuery(own: Ascii, asked: Ascii)
    requires CorrelationValid(own) && CorrelationValid(asked)
    ensures Reply(own, Query(asked)).Some? <==> own == asked
  {
    var query := Query(asked);
    assert query[2..4] == [1, 0] && query[12..] == Question(asked);
    if Question(own) == Question(asked) {
      assert Question(own)[0] == |own| && Question(asked)[0] == |asked|;
      assert Question(own)[1..1 + |own|] == Octets(own) && Question(asked)[1..1 + |asked|] == Octets(asked);
      OctetsPrefix(own, asked);
    }
  }

  // --- a reader of RFC 1035 messages -----------------------------------------------------------

  datatype Name = Name(labels: seq<seq<Octet>>, next: nat)

  function Short(m: seq<Octet>, at: nat): nat
    requires at + 2 <= |m|
  {
    var high: nat, low: nat := m[at], m[at + 1];
    high * 256 + low
  }

  /** Section 4.1.4 of RFC 1035: labels of at most 63 octets, or a pointer to an earlier
      place; the two other bit patterns are reserved. */
  function ReadName(m: seq<Octet>, at: nat, bound: nat): Option<Name>
    decreases bound, |m| - at
  {
    if at >= |m| then None
    else if m[at] == 0 then Some(Name([], at + 1))
    else if m[at] < 64 then
      if at + 1 + m[at] > |m| then None
      else
        match ReadName(m, at + 1 + m[at], bound)
        case Some(rest) => Some(Name([m[at + 1..at + 1 + m[at]]] + rest.labels, rest.next))
        case None => None
    else if m[at] >= 192 && at + 1 < |m| && Short(m, at) - 0xC000 < bound then
      match ReadName(m, Short(m, at) - 0xC000, Short(m, at) - 0xC000)
      case Some(rest) => Some(Name(rest.labels, at + 2))
      case None => None
    else None
  }

  datatype Record = Record(name: seq<seq<Octet>>, kind: nat, class_: nat, data: seq<Octet>)

  datatype Message = Message(id: seq<Octet>, flags: nat, questions: seq<Record>, answers: seq<Record>)

  /** Section 4.1.2: a question. */
  function ReadQuestion(m: seq<Octet>, at: nat): Option<(Record, nat)> {
    match ReadName(m, at, at)
    case Some(name) =>
      if name.next + 4 > |m| then None
      else Some((Record(name.labels, Short(m, name.next), Short(m, name.next + 2), []), name.next + 4))
    case None => None
  }

  /** Section 4.1.3: a resource record. */
  function ReadAnswer(m: seq<Octet>, at: nat): Option<(Record, nat)> {
    match ReadName(m, at, at)
    case Some(name) =>
      if name.next + 10 > |m| || name.next + 10 + Short(m, name.next + 8) > |m| then None
      else
        var size := Short(m, name.next + 8);
        Some((Record(name.labels, Short(m, name.next), Short(m, name.next + 2), m[name.next + 10..name.next + 10 + size]),
              name.next + 10 + size))
    case None => None
  }

  /** A whole message with one question, one answer and nothing else or left over. */
  function ReadMessage(m: seq<Octet>): Option<Message> {
    if |m| < 12 || Short(m, 4) != 1 || Short(m, 6) != 1 || Short(m, 8) != 0 || Short(m, 10) != 0 then None
    else
      match ReadQuestion(m, 12)
      case None => None
      case Some(question) =>
        match ReadAnswer(m, question.1)
        case None => None
        case Some(answer) =>
          if answer.1 != |m| then None
          else Some(Message(m[..2], Short(m, 2), [question.0], [answer.0]))
  }

  function Labels(correlation: Ascii): seq<seq<Octet>> {
    [Octets(correlation), MERCURY, TEST]
  }

  lemma Within(m: seq<Octet>, at: nat, size: nat, i: nat, j: nat)
    requires at + size <= |m| && i <= j <= size
    ensures m[at..at + size][i..j] == m[at + i..at + j]
  {
    var inner := m[at..at + size];
    assert forall x :: 0 <= x < j - i ==> inner[i..j][x] == inner[i + x] == m[at + (i + x)];
  }

  lemma {:induction false} ReadDomain(m: seq<Octet>, at: nat, bound: nat)
    requires at + 14 <= |m| && m[at..at + 14] == DOMAIN
    ensures ReadName(m, at, bound) == Some(Name([MERCURY, TEST], at + 14))
  {
    var tail := m[at..at + 14];
    assert tail[0] == 7 && tail[1..8] == MERCURY && tail[8] == 4 && tail[9..13] == TEST && tail[13] == 0;
    assert m[at] == tail[0] && m[at + 8] == tail[8] && m[at + 13] == tail[13];
    Within(m, at, 14, 1, 8);
    Within(m, at, 14, 9, 13);
    assert ReadName(m, at + 13, bound) == Some(Name([], at + 14));
    assert [TEST] + [] == [TEST];
    assert ReadName(m, at + 8, bound) == Some(Name([TEST], at + 14));
    assert [MERCURY] + [TEST] == [MERCURY, TEST];
  }

  lemma {:induction false} ReadOwnName(m: seq<Octet>, at: nat, bound: nat, correlation: Ascii)
    requires CorrelationValid(correlation)
    requires at + |correlation| + 15 <= |m| && m[at..at + |correlation| + 15] == NameOctets(correlation)
    ensures |correlation| <= 63 ==> ReadName(m, at, bound) == Some(Name(Labels(correlation), at + |correlation| + 15))
    ensures |correlation| == 64 ==> ReadName(m, at, bound) == None
  {
    var name, k := m[at..at + |correlation| + 15], |correlation|;
    assert name[0] == k && name[1..1 + k] == Octets(correlation) && name[1 + k..] == DOMAIN;
    Within(m, at, k + 15, 1, 1 + k);
    Within(m, at, k + 15, 1 + k, k + 15);
    assert m[at] == name[0] && name[1 + k..k + 15] == DOMAIN;
    ReadDomain(m, at + 1 + k, bound);
    if k <= 63 {
      assert [Octets(correlation)] + [MERCURY, TEST] == Labels(correlation);
    }
  }

  function Expected(correlation: Ascii, id: seq<Octet>): Message {
    Message(id, 0x8180, [Record(Labels(correlation), 1, 1, [])], [Record(Labels(correlation), 1, 1, [0x7F, 0, 0, 1])])
  }

  /** The reply reads back as a response with the query's identifier, one question and one
      answer, whose compression pointer leads to the question name and whose address is
      127.0.0.1, exactly when the correlation is a legal label: the 64 octets that leases
      allow exceed the 63 of section 2.3.4 of RFC 1035, and such a reply is unreadable. */
  lemma ReplyReadsBack(correlation: Ascii, query: seq<Octet>)
    requires CorrelationValid(correlation) && Reply(correlation, query).Some?
    ensures ReadMessage(Reply(correlation, query).value) ==
              if |correlation| <= 63 then Some(Expected(correlation, query[..2])) else None
  {
    var m, k := Reply(correlation, query).value, |correlation|;
    var question := Question(correlation);
    assert |question| == k + 19 && |m| == k + 47;
    assert m[..2] == query[..2] && m[2..12] == REPLY_HEADER && m[12..k + 31] == question && m[k + 31..] == ANSWER;
    assert question[..k + 15] == NameOctets(correlation) && question[k + 15..] == [0, 1, 0, 1];
    assert m[12..12 + k + 15] == question[..k + 15] && m[k + 27..k + 31] == question[k + 15..];
    HeaderReads(m);
    ReadOwnName(m, 12, 12, correlation);
    hide ReadName, Question, NameOctets;
    if k <= 63 {
      QuestionReads(m, k, correlation);
      AnswerReads(m, k, correlation);
    }
  }

  lemma HeaderReads(m: seq<Octet>)
    requires |m| >= 12 && m[2..12] == REPLY_HEADER
    ensures Short(m, 2) == 0x8180 && Short(m, 4) == 1 && Short(m, 6) == 1 && Short(m, 8) == 0 && Short(m, 10) == 0
  {
    assert forall i :: 0 <= i < 10 ==> m[2 + i] == m[2..12][i];
  }

  lemma {:induction false} QuestionReads(m: seq<Octet>, k: nat, correlation: Ascii)
    requires k + 31 <= |m| && ReadName(m, 12, 12) == Some(Name(Labels(correlation), k + 27))
    requires m[k + 27..k + 31] == [0, 1, 0, 1]
    ensures ReadQuestion(m, 12) == Some((Record(Labels(correlation), 1, 1, []), k + 31))
  {
    hide ReadName;
    var end := m[k + 27..k + 31];
    assert m[k + 27] == end[0] && m[k + 28] == end[1] && m[k + 29] == end[2] && m[k + 30] == end[3];
  }

  lemma {:induction false} AnswerReads(m: seq<Octet>, k: nat, correlation: Ascii)
    requires |m| == k + 47 && m[k + 31..] == ANSWER && ReadName(m, 12, 12) == Some(Name(Labels(correlation), k + 27))
    ensures ReadAnswer(m, k + 31) == Some((Record(Labels(correlation), 1, 1, [0x7F, 0, 0, 1]), k + 47))
  {
    AnswerOctets(m, k);
    PointerReads(m, k + 31, Labels(correlation), k + 27);
    hide ReadName;
  }

  lemma AnswerOctets(m: seq<Octet>, k: nat)
    requires |m| == k + 47 && m[k + 31..] == ANSWER
    ensures m[k + 31] == 0xC0 && m[k + 32] == 0x0C
    ensures Short(m, k + 33) == 1 && Short(m, k + 35) == 1 && Short(m, k + 41) == 4
    ensures m[k + 43..k + 47] == [0x7F, 0, 0, 1]
  {
    var tail := m[k + 31..];
    assert forall i :: 0 <= i < 16 ==> m[k + 31 + i] == tail[i];
    assert m[k + 43..k + 47] == tail[12..16];
  }

  lemma PointerReads(m: seq<Octet>, at: nat, labels: seq<seq<Octet>>, next: nat)
    requires 12 < at && at + 1 < |m| && m[at] == 0xC0 && m[at + 1] == 0x0C
    requires ReadName(m, 12, 12) == Some(Name(labels, next))
    ensures ReadName(m, at, at) == Some(Name(labels, at + 2))
  {
  }

  // --- framing over TCP, section 4.2.2 of RFC 1035 ----------------------------------------------

  function Frame(m: seq<Octet>): seq<Octet>
    requires |m| < 65_536
  {
    [|m| / 256, |m| % 256] + m
  }

  function Unframe(stream: seq<Octet>): Option<(seq<Octet>, seq<Octet>)> {
    if |stream| < 2 || |stream| < 2 + Short(stream, 0) then None
    else Some((stream[2..2 + Short(stream, 0)], stream[2 + Short(stream, 0)..]))
  }

  /** Framing is undone, whatever follows in the stream; queries and replies always fit. */
  lemma FrameRoundTrip(correlation: Ascii, rest: seq<Octet>)
    requires CorrelationValid(correlation)
    ensures var query := Query(correlation);
            |query| < 65_536 && Unframe(Frame(query) + rest) == Some((query, rest))
    ensures var reply := Reply(correlation, Query(correlation));
            reply.Some? && |reply.value| < 65_536 && Unframe(Frame(reply.value) + rest) == Some((reply.value, rest))
  {
    ReplyMatchesQuery(correlation, correlation);
    assert |Query(correlation)| == |correlation| + 31;
    FrameUndone(Query(correlation), rest);
    FrameUndone(Reply(correlation, Query(correlation)).value, rest);
  }

  lemma FrameUndone(m: seq<Octet>, rest: seq<Octet>)
    requires |m| < 65_536
    ensures Unframe(Frame(m) + rest) == Some((m, rest))
  {
    var stream := Frame(m) + rest;
    assert Short(stream, 0) == |m|;
    assert stream[2..2 + |m|] == m && stream[2 + |m|..] == rest;
  }
}
