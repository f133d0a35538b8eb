/** Which Cartesian requests are published: the work of a request in closed form, and the
    exact condition under which the compiler accepts it. */
module PlanPublishing {
  import opened Outcomes
  import opened Collections
  import opened Networks
  import opened Plans
  import opened Policy
  import opened Cartesian
  import opened CartesianTheorems
  import opened Revalidation
  import opened PlanContents

  // --- sums over the compiled steps -----------------------------------------------------------

  lemma {:induction false} SumConcat<T>(a: seq<T>, b: seq<T>, f: T -> nat)
    ensures Sum(a + b, f) == Sum(a, f) + Sum(b, f)
  {
    if b == [] {
      assert a + b == a;
    } else {
      var front, last := b[..|b| - 1], b[|b| - 1];
      assert a + b == (a + front) + [last] && b == front + [last];
      SumAppend(a + front, last, f);
      SumAppend(front, last, f);
      SumConcat(a, front, f);
    }
  }

  /** The measure depends on the transport of a step alone. */
  ghost predicate ByTransport(n: Notation, shape: Shape, f: ProbeStep -> nat, c: Transport -> nat) {
    forall place, address, port, transport, attempt :: f(StepFor(n, shape, place, address, port, transport, attempt)) == c(transport)
  }

  lemma {:induction false} AttemptsSum(
    n: Notation, shape: Shape, place: Place, address: Target, port: nat, transport: Transport, k: nat, f: ProbeStep -> nat,
    c: Transport -> nat)
    requires ByTransport(n, shape, f, c)
    ensures Sum(Attempts(n, shape, place, address, port, transport, k), f) == k * c(transport)
  {
    hide StepFor;
    if k > 0 {
      AttemptsSum(n, shape, place, address, port, transport, k - 1, f, c);
      SumAppend(Attempts(n, shape, place, address, port, transport, k - 1), StepFor(n, shape, place, address, port, transport, k), f);
      assert k * c(transport) == (k - 1) * c(transport) + c(transport);
    }
  }

  lemma {:induction false} TransportsSum(
    n: Notation, shape: Shape, place: Place, address: Target, port: nat, transports: seq<Transport>, f: ProbeStep -> nat,
    c: Transport -> nat)
    requires ByTransport(n, shape, f, c)
    ensures Sum(OverTransports(n, shape, place, address, port, transports), f) == shape.repeats * Sum(transports, c)
  {
    hide StepFor, Attempts, ByTransport;
    if transports != [] {
      var front, last := transports[..|transports| - 1], transports[|transports| - 1];
      TransportsSum(n, shape, place, address, port, front, f, c);
      AttemptsSum(n, shape, place, address, port, last, shape.repeats, f, c);
      SumConcat(OverTransports(n, shape, place, address, port, front), Attempts(n, shape, place, address, port, last, shape.repeats), f);
      Distribute(shape.repeats, Sum(front, c), c(last));
    }
  }

  lemma Distribute(k: nat, x: nat, y: nat)
    ensures k * x + k * y == k * (x + y)
  {
  }

  lemma {:induction false} PortsSum(
    n: Notation, shape: Shape, place: Place, address: Target, ports: seq<nat>, f: ProbeStep -> nat, c: Transport -> nat)
    requires ByTransport(n, shape, f, c)
    ensures Sum(OverPorts(n, shape, place, address, ports), f) == |ports| * (shape.repeats * Sum(shape.transports, c))
  {
    hide StepFor, OverTransports, ByTransport;
    var each := shape.repeats * Sum(shape.transports, c);
    if ports != [] {
      var front, last := ports[..|ports| - 1], ports[|ports| - 1];
      PortsSum(n, shape, place, address, front, f, c);
      TransportsSum(n, shape, place, address, last, shape.transports, f, c);
      SumConcat(OverPorts(n, shape, place, address, front), OverTransports(n, shape, place, address, last, shape.transports), f);
      assert |ports| * each == (|ports| - 1) * each + each;
    }
  }

  lemma {:induction false} StepsSum(n: Notation, shape: Shape, places: seq<Place>, f: ProbeStep -> nat, c: Transport -> nat)
    requires ByTransport(n, shape, f, c) && CompileSteps(n, shape, places).Ok?
    ensures Sum(CompileSteps(n, shape, places).value, f)
         == |places| * (|shape.ports| * (shape.repeats * Sum(shape.transports, c)))
  {
    hide StepFor, OverPorts, ByTransport;
    var each := |shape.ports| * (shape.repeats * Sum(shape.transports, c));
    if places != [] {
      var front, last := places[..|places| - 1], places[|places| - 1];
      StepsSum(n, shape, front, f, c);
      PortsSum(n, shape, last, n.parse(last.address).value, shape.ports, f, c);
      SumConcat(CompileSteps(n, shape, front).value, OverPorts(n, shape, last, n.parse(last.address).value, shape.ports), f);
      assert |places| * each == (|places| - 1) * each + each;
    }
  }

  /** Once over the transports of a request, which are TCP, UDP or both. */
  lemma {:induction false} OverBoth(transports: seq<Transport>, c: Transport -> nat)
    requires transports == InTextOrder(Elements(transports)) && Sctp !in transports
    ensures Sum(transports, c) == (if Tcp in transports then c(Tcp) else 0) + (if Udp in transports then c(Udp) else 0)
  {
    assert forall x :: x in Elements(transports) <==> x in transports;
    var none: seq<Transport> := [];
    assert none + [Tcp] == [Tcp] && none + [Udp] == [Udp] && [Tcp] + [Udp] == [Tcp, Udp];
    SumAppend(none, Tcp, c);
    SumAppend(none, Udp, c);
    SumAppend([Tcp], Udp, c);
  }

  // --- the work of a request ----------------------------------------------------------------------

  /** Probes are sent to this many addresses for the target. */
  function Addresses(n: Notation, resolver: Resolver, t: Target): nat {
    match t
    case AddressTarget(_, _) => 1
    case NetworkTarget(network) => |Hosts(network)|
    case HostTarget(name) => if Resolved(n, resolver(name)).Ok? then |Resolved(n, resolver(name)).value| else 0
  }

  /** A hostname resolves to addresses it may have; a network is no IPv6 range and its hosts
      may be named one by one. */
  predicate Expandable(n: Notation, g: Grant, resolver: Resolver, now: int, t: Target) {
    match t
    case AddressTarget(_, _) => true
    case NetworkTarget(network) =>
      (network.version == V4 || network.prefix >= 128)
      && forall i :: 0 <= i < |Hosts(network)| ==> DestinationAllowed(AddressTarget(Hosts(network)[i], None))
    case HostTarget(name) =>
      && (name == "localhost" || (g.attested && name in g.hostnames))
      && Resolved(n, resolver(name)).Ok?
      && forall e :: e in Resolved(n, resolver(name)).value ==> Answerable(g, name, e.address)
  }

  /** Addresses, ports, transports and repeats multiply; UDP attempts send the requested
      datagrams; each step reserves one event and 512 octets of result, the task five
      events and 4096 octets. */
  predicate RequestFits(q: Request, hosts: nat)
    requires q.datagrams >= 0 && q.repeats >= 0 && RequestedLength(q) >= 0
  {
    var l, ports := q.limits, |Asked(q.ports)|;
    var udp, tcp := if Udp in q.transports then 1 else 0, if Tcp in q.transports then 1 else 0;
    var lines := hosts * (ports * q.repeats);
    && hosts <= l.maxHosts && ports <= l.maxPorts
    && lines * (tcp + udp) <= l.maxAttempts && lines * (udp * q.datagrams) <= l.maxDatagrams
    && lines * (tcp + udp * q.datagrams) <= l.maxPackets
    && lines * (RequestedLength(q) * (tcp + udp * q.datagrams)) <= l.maxApplicationBytes
    && lines * (tcp + udp) + 5 <= l.maxEvents && lines * (tcp + udp) * 512 + 4_096 <= l.maxOutputBytes
  }

  function Asked(ports: seq<int>): set<int> {
    set port | port in ports
  }

  predicate Publishable(env: Environment, q: Request, resolver: Resolver, now: int)
    requires RequestAcceptable(env, q, now) && NormalizeTargets(env.notation, q.values).Ok?
  {
    var targets := NormalizeTargets(env.notation, q.values).value;
    && (forall v :: v in q.values ==> Expandable(env.notation, q.grant, resolver, now, env.notation.parse(v).value))
    && RequestFits(q, Sum(targets, (t: Target) => Addresses(env.notation, resolver, t)))
    && (RequestedDigest(env, q).Some? ==> Udp in q.transports)
  }

  // --- resolution and the host count -----------------------------------------------------------------

  predicate NameResolves(n: Notation, g: Grant, resolver: Resolver, now: int, t: Target) {
    t.HostTarget? ==> ResolveForPlan(n, g, t.name, resolver, now).Ok?
  }

  lemma {:induction false} ResolvesAllExactly(n: Notation, g: Grant, targets: seq<Target>, resolver: Resolver, now: int)
    ensures ResolveAll(n, g, targets, resolver, now).Ok? <==> forall t :: t in targets ==> NameResolves(n, g, resolver, now, t)
  {
    hide ResolveForPlan;
    if targets != [] {
      var front, last := targets[..|targets| - 1], targets[|targets| - 1];
      ResolvesAllExactly(n, g, front, resolver, now);
      assert targets == front + [last];
      assert last in targets;
    }
  }

  /** Networks that can be counted. */
  predicate Countable(t: Target) {
    t.NetworkTarget? ==> t.network.version == V4 || t.network.prefix >= 128
  }

  predicate SnapsAs(n: Notation, snaps: Snapshots, targets: seq<Target>, resolver: Resolver) {
    forall t :: t in targets && t.HostTarget? ==>
      t.name in snaps && Resolved(n, resolver(t.name)).Ok? && snaps[t.name] == Resolved(n, resolver(t.name)).value
  }

  lemma CountExactly(n: Notation, snaps: Snapshots, resolver: Resolver, t: Target)
    requires t.HostTarget? ==>
               t.name in snaps && Resolved(n, resolver(t.name)).Ok? && snaps[t.name] == Resolved(n, resolver(t.name)).value
    ensures Count(snaps, t).Ok? <==> Countable(t)
    ensures Count(snaps, t).Ok? ==> Count(snaps, t).value == Addresses(n, resolver, t)
  {
    hide Resolved, Hosts, Size;
    if t.NetworkTarget? {
      HostCountMatchesHosts(t.network);
    }
  }

  lemma {:induction false} HostTotalExactly(n: Notation, snaps: Snapshots, targets: seq<Target>, resolver: Resolver)
    requires Covers(snaps, targets) && SnapsAs(n, snaps, targets, resolver)
    ensures var f := (t: Target) => Addresses(n, resolver, t);
            && (HostTotal(snaps, targets).Ok? <==>
                  (forall t :: t in targets ==> Countable(t)) && Sum(targets, f) <= ABSOLUTE_CEILINGS.maxHosts)
            && (HostTotal(snaps, targets).Ok? ==> HostTotal(snaps, targets).value == Sum(targets, f))
  {
    hide Count, Addresses, Countable, Resolved;
    if targets != [] {
      var front, last := targets[..|targets| - 1], targets[|targets| - 1];
      assert targets == front + [last];
      HostTotalExactly(n, snaps, front, resolver);
      CountExactly(n, snaps, resolver, last);
      assert last in targets;
    }
  }

  // --- every place can be written ---------------------------------------------------------------------

  /** Each host of the network may be named alone. */
  predicate Nameable(t: Target) {
    t.NetworkTarget? ==> forall i :: 0 <= i < |Hosts(t.network)| ==> DestinationAllowed(AddressTarget(Hosts(t.network)[i], None))
  }

  predicate AllParse(n: Notation, places: seq<Place>) {
    forall i :: 0 <= i < |places| ==> n.parse(places[i].address).Some?
  }

  lemma {:induction false} CompilesAll(n: Notation, shape: Shape, places: seq<Place>)
    ensures CompileSteps(n, shape, places).Ok? <==> AllParse(n, places)
  {
    hide OverPorts;
    if places != [] {
      CompilesAll(n, shape, places[..|places| - 1]);
      assert places == places[..|places| - 1] + [places[|places| - 1]];
    }
  }

  lemma PlacesOfParse(n: Notation, snaps: Snapshots, t: Target, resolver: Resolver)
    requires Faithful(n) && n.parse(n.spell(t)) == Some(t)
    requires t.HostTarget? ==>
               t.name in snaps && Resolved(n, resolver(t.name)).Ok? && snaps[t.name] == Resolved(n, resolver(t.name)).value
    ensures AllParse(n, PlacesOf(n, snaps, t)) <==> Nameable(t)
  {
    hide Hosts, DestinationAllowed, Resolved;
    match t
    case AddressTarget(_, _) =>
    case HostTarget(name) =>
      ResolvedEndpoints(n, resolver(name));
      hide Faithful, EndpointLess;
      assert forall i :: 0 <= i < |snaps[name]| ==> PlacesOf(n, snaps, t)[i].address == n.spell(AsTarget(snaps[name][i]));
    case NetworkTarget(network) =>
      var hosts, places := Hosts(network), PlacesOf(n, snaps, t);
      forall i | 0 <= i < |hosts|
        ensures n.parse(places[i].address).Some? <==> DestinationAllowed(AddressTarget(hosts[i], None))
      {
        assert places[i].address == n.spell(AddressTarget(hosts[i], None));
      }
  }

  lemma {:induction false} PlacesParse(n: Notation, snaps: Snapshots, targets: seq<Target>, resolver: Resolver)
    requires Faithful(n) && Covers(snaps, targets) && SnapsAs(n, snaps, targets, resolver)
    requires forall t :: t in targets ==> n.parse(n.spell(t)) == Some(t)
    ensures AllParse(n, Places(n, snaps, targets)) <==> forall t :: t in targets ==> Nameable(t)
  {
    hide PlacesOf, Nameable, Faithful, Resolved;
    if targets != [] {
      var front, last := targets[..|targets| - 1], targets[|targets| - 1];
      assert targets == front + [last];
      PlacesParse(n, snaps, front, resolver);
      PlacesOfParse(n, snaps, last, resolver);
      JoinParse(n, Places(n, snaps, front), PlacesOf(n, snaps, last));
      assert last in targets;
    }
  }

  lemma JoinParse(n: Notation, a: seq<Place>, b: seq<Place>)
    ensures AllParse(n, a + b) <==> AllParse(n, a) && AllParse(n, b)
  {
    if AllParse(n, a + b) {
      assert forall i :: 0 <= i < |a| ==> (a + b)[i] == a[i];
      assert forall i :: 0 <= i < |b| ==> (a + b)[|a| + i] == b[i];
    }
  }

  // --- the sums of a plan ---------------------------------------------------------------------------

  function Lines(shape: Shape, hosts: nat): nat {
    hosts * (|shape.ports| * shape.repeats)
  }

  function Flag(transport: Transport, transports: seq<Transport>): nat {
    if transport in transports then 1 else 0
  }

  lemma Regroup(h: nat, p: nat, r: nat, x: nat)
    ensures h * (p * (r * x)) == h * (p * r) * x
  {
    Associate3(p, r, x);
    Associate3(h, p * r, x);
  }

  lemma Associate3(a: nat, b: nat, c: nat)
    ensures a * (b * c) == a * b * c
  {
  }

  /** Any measure by transport adds up to this for each address, port and repeat. */
  lemma {:induction false} MeasureTotal(n: Notation, shape: Shape, places: seq<Place>, f: ProbeStep -> nat, c: Transport -> nat)
    requires CompileSteps(n, shape, places).Ok? && ByTransport(n, shape, f, c)
    requires shape.transports == InTextOrder(Elements(shape.transports)) && Sctp !in shape.transports
    ensures Sum(CompileSteps(n, shape, places).value, f)
         == Lines(shape, |places|) * (Flag(Tcp, shape.transports) * c(Tcp) + Flag(Udp, shape.transports) * c(Udp))
  {
    hide CompileSteps, Sum, InTextOrder, ByTransport;
    StepsSum(n, shape, places, f, c);
    OverBoth(shape.transports, c);
    Regroup(|places|, |shape.ports|, shape.repeats, Sum(shape.transports, c));
  }

  lemma {:induction false} StepsTotal(n: Notation, shape: Shape, places: seq<Place>)
    requires CompileSteps(n, shape, places).Ok?
    requires shape.transports == InTextOrder(Elements(shape.transports)) && Sctp !in shape.transports
    ensures |CompileSteps(n, shape, places).value|
         == Lines(shape, |places|) * (Flag(Tcp, shape.transports) + Flag(Udp, shape.transports))
  {
    hide CompileSteps, Sum, InTextOrder, Lines, StepFor;
    MeasureTotal(n, shape, places, (s: ProbeStep) => 1, (x: Transport) => 1);
    CountSum(CompileSteps(n, shape, places).value);
  }

  lemma {:induction false} DatagramsTotal(n: Notation, shape: Shape, places: seq<Place>)
    requires CompileSteps(n, shape, places).Ok?
    requires shape.transports == InTextOrder(Elements(shape.transports)) && Sctp !in shape.transports
    ensures Datagrams(CompileSteps(n, shape, places).value)
         == Lines(shape, |places|) * (Flag(Udp, shape.transports) * shape.datagrams)
  {
    hide CompileSteps, Sum, InTextOrder, Lines, Identify;
    var c := (x: Transport) => Cost(shape, x).datagrams;
    MeasureTotal(n, shape, places, (s: ProbeStep) => s.fields.cost.datagrams, c);
    assert c(Tcp) == 0 && c(Udp) == shape.datagrams;
  }

  lemma {:induction false} PacketsTotal(n: Notation, shape: Shape, places: seq<Place>)
    requires CompileSteps(n, shape, places).Ok?
    requires shape.transports == InTextOrder(Elements(shape.transports)) && Sctp !in shape.transports
    ensures Packets(CompileSteps(n, shape, places).value)
         == Lines(shape, |places|) * (Flag(Tcp, shape.transports) + Flag(Udp, shape.transports) * shape.datagrams)
  {
    hide CompileSteps, Sum, InTextOrder, Lines, Identify;
    var c := (x: Transport) => Cost(shape, x).packets;
    MeasureTotal(n, shape, places, (s: ProbeStep) => s.fields.cost.packets, c);
    assert c(Tcp) == 1 && c(Udp) == shape.datagrams;
  }

  lemma {:induction false} BytesTotal(n: Notation, shape: Shape, places: seq<Place>)
    requires CompileSteps(n, shape, places).Ok?
    requires shape.transports == InTextOrder(Elements(shape.transports)) && Sctp !in shape.transports
    ensures ApplicationBytes(CompileSteps(n, shape, places).value)
         == Lines(shape, |places|) * (shape.payload.length * (Flag(Tcp, shape.transports) + Flag(Udp, shape.transports) * shape.datagrams))
  {
    hide CompileSteps, Sum, InTextOrder, Lines, Identify, Flag;
    var c := (x: Transport) => Cost(shape, x).applicationBytes;
    MeasureTotal(n, shape, places, (s: ProbeStep) => s.fields.cost.applicationBytes, c);
    assert c(Tcp) == shape.payload.length && c(Udp) == shape.payload.length * shape.datagrams;
    Factor(Flag(Tcp, shape.transports), Flag(Udp, shape.transports), shape.payload.length, shape.datagrams);
  }

  lemma Factor(tcp: nat, udp: nat, length: nat, datagrams: nat)
    ensures tcp * length + udp * (length * datagrams) == length * (tcp + udp * datagrams)
  {
    assert udp * (length * datagrams) == length * (udp * datagrams) by {
      Associate3(udp, length, datagrams);
      Associate3(length, udp, datagrams);
    }
    Distribute(length, tcp, udp * datagrams);
  }

  lemma {:induction false} CountSum<T>(s: seq<T>)
    ensures Sum(s, (x: T) => 1) == |s|
  {
    if s != [] {
      CountSum(s[..|s| - 1]);
    }
  }

  // --- which requests are published -----------------------------------------------------------------

  /** What building a plan checks, once its request is read and its names resolved. */
  lemma {:induction false} BuildsExactly(n: Notation, shape: Shape, snaps: Snapshots, now: int)
    requires Covers(snaps, shape.targets)
    ensures Build(n, shape, snaps, now).Ok? <==>
              && HostTotal(snaps, shape.targets).Ok?
              && Checked([HostTotal(snaps, shape.targets).value, |shape.ports|, |shape.transports|, shape.repeats],
                         ABSOLUTE_CEILINGS.maxAttempts).Some?
              && CompileSteps(n, shape, Places(n, snaps, shape.targets)).Ok?
              && var hosts, steps := HostTotal(snaps, shape.targets).value, CompileSteps(n, shape, Places(n, snaps, shape.targets)).value;
                 && Datagrams(steps) <= 200_000 && ApplicationBytes(steps) <= 67_108_864
                 && EstimateWithin(EstimateOf(shape, hosts, steps), shape.limits)
                 && (shape.payload.sha256.Some? ==> Udp in shape.transports)
  {
    hide Checked, EstimateWithin, CompileSteps, Places, HostTotal, HostResolutions, Confirmations, Undated, Datagrams, ApplicationBytes,
         Packets, EstimateOf, Publish;
    if HostTotal(snaps, shape.targets).Ok? && CompileSteps(n, shape, Places(n, snaps, shape.targets)).Ok? {
      CountIsExact(n, shape, snaps);
    }
  }

  /** The same in closed form. */
  predicate ShapeFits(shape: Shape, hosts: nat) {
    var l, lines := shape.limits, Lines(shape, hosts);
    var udp, tcp := Flag(Udp, shape.transports), Flag(Tcp, shape.transports);
    && hosts <= l.maxHosts && |shape.ports| <= l.maxPorts
    && lines * (tcp + udp) <= l.maxAttempts && lines * (udp * shape.datagrams) <= l.maxDatagrams
    && lines * (tcp + udp * shape.datagrams) <= l.maxPackets
    && lines * (shape.payload.length * (tcp + udp * shape.datagrams)) <= l.maxApplicationBytes
    && lines * (tcp + udp) + 5 <= l.maxEvents && lines * (tcp + udp) * 512 + 4_096 <= l.maxOutputBytes
  }

  lemma {:induction false} EstimateFits(n: Notation, shape: Shape, places: seq<Place>)
    requires CompileSteps(n, shape, places).Ok?
    requires shape.transports == InTextOrder(Elements(shape.transports)) && Sctp !in shape.transports
    ensures EstimateWithin(EstimateOf(shape, |places|, CompileSteps(n, shape, places).value), shape.limits)
            <==> ShapeFits(shape, |places|)
  {
    StepsTotal(n, shape, places);
    DatagramsTotal(n, shape, places);
    PacketsTotal(n, shape, places);
    BytesTotal(n, shape, places);
    hide CompileSteps, InTextOrder, Lines, Flag, Datagrams, Packets, ApplicationBytes;
  }

  /** The checked product refuses nothing that the limits allow. */
  lemma ProductFits(shape: Shape, hosts: nat)
    requires ShapeFits(shape, hosts) && LimitsWithin(shape.limits, ABSOLUTE_CEILINGS)
    requires shape.transports == InTextOrder(Elements(shape.transports)) && Sctp !in shape.transports
    requires |shape.ports| > 0 && |shape.transports| > 0 && shape.repeats > 0
    ensures Checked([hosts, |shape.ports|, |shape.transports|, shape.repeats], ABSOLUTE_CEILINGS.maxAttempts).Some?
  {
    var h, p, t, r := hosts, |shape.ports|, |shape.transports|, shape.repeats;
    CheckedExact([h, p, t, r], ABSOLUTE_CEILINGS.maxAttempts);
    FlagsCount(shape.transports);
    hide InTextOrder, Checked;
    if h > 0 {
      ProductOfFour(h, p, t, r);
      Reorder(h, p, t, r);
    } else {
      ZeroLeads(p, t, r);
    }
  }

  lemma FlagsCount(transports: seq<Transport>)
    requires transports == InTextOrder(Elements(transports)) && Sctp !in transports
    ensures Flag(Tcp, transports) + Flag(Udp, transports) == |transports|
  {
    OverBoth(transports, (x: Transport) => 1);
    CountSum(transports);
  }

  lemma Reorder(h: nat, p: nat, t: nat, r: nat)
    ensures h * p * t * r == h * (p * r) * t
  {
    Associate3(h, p, r);
    assert h * p * t * r == h * p * r * t by {
      Associate3(h * p, t, r);
      Associate3(h * p, r, t);
    }
  }

  lemma ZeroLeads(p: nat, t: nat, r: nat)
    ensures Leading([0, p, t, r]) == 1
  {
    assert [0, p, t, r][..3] == [0, p, t] && [0, p, t][..2] == [0, p] && [0, p][..1] == [0] && [0][..0] == [];
    assert 0 in [0] && 0 in [0, p] && 0 in [0, p, t];
    assert Leading([0]) == 1 && Leading([0, p]) == 1 && Leading([0, p, t]) == 1;
  }

  lemma {:induction false} FitsExactly(n: Notation, shape: Shape, snaps: Snapshots, now: int)
    requires Covers(snaps, shape.targets) && HostTotal(snaps, shape.targets).Ok?
    requires CompileSteps(n, shape, Places(n, snaps, shape.targets)).Ok?
    requires LimitsWithin(shape.limits, ABSOLUTE_CEILINGS)
    requires shape.transports == InTextOrder(Elements(shape.transports)) && Sctp !in shape.transports
    requires |shape.ports| > 0 && |shape.transports| > 0 && shape.repeats > 0
    ensures Build(n, shape, snaps, now).Ok?
            <==> ShapeFits(shape, HostTotal(snaps, shape.targets).value) && (shape.payload.sha256.Some? ==> Udp in shape.transports)
  {
    hide Build, CompileSteps, HostTotal, Places, InTextOrder, ShapeFits, EstimateWithin, EstimateOf, Checked, Datagrams, ApplicationBytes;
    BuildsExactly(n, shape, snaps, now);
    PlacesCount(n, snaps, shape.targets);
    var places := Places(n, snaps, shape.targets);
    EstimateFits(n, shape, places);
    if ShapeFits(shape, |places|) {
      ProductFits(shape, |places|);
      SumsWithin(shape, |places|, CompileSteps(n, shape, places).value);
    }
  }

  lemma SumsWithin(shape: Shape, hosts: nat, steps: seq<ProbeStep>)
    requires EstimateWithin(EstimateOf(shape, hosts, steps), shape.limits) && LimitsWithin(shape.limits, ABSOLUTE_CEILINGS)
    ensures Datagrams(steps) <= 200_000 && ApplicationBytes(steps) <= 67_108_864
  {
    hide Datagrams, ApplicationBytes, Packets;
  }

  // --- and the request ---------------------------------------------------------------------------------

  lemma AskedCount(asked: seq<int>, ports: seq<nat>)
    requires Distinct(ports) && forall port: int :: port in asked <==> port >= 0 && port in ports
    ensures |Asked(asked)| == |ports|
  {
    var all := seq(|ports|, i requires 0 <= i < |ports| => ports[i] as int);
    assert Distinct(all);
    DistinctCount(all);
    forall port: int ensures port in Elements(all) <==> port in Asked(asked) {
      if port in Elements(all) {
        var i :| 0 <= i < |all| && all[i] == port;
        assert ports[i] in ports;
      }
      if port in Asked(asked) {
        var i :| 0 <= i < |ports| && ports[i] == port;
        assert all[i] == port;
      }
    }
    assert Elements(all) == Asked(asked);
  }

  /** What the request asks for is what the shape has. */
  lemma SameFit(env: Environment, q: Request, shape: Shape, hosts: nat)
    requires ReadAs(env, q, shape) && Distinct(shape.ports)
    ensures q.datagrams >= 0 && q.repeats >= 0 && RequestedLength(q) >= 0
    ensures RequestFits(q, hosts) <==> ShapeFits(shape, hosts)
  {
    AskedCount(q.ports, shape.ports);
    assert (Udp in q.transports <==> Udp in shape.transports) && (Tcp in q.transports <==> Tcp in shape.transports);
    hide Asked, RequestedLength, RequestedDigest;
  }

  /** Targets one by one: what resolution, counting and naming ask of them. */
  lemma TargetExpandable(n: Notation, g: Grant, resolver: Resolver, now: int, t: Target)
    requires g.expiresAt.None? || now < g.expiresAt.value
    ensures NameResolves(n, g, resolver, now, t) && Countable(t) && Nameable(t) <==> Expandable(n, g, resolver, now, t)
  {
    hide Resolved, Answerable, Hosts, DestinationAllowed;
    if t.HostTarget? {
      ResolvesExactly(n, g, t.name, resolver, now);
    }
    hide ResolveForPlan;
  }

  lemma {:induction false} ExpandableValues(env: Environment, q: Request, resolver: Resolver, now: int, targets: seq<Target>)
    requires q.grant.expiresAt.None? || now < q.grant.expiresAt.value
    requires forall v :: v in q.values ==> env.notation.parse(v).Some?
    requires forall t :: t in targets <==> exists v :: v in q.values && env.notation.parse(v) == Some(t)
    ensures var n := env.notation;
            (forall v :: v in q.values ==> Expandable(n, q.grant, resolver, now, n.parse(v).value))
            <==> (forall t :: t in targets ==> NameResolves(n, q.grant, resolver, now, t))
                 && (forall t :: t in targets ==> Countable(t)) && (forall t :: t in targets ==> Nameable(t))
  {
    hide Expandable, NameResolves, Countable, Nameable;
    var n := env.notation;
    forall t ensures NameResolves(n, q.grant, resolver, now, t) && Countable(t) && Nameable(t) <==> Expandable(n, q.grant, resolver, now, t) {
      TargetExpandable(n, q.grant, resolver, now, t);
    }
    forall v | v in q.values ensures n.parse(v).value in targets {
      assert n.parse(v) == Some(n.parse(v).value);
    }
  }

  lemma {:induction false} SnapsResolved(n: Notation, g: Grant, targets: seq<Target>, resolver: Resolver, now: int)
    requires Faithful(n) && ResolveAll(n, g, targets, resolver, now).Ok?
    ensures SnapsAs(n, ResolveAll(n, g, targets, resolver, now).value, targets, resolver)
  {
    hide Faithful, Resolved, ResolveAll, ResolveForPlan, SnapshotsFaithful;
    ResolveAllFaithful(n, g, targets, resolver, now);
    var snaps := ResolveAll(n, g, targets, resolver, now).value;
    forall t | t in targets && t.HostTarget?
      ensures t.name in snaps && Resolved(n, resolver(t.name)).Ok? && snaps[t.name] == Resolved(n, resolver(t.name)).value
    {
      ResolvesExactly(n, g, t.name, resolver, now);
    }
  }

  /** Everything after reading, for the targets of an acceptable request. */
  lemma {:induction false} BuiltExactly(env: Environment, q: Request, resolver: Resolver, now: int, shape: Shape)
    requires Sound(env) && ReadRequest(env, q, now) == Ok(shape) && ReadAs(env, q, shape)
    ensures var n, resolved := env.notation, ResolveAll(env.notation, shape.grant, shape.targets, resolver, now);
            var hosts := Sum(shape.targets, (t: Target) => Addresses(n, resolver, t));
            resolved.Ok? ==>
              (Build(n, shape, resolved.value, now).Ok? <==>
                 && (forall t :: t in shape.targets ==> Countable(t)) && (forall t :: t in shape.targets ==> Nameable(t))
                 && ShapeFits(shape, hosts) && (shape.payload.sha256.Some? ==> Udp in shape.transports))
  {
    var n, resolved := env.notation, ResolveAll(env.notation, shape.grant, shape.targets, resolver, now);
    SoundIsFaithful(env);
    ShapeFacts(env, q, now);
    RequestReadExactly(env, q, now);
    hide Sound, ReadRequest, ReadAs, Build, ResolveAll, CompileSteps, HostTotal, Places, InTextOrder, ShapeFits, Countable, Nameable,
         AllAuthorized, Spelled, PortLess, TextLess, Addresses, SnapsAs, Faithful, AllParse, LimitsWithin, PayloadAcceptable;
    if resolved.Ok? {
      var snaps := resolved.value;
      SnapsResolved(n, shape.grant, shape.targets, resolver, now);
      HostTotalExactly(n, snaps, shape.targets, resolver);
      TargetsParseBack(n, shape.targets);
      PlacesParse(n, snaps, shape.targets, resolver);
      CompilesAll(n, shape, Places(n, snaps, shape.targets));
      BuildsExactly(n, shape, snaps, now);
      FewHosts(shape, Sum(shape.targets, (t: Target) => Addresses(n, resolver, t)));
      if HostTotal(snaps, shape.targets).Ok? && CompileSteps(n, shape, Places(n, snaps, shape.targets)).Ok? {
        FitsExactly(n, shape, snaps, now);
      }
    }
  }

  lemma TargetsParseBack(n: Notation, targets: seq<Target>)
    requires TargetsFaithful(n, targets)
    ensures forall t :: t in targets ==> n.parse(n.spell(t)) == Some(t)
  {
    hide DestinationAllowed;
  }

  lemma FewHosts(shape: Shape, hosts: nat)
    requires LimitsWithin(shape.limits, ABSOLUTE_CEILINGS)
    ensures ShapeFits(shape, hosts) ==> hosts <= ABSOLUTE_CEILINGS.maxHosts
  {
    hide Lines, Flag;
  }

  /** A Cartesian request is published exactly when it is acceptable, every target can be
      expanded, the work fits its limits, and a digest-bound payload has UDP to go over. */
  lemma {:induction false} PublishedExactly(env: Environment, q: Request, resolver: Resolver, now: int)
    requires Sound(env)
    ensures RequestAcceptable(env, q, now) ==> NormalizeTargets(env.notation, q.values).Ok?
    ensures PreviewPlan(env, q, resolver, now).Ok? <==> RequestAcceptable(env, q, now) && Publishable(env, q, resolver, now)
  {
    RequestReadExactly(env, q, now);
    ReadParts(env, q, now);
    hide Sound, ReadRequest, ResolveAll, Build, NormalizeTargets, PayloadAcceptable, LimitsWithin, TargetPermitted, PortsOf, TransportsOf,
         PayloadOf, AllAuthorized, StepsPermitted, RequestFits, ShapeFits, Expandable, NameResolves, Countable, Nameable, ReadAs;
    if ReadRequest(env, q, now).Ok? {
      var n, shape := env.notation, ReadRequest(env, q, now).value;
      BuiltExactly(env, q, resolver, now, shape);
      ResolvesAllExactly(n, shape.grant, shape.targets, resolver, now);
      ShapeParts(env, q, shape, now);
      ExpandableValues(env, q, resolver, now, shape.targets);
      SameFit(env, q, shape, Sum(shape.targets, (t: Target) => Addresses(n, resolver, t)));
    }
  }

  lemma ShapeParts(env: Environment, q: Request, shape: Shape, now: int)
    requires Sound(env) && ReadRequest(env, q, now) == Ok(shape) && ReadAs(env, q, shape)
    ensures shape.grant == q.grant && Distinct(shape.ports)
    ensures shape.payload.sha256 == RequestedDigest(env, q) && (Udp in shape.transports <==> Udp in q.transports)
    ensures forall t :: t in shape.targets <==> exists v :: v in q.values && env.notation.parse(v) == Some(t)
  {
    ShapeFacts(env, q, now);
    hide Sound, ReadRequest, RequestedLength, RequestedDigest, AllAuthorized;
  }

  // --- resolutions and estimate of a published plan -----------------------------------------------

  /** One snapshot for each hostname among the targets, each once, with the canonical answer
      of the resolver and the time of the plan. */
  predicate ShowsAnswers(n: Notation, targets: seq<Target>, resolutions: seq<Resolution>, resolver: Resolver, now: int) {
    && (forall i, j :: 0 <= i < j < |resolutions| ==> resolutions[i].hostname != resolutions[j].hostname)
    && (forall k :: 0 <= k < |resolutions| ==>
          var r := resolutions[k];
          && HostTarget(r.hostname) in targets && r.resolvedAt == now
          && Resolved(n, resolver(r.hostname)).Ok? && r.addresses == Texts(n, Resolved(n, resolver(r.hostname)).value))
    && (forall t :: t in targets && t.HostTarget? ==> HasSnapshot(resolutions, t.name))
  }

  predicate HasSnapshot(resolutions: seq<Resolution>, name: string) {
    exists k :: 0 <= k < |resolutions| && resolutions[k].hostname == name
  }

  lemma {:induction false} AnswersShown(n: Notation, snaps: Snapshots, targets: seq<Target>, resolver: Resolver, now: int)
    requires Covers(snaps, targets) && SnapsAs(n, snaps, targets, resolver) && Distinct(targets)
    ensures ShowsAnswers(n, targets, HostResolutions(n, snaps, targets, now), resolver, now)
  {
    hide Resolved, Texts;
    if targets != [] {
      var front, last := targets[..|targets| - 1], targets[|targets| - 1];
      assert targets == front + [last];
      AnswersShown(n, snaps, front, resolver, now);
      var before := HostResolutions(n, snaps, front, now);
      if last.HostTarget? {
        assert last !in front;
        OneMoreSnapshot(n, front, last.name, before, Resolution(last.name, Texts(n, snaps[last.name]), now), resolver, now);
      } else {
        assert before + [] == before;
        PlainTarget(n, front, last, before, resolver, now);
      }
    }
  }

  lemma PlainTarget(n: Notation, front: seq<Target>, last: Target, before: seq<Resolution>, resolver: Resolver, now: int)
    requires ShowsAnswers(n, front, before, resolver, now) && !last.HostTarget?
    ensures ShowsAnswers(n, front + [last], before, resolver, now)
  {
    hide Resolved, Texts, HasSnapshot;
  }

  lemma OneMoreSnapshot(
    n: Notation, front: seq<Target>, name: string, before: seq<Resolution>, added: Resolution, resolver: Resolver, now: int)
    requires ShowsAnswers(n, front, before, resolver, now) && HostTarget(name) !in front
    requires added.hostname == name && added.resolvedAt == now && Resolved(n, resolver(name)).Ok?
    requires added.addresses == Texts(n, Resolved(n, resolver(name)).value)
    ensures ShowsAnswers(n, front + [HostTarget(name)], before + [added], resolver, now)
  {
    hide Resolved, Texts;
    var all := before + [added];
    assert all[|before|] == added;
    assert forall k :: 0 <= k < |before| ==> all[k] == before[k];
    forall t | t in front + [HostTarget(name)] && t.HostTarget? ensures HasSnapshot(all, t.name) {
      if t in front {
        var k :| 0 <= k < |before| && before[k].hostname == t.name;
        assert all[k].hostname == t.name;
      }
    }
  }

  /** A published Cartesian plan shows what the resolver answered, and the estimate that its
      steps and limits give. */
  lemma {:induction false} PublishedAsResolved(env: Environment, q: Request, resolver: Resolver, now: int)
    requires Sound(env) && PreviewPlan(env, q, resolver, now).Ok?
    ensures var n, p, l := env.notation, PreviewPlan(env, q, resolver, now).value, q.limits;
            && ShowsAnswers(n, p.targets, p.resolutions, resolver, now)
            && p.estimate
               == Estimate(Sum(p.targets, (t: Target) => Addresses(n, resolver, t)), |p.ports|, |p.steps|, Datagrams(p.steps),
                           ApplicationBytes(p.steps), Least(l.maxConcurrency, |p.steps|), l.maxDuration, |p.steps| + 5,
                           |p.steps| * 512 + 4_096, l.maxGlobalRate, l.maxTargetRate, Packets(p.steps))
  {
    CartesianParts(env, q, resolver, now);
    ShapeFacts(env, q, now);
    SoundIsFaithful(env);
    hide Sound, PreviewPlan, ReadRequest, ResolveAll, Build, CompileSteps, Places, HostResolutions, SnapshotsFaithful, HostTotal, Undated,
         Confirmations, Datagrams, ApplicationBytes, Packets, AllAuthorized, Spelled, TextLess, PortLess, InTextOrder, SnapsAs, ShowsAnswers,
         Faithful, LimitsWithin, Addresses, Sum, Ascending;
    var n, shape := env.notation, ReadRequest(env, q, now).value;
    var snaps := ResolveAll(n, shape.grant, shape.targets, resolver, now).value;
    SnapsResolved(n, shape.grant, shape.targets, resolver, now);
    AnswersShown(n, snaps, shape.targets, resolver, now);
    BuildParts(n, shape, snaps, now);
    HostTotalExactly(n, snaps, shape.targets, resolver);
  }
}
