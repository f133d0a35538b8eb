/** Cartesian compilation is exact, distinct and contained. */
module CartesianTheorems {
  import opened Outcomes
  import opened Collections
  import opened Networks
  import opened Plans
  import opened Policy
  import opened Cartesian

  // --- exact count -----------------------------------------------------------------------

  lemma {:induction false} AttemptsCount(
    n: Notation, shape: Shape, place: Place, address: Target, port: nat, transport: Transport, k: nat)
    ensures |Attempts(n, shape, place, address, port, transport, k)| == k
  {
    hide StepFor;
    if k > 0 {
      AttemptsCount(n, shape, place, address, port, transport, k - 1);
    }
  }

  lemma {:induction false} TransportsCount(
    n: Notation, shape: Shape, place: Place, address: Target, port: nat, transports: seq<Transport>)
    ensures |OverTransports(n, shape, place, address, port, transports)| == |transports| * shape.repeats
  {
    hide Attempts;
    if transports != [] {
      TransportsCount(n, shape, place, address, port, transports[..|transports| - 1]);
      AttemptsCount(n, shape, place, address, port, transports[|transports| - 1], shape.repeats);
      assert |transports| * shape.repeats == (|transports| - 1) * shape.repeats + shape.repeats;
    }
  }

  lemma {:induction false} PortsCount(n: Notation, shape: Shape, place: Place, address: Target, ports: seq<nat>)
    ensures |OverPorts(n, shape, place, address, ports)| == |ports| * (|shape.transports| * shape.repeats)
  {
    hide OverTransports;
    var each := |shape.transports| * shape.repeats;
    if ports != [] {
      PortsCount(n, shape, place, address, ports[..|ports| - 1]);
      TransportsCount(n, shape, place, address, ports[|ports| - 1], shape.transports);
      assert |ports| * each == (|ports| - 1) * each + each;
    }
  }

  lemma {:induction false} StepsCount(n: Notation, shape: Shape, places: seq<Place>)
    requires CompileSteps(n, shape, places).Ok?
    ensures |CompileSteps(n, shape, places).value| == |places| * (|shape.ports| * (|shape.transports| * shape.repeats))
  {
    hide OverPorts;
    var each := |shape.ports| * (|shape.transports| * shape.repeats);
    if places != [] {
      var last := places[|places| - 1];
      StepsCount(n, shape, places[..|places| - 1]);
      PortsCount(n, shape, last, n.parse(last.address).value, shape.ports);
      assert |places| * each == (|places| - 1) * each + each;
    }
  }

  lemma {:induction false} PlacesCount(n: Notation, snaps: Snapshots, targets: seq<Target>)
    requires Covers(snaps, targets) && HostTotal(snaps, targets).Ok?
    ensures |Places(n, snaps, targets)| == HostTotal(snaps, targets).value
  {
    hide Hosts, HostCount;
    if targets != [] {
      var t := targets[|targets| - 1];
      PlacesCount(n, snaps, targets[..|targets| - 1]);
      if t.NetworkTarget? {
        HostCountMatchesHosts(t.network);
      }
    }
  }

  /** The compiled steps number hosts * ports * transports * repeats: the source's guard
      for a mismatch with the reserved attempts can never fire. */
  lemma {:induction false} CountIsExact(n: Notation, shape: Shape, snaps: Snapshots)
    requires Covers(snaps, shape.targets) && HostTotal(snaps, shape.targets).Ok?
    requires CompileSteps(n, shape, Places(n, snaps, shape.targets)).Ok?
    ensures var hosts := HostTotal(snaps, shape.targets).value;
            var steps := CompileSteps(n, shape, Places(n, snaps, shape.targets)).value;
            && |steps| == hosts * |shape.ports| * |shape.transports| * shape.repeats
            && |steps| == Product([hosts, |shape.ports|, |shape.transports|, shape.repeats])
            && (Checked([hosts, |shape.ports|, |shape.transports|, shape.repeats], ABSOLUTE_CEILINGS.maxAttempts).Some? ==>
                  Checked([hosts, |shape.ports|, |shape.transports|, shape.repeats], ABSOLUTE_CEILINGS.maxAttempts).value == |steps|)
  {
    PlacesCount(n, snaps, shape.targets);
    StepsCount(n, shape, Places(n, snaps, shape.targets));
    var h, p, t, r := HostTotal(snaps, shape.targets).value, |shape.ports|, |shape.transports|, shape.repeats;
    hide CompileSteps, Places, HostTotal, Checked;
    assert h * (p * (t * r)) == h * p * t * r by { Associate(h, p, t, r); }
    ProductOfFour(h, p, t, r);
    CheckedExact([h, p, t, r], ABSOLUTE_CEILINGS.maxAttempts);
  }

  lemma Associate(h: nat, p: nat, t: nat, r: nat)
    ensures h * (p * (t * r)) == h * p * t * r
  {
    var x := p * t;
    assert p * (t * r) == x * r;
    assert h * (x * r) == (h * x) * r;
    assert h * x == h * p * t;
  }

  lemma ProductOfFour(a: int, b: int, c: int, d: int)
    ensures Product([a, b, c, d]) == a * b * c * d
  {
    assert [a, b, c, d][..3] == [a, b, c] && [a, b, c][..2] == [a, b] && [a, b][..1] == [a] && [a][..0] == [];
    assert Product([a]) == a && Product([a, b]) == a * b && Product([a, b, c]) == a * b * c;
  }

  // --- distinct steps ------------------------------------------------------------------------

  lemma DistinctJoin(a: seq<ProbeStep>, b: seq<ProbeStep>)
    requires DistinctIds(a) && DistinctIds(b)
    requires forall x, y :: x in a && y in b ==> x.id != y.id
    ensures DistinctIds(a + b)
  {
    forall i, j | 0 <= i < j < |a + b| ensures (a + b)[i].id != (a + b)[j].id {
      if i < |a| <= j {
        assert a[i] in a && b[j - |a|] in b;
      }
    }
  }

  /** What a step of one place, port and transport shows of them in its identity. */
  predicate StepOf(n: Notation, place: Place, address: Target, s: ProbeStep) {
    && s.id == Identify(s.fields)
    && s.fields.target == n.spell(place.target) && s.fields.address == Some(n.spell(address))
    && s.fields.sourceHostname == place.source && s.fields.slot == place.slot
  }

  lemma {:induction false} AttemptsDistinct(
    n: Notation, shape: Shape, place: Place, address: Target, port: nat, transport: Transport, k: nat)
    ensures var steps := Attempts(n, shape, place, address, port, transport, k);
            && DistinctIds(steps)
            && (forall s :: s in steps ==> StepOf(n, place, address, s) && s.fields.port == Some(port)
                                           && s.fields.transport == Some(transport) && 1 <= s.fields.attempt <= k)
  {
    if k > 0 {
      AttemptsDistinct(n, shape, place, address, port, transport, k - 1);
      var last := StepFor(n, shape, place, address, port, transport, k);
      assert StepOf(n, place, address, last) && last.fields.attempt == k;
      DistinctJoin(Attempts(n, shape, place, address, port, transport, k - 1), [last]);
    }
  }

  lemma {:induction false} TransportsDistinct(
    n: Notation, shape: Shape, place: Place, address: Target, port: nat, transports: seq<Transport>)
    requires Distinct(transports)
    ensures var steps := OverTransports(n, shape, place, address, port, transports);
            && DistinctIds(steps)
            && (forall s :: s in steps ==> StepOf(n, place, address, s) && s.fields.port == Some(port)
                                           && s.fields.transport.Some? && s.fields.transport.value in transports)
  {
    hide Attempts;
    if transports != [] {
      var front, last := transports[..|transports| - 1], transports[|transports| - 1];
      TransportsDistinct(n, shape, place, address, port, front);
      AttemptsDistinct(n, shape, place, address, port, last, shape.repeats);
      DistinctJoin(OverTransports(n, shape, place, address, port, front),
                   Attempts(n, shape, place, address, port, last, shape.repeats));
    }
  }

  lemma {:induction false} PortsDistinct(n: Notation, shape: Shape, place: Place, address: Target, ports: seq<nat>)
    requires Distinct(ports) && Distinct(shape.transports)
    ensures var steps := OverPorts(n, shape, place, address, ports);
            && DistinctIds(steps)
            && (forall s :: s in steps ==> StepOf(n, place, address, s) && s.fields.port.Some? && s.fields.port.value in ports)
  {
    hide OverTransports;
    if ports != [] {
      var front, last := ports[..|ports| - 1], ports[|ports| - 1];
      PortsDistinct(n, shape, place, address, front);
      TransportsDistinct(n, shape, place, address, last, shape.transports);
      DistinctJoin(OverPorts(n, shape, place, address, front), OverTransports(n, shape, place, address, last, shape.transports));
    }
  }

  /** Places that no two steps can share: their target, address or slot differ. */
  ghost predicate DistinctPlaces(n: Notation, places: seq<Place>) {
    forall i, j :: 0 <= i < j < |places| ==>
      || n.spell(places[i].target) != n.spell(places[j].target)
      || n.parse(places[i].address).None? || n.parse(places[j].address).None?
      || n.spell(n.parse(places[i].address).value) != n.spell(n.parse(places[j].address).value)
      || places[i].slot != places[j].slot
  }

  lemma {:induction false} StepsDistinct(n: Notation, shape: Shape, places: seq<Place>)
    requires Distinct(shape.ports) && Distinct(shape.transports) && DistinctPlaces(n, places)
    requires CompileSteps(n, shape, places).Ok?
    ensures var steps := CompileSteps(n, shape, places).value;
            && DistinctIds(steps)
            && (forall s :: s in steps ==> exists i :: 0 <= i < |places| && n.parse(places[i].address).Some?
                                                       && StepOf(n, places[i], n.parse(places[i].address).value, s))
  {
    hide OverPorts;
    if places != [] {
      var front, last := places[..|places| - 1], places[|places| - 1];
      StepsDistinct(n, shape, front);
      var before, address := CompileSteps(n, shape, front).value, n.parse(last.address).value;
      PortsDistinct(n, shape, last, address, shape.ports);
      var added := OverPorts(n, shape, last, address, shape.ports);
      forall x, y | x in before && y in added ensures x.id != y.id {
        var i :| 0 <= i < |front| && n.parse(front[i].address).Some? && StepOf(n, front[i], n.parse(front[i].address).value, x);
        assert front[i] == places[i];
      }
      DistinctJoin(before, added);
      forall s | s in before + added
        ensures exists i :: 0 <= i < |places| && n.parse(places[i].address).Some?
                            && StepOf(n, places[i], n.parse(places[i].address).value, s)
      {
        if s in before {
          var i :| 0 <= i < |front| && n.parse(front[i].address).Some? && StepOf(n, front[i], n.parse(front[i].address).value, s);
          assert front[i] == places[i];
        } else {
          assert places[|places| - 1] == last;
        }
      }
    }
  }

  // --- places ----------------------------------------------------------------------------------

  ghost predicate TargetsFaithful(n: Notation, targets: seq<Target>) {
    && Distinct(targets)
    && forall i :: 0 <= i < |targets| ==> DestinationAllowed(targets[i]) && n.parse(n.spell(targets[i])) == Some(targets[i])
  }

  ghost predicate SnapshotsFaithful(n: Notation, g: Grant, snaps: Snapshots, targets: seq<Target>) {
    forall t :: t in targets && t.HostTarget? ==> t.name in snaps && HostFaithful(n, g, t.name, snaps[t.name])
  }

  ghost predicate HostFaithful(n: Notation, g: Grant, name: string, es: seq<Endpoint>) {
    && es != [] && AnswersPermitted(g, name, es) && Ascending(EndpointLess, es)
    && forall i :: 0 <= i < |es| ==>
         n.parse(n.spell(AsTarget(es[i]))) == Some(AsTarget(es[i])) && DestinationAllowed(AsTarget(es[i]))
  }

  lemma ResolvedHost(n: Notation, g: Grant, name: string, resolver: Resolver, now: int)
    requires Faithful(n) && ResolveForPlan(n, g, name, resolver, now).Ok?
    ensures HostFaithful(n, g, name, ResolveForPlan(n, g, name, resolver, now).value)
  {
    hide EndpointLess, Faithful, DestinationAllowed, Authorized, Resolved;
    ResolvedEndpoints(n, resolver(name));
  }

  /** An address an active step may carry. */
  predicate SafeAddress(n: Notation, g: Grant, text: string) {
    match n.parse(text)
    case Some(AddressTarget(a, _)) => Internal(a) && Reachable(g, a)
    case _ => false
  }

  lemma {:induction false} ResolveAllFaithful(n: Notation, g: Grant, targets: seq<Target>, resolver: Resolver, now: int)
    requires Faithful(n) && ResolveAll(n, g, targets, resolver, now).Ok?
    ensures SnapshotsFaithful(n, g, ResolveAll(n, g, targets, resolver, now).value, targets)
    ensures forall t :: t in targets && t.HostTarget? ==>
              ResolveForPlan(n, g, t.name, resolver, now) == Ok(ResolveAll(n, g, targets, resolver, now).value[t.name])
  {
    hide HostFaithful, Faithful, ResolveForPlan;
    if targets != [] {
      var front, last := targets[..|targets| - 1], targets[|targets| - 1];
      ResolveAllFaithful(n, g, front, resolver, now);
      assert targets == front + [last];
      if last.HostTarget? {
        ResolvedHost(n, g, last.name, resolver, now);
      }
    }
  }

  lemma PlacesOfTarget(n: Notation, g: Grant, snaps: Snapshots, t: Target, now: int)
    requires Faithful(n) && Authorized(g, t, now) && DestinationAllowed(t) && n.parse(n.spell(t)) == Some(t)
    requires SnapshotsFaithful(n, g, snaps, [t])
    ensures var places := PlacesOf(n, snaps, t);
            && DistinctPlaces(n, places)
            && (forall i :: 0 <= i < |places| ==>
                  && places[i].target == t
                  && (n.parse(places[i].address).Some? ==> SafeAddress(n, g, places[i].address)))
  {
    hide Hosts, Size;
    assert t in [t];
    match t
    case AddressTarget(a, scope) =>
      AllowedInternal(t);
    case HostTarget(name) =>
      var es := snaps[name];
      forall i | 0 <= i < |es| ensures SafeAddress(n, g, n.spell(AsTarget(es[i]))) {
        AllowedInternal(AsTarget(es[i]));
      }
    case NetworkTarget(network) =>
      var hosts := Hosts(network);
      assert Contained(network, hosts) && Distinct(hosts) by { HostsContained(network); }
      forall i | 0 <= i < |hosts| && n.parse(n.spell(AddressTarget(hosts[i], None))).Some?
        ensures SafeAddress(n, g, n.spell(AddressTarget(hosts[i], None)))
      {
        NetworkHostSafe(n, g, network, hosts[i], now);
      }
      forall i, j | 0 <= i < j < |hosts|
        && n.parse(n.spell(AddressTarget(hosts[i], None))).Some? && n.parse(n.spell(AddressTarget(hosts[j], None))).Some?
        ensures n.spell(AddressTarget(hosts[i], None)) != n.spell(AddressTarget(hosts[j], None))
      {
        assert n.parse(n.spell(AddressTarget(hosts[i], None))) == Some(AddressTarget(hosts[i], None));
        assert n.parse(n.spell(AddressTarget(hosts[j], None))) == Some(AddressTarget(hosts[j], None));
      }
  }

  ghost predicate Contained(network: Network, hosts: seq<Address>) {
    forall i :: 0 <= i < |hosts| ==> Contains(network, hosts[i])
  }

  lemma HostsContained(network: Network)
    ensures Contained(network, Hosts(network)) && Distinct(Hosts(network))
  {
  }

  lemma AllowedInternal(t: Target)
    requires t.AddressTarget? && DestinationAllowed(t)
    ensures Internal(t.address)
  {
  }

  lemma NetworkHostSafe(n: Notation, g: Grant, network: Network, a: Address, now: int)
    requires Faithful(n) && Authorized(g, NetworkTarget(network), now) && NetworkAllowed(network) && Contains(network, a)
    requires n.parse(n.spell(AddressTarget(a, None))).Some?
    ensures SafeAddress(n, g, n.spell(AddressTarget(a, None)))
  {
    hide Internal, Size, Loopback;
    AllowedNetworkMembers(network, a);
    hide NetworkAllowed;
    assert n.parse(n.spell(AddressTarget(a, None))) == Some(AddressTarget(a, None));
    if !Loopback(a) {
      assert InScope(g, NetworkTarget(network));
      var outer :| outer in g.networks && SubnetOf(network, outer);
      assert Contains(outer, a);
    }
  }

  lemma {:induction false} PlacesSafe(n: Notation, g: Grant, snaps: Snapshots, targets: seq<Target>, now: int)
    requires Faithful(n) && TargetsFaithful(n, targets) && AllAuthorized(g, targets, now)
    requires SnapshotsFaithful(n, g, snaps, targets)
    ensures var places := Places(n, snaps, targets);
            && DistinctPlaces(n, places)
            && (forall i :: 0 <= i < |places| ==>
                  && places[i].target in targets
                  && (n.parse(places[i].address).Some? ==> SafeAddress(n, g, places[i].address)))
  {
    hide PlacesOf, SafeAddress, DestinationAllowed, Authorized, Faithful, EndpointLess;
    if targets != [] {
      var front, last := targets[..|targets| - 1], targets[|targets| - 1];
      assert targets == front + [last];
      PlacesSafe(n, g, snaps, front, now);
      PlacesOfTarget(n, g, snaps, last, now);
      var a, b := Places(n, snaps, front), PlacesOf(n, snaps, last);
      forall i, j | 0 <= i < |a| && 0 <= j < |b| ensures n.spell(a[i].target) != n.spell(b[j].target) {
        var k :| 0 <= k < |front| && front[k] == a[i].target;
        assert front[k] == targets[k];
      }
      JoinPlaces(n, a, b);
    }
  }

  lemma JoinPlaces(n: Notation, a: seq<Place>, b: seq<Place>)
    requires DistinctPlaces(n, a) && DistinctPlaces(n, b)
    requires forall i, j :: 0 <= i < |a| && 0 <= j < |b| ==> n.spell(a[i].target) != n.spell(b[j].target)
    ensures DistinctPlaces(n, a + b)
  {
  }

  // --- theorems --------------------------------------------------------------------------------

  lemma ShapeFacts(env: Environment, q: Request, now: int)
    requires Sound(env) && ReadRequest(env, q, now).Ok?
    ensures var shape := ReadRequest(env, q, now).value;
            && TargetsFaithful(env.notation, shape.targets) && AllAuthorized(shape.grant, shape.targets, now)
            && Ascending(TextLess, Spelled(env.notation, shape.targets)) && shape.targets != []
            && Ascending(PortLess, shape.ports) && Distinct(shape.ports) && shape.ports != []
            && (forall i :: 0 <= i < |shape.ports| ==> 1 <= shape.ports[i] <= 65_535)
            && Distinct(shape.transports) && shape.transports != [] && shape.transports == InTextOrder(Elements(shape.transports))
            && Sctp !in shape.transports
            && shape.grant == q.grant && shape.limits == q.limits
            && LimitsWithin(shape.limits, ABSOLUTE_CEILINGS) && 1 <= shape.repeats
  {
    hide LimitsWithin, PayloadOf, AllAuthorized;
    NormalizedTargets(env.notation, q.values);
    PortsCanonical(q.ports);
    TransportsCanonical(q.transports);
    hide TextLess, PortLess, PortsOf, NormalizeTargets, StepsPermitted, TransportsOf, InTextOrder;
  }

  lemma TextOrderElements(transports: set<Transport>)
    ensures Elements(InTextOrder(transports)) == transports && Distinct(InTextOrder(transports))
  {
    var r := InTextOrder(transports);
    forall x ensures x in r <==> x in transports {
      match x
      case Tcp =>
      case Udp =>
      case Sctp =>
    }
  }

  lemma TransportsCanonical(transports: seq<Transport>)
    requires TransportsOf(transports).Ok?
    ensures var r := TransportsOf(transports).value;
            && Distinct(r) && r != [] && r == InTextOrder(Elements(r)) && Sctp !in r && Elements(r) == Elements(transports)
  {
    hide InTextOrder;
    TextOrderElements(Elements(transports));
    var r := TransportsOf(transports).value;
    assert transports[0] in Elements(transports);
    assert Elements(r) != {};
    assert Sctp !in Elements(r);
  }

  lemma PortsCanonical(ports: seq<int>)
    requires PortsOf(ports).Ok?
    ensures var r := PortsOf(ports).value;
            && Ascending(PortLess, r) && Distinct(r) && r != []
            && (forall i :: 0 <= i < |r| ==> 1 <= r[i] <= 65_535)
  {
    var all := AsPorts(ports);
    CanonicalAscends(PortLess, all);
    CanonicalFixpoint(PortLess, all);
    var r := PortsOf(ports).value;
    assert all[0] in Elements(r);
    forall i | 0 <= i < |r| ensures 1 <= r[i] <= 65_535 {
      assert r[i] in Elements(r);
      assert r[i] in all;
    }
  }

  /** Every plan the Cartesian compiler publishes reserves exactly the sum over its steps,
      its step identifiers are distinct, and every step address is internal and either
      loopback or inside a grant network. */
  lemma CartesianPlanIsReserved(env: Environment, q: Request, resolver: Resolver, now: int)
    requires Sound(env) && LimitsPositive(q.limits)
    requires PreviewPlan(env, q, resolver, now).Ok?
    ensures var p := PreviewPlan(env, q, resolver, now).value;
            && Reserved(p)
            && forall i :: 0 <= i < |p.steps| ==>
                 p.steps[i].fields.address.Some? && SafeAddress(env.notation, q.grant, p.steps[i].fields.address.value)
  {
    hide Build, Sound, LimitsPositive, SafeAddress, Reserved, ReadRequest, ResolveAll;
    var shape := ReadRequest(env, q, now).value;
    ShapeFacts(env, q, now);
    hide InTextOrder, AllAuthorized, TargetsFaithful, LimitsWithin;
    var snaps := ResolveAll(env.notation, shape.grant, shape.targets, resolver, now).value;
    SoundIsFaithful(env);
    hide Faithful;
    ResolveAllFaithful(env.notation, shape.grant, shape.targets, resolver, now);
    PlacesSafe(env.notation, shape.grant, snaps, shape.targets, now);
    SomePlace(env.notation, shape.grant, snaps, shape.targets);
    hide SnapshotsFaithful, DistinctPlaces, Spelled, Ascending;
    BuildReserves(env.notation, shape, snaps, now);
  }

  lemma {:induction false} SomePlace(n: Notation, g: Grant, snaps: Snapshots, targets: seq<Target>)
    requires targets != [] && SnapshotsFaithful(n, g, snaps, targets)
    ensures Places(n, snaps, targets) != []
  {
    hide EndpointLess, AnswersPermitted, DestinationAllowed;
    var last := targets[|targets| - 1];
    assert last in targets;
    assert PlacesOf(n, snaps, last) != [] by {
      if last.NetworkTarget? {
        HostsSome(last.network);
      }
    }
  }

  lemma HostsSome(network: Network)
    ensures Hosts(network) != []
  {
    assert |Hosts(network)| >= 1;
  }

  lemma SoundIsFaithful(env: Environment)
    requires Sound(env)
    ensures Faithful(env.notation)
  {
  }

  lemma {:induction false} BuildReserves(n: Notation, shape: Shape, snaps: Snapshots, now: int)
    requires Covers(snaps, shape.targets) && Build(n, shape, snaps, now).Ok?
    requires Distinct(shape.ports) && Distinct(shape.transports) && LimitsPositive(shape.limits)
    requires shape.targets != [] && shape.ports != [] && shape.transports != [] && shape.repeats >= 1
    requires DistinctPlaces(n, Places(n, snaps, shape.targets)) && Faithful(n)
    requires var places := Places(n, snaps, shape.targets);
             places != [] && forall i :: 0 <= i < |places| && n.parse(places[i].address).Some? ==> SafeAddress(n, shape.grant, places[i].address)
    ensures var p := Build(n, shape, snaps, now).value;
            && Reserved(p)
            && forall i :: 0 <= i < |p.steps| ==>
                 p.steps[i].fields.address.Some? && SafeAddress(n, shape.grant, p.steps[i].fields.address.value)
  {
    var p, places := Build(n, shape, snaps, now).value, Places(n, snaps, shape.targets);
    BuildParts(n, shape, snaps, now);
    hide Build, LimitsPositive, CompileSteps, Places, SafeAddress, DistinctPlaces, EstimateWithin, Publish, Faithful, Distinct,
         StepOf, Datagrams, ApplicationBytes, Packets;
    StepsExist(n, shape, places);
    StepsDistinct(n, shape, places);
    forall i | 0 <= i < |p.steps|
      ensures p.steps[i].fields.address.Some? && SafeAddress(n, shape.grant, p.steps[i].fields.address.value)
    {
      assert p.steps[i] in p.steps;
      StepSafe(n, shape, places, p.steps[i]);
    }
  }

  lemma {:induction false} StepsExist(n: Notation, shape: Shape, places: seq<Place>)
    requires CompileSteps(n, shape, places).Ok? && places != []
    requires shape.ports != [] && shape.transports != [] && shape.repeats >= 1
    ensures CompileSteps(n, shape, places).value != []
  {
    hide CompileSteps;
    StepsCount(n, shape, places);
    Positive(|places|, |shape.ports|, |shape.transports|, shape.repeats);
  }

  lemma StepSafe(n: Notation, shape: Shape, places: seq<Place>, s: ProbeStep)
    requires Faithful(n)
    requires exists i :: 0 <= i < |places| && n.parse(places[i].address).Some?
                         && StepOf(n, places[i], n.parse(places[i].address).value, s)
    requires forall i :: 0 <= i < |places| && n.parse(places[i].address).Some? ==> SafeAddress(n, shape.grant, places[i].address)
    ensures s.fields.address.Some? && SafeAddress(n, shape.grant, s.fields.address.value)
  {
    hide SafeAddress, Faithful;
    var k :| 0 <= k < |places| && n.parse(places[k].address).Some? && StepOf(n, places[k], n.parse(places[k].address).value, s);
    Respelled(n, shape.grant, places[k].address);
  }

  lemma {:induction false} BuildParts(n: Notation, shape: Shape, snaps: Snapshots, now: int)
    requires Covers(snaps, shape.targets) && Build(n, shape, snaps, now).Ok?
    ensures var p := Build(n, shape, snaps, now).value;
            && CompileSteps(n, shape, Places(n, snaps, shape.targets)) == Ok(p.steps)
            && HostTotal(snaps, shape.targets).Ok?
            && p.limits == shape.limits
            && p.estimate == EstimateOf(shape, HostTotal(snaps, shape.targets).value, p.steps)
            && EstimateWithin(p.estimate, p.limits)
            && p == Publish(shape, HostResolutions(n, snaps, shape.targets, now), p.steps, p.estimate, now)
  {
    hide Checked, EstimateWithin, CompileSteps, Places, HostTotal, HostResolutions, Confirmations, Undated,
         Datagrams, ApplicationBytes, Packets;
  }

  lemma Positive(a: nat, b: nat, c: nat, d: nat)
    requires a > 0 && b > 0 && c > 0 && d > 0
    ensures a * (b * (c * d)) > 0
  {
    assert c * d > 0;
    assert b * (c * d) > 0;
  }

  lemma Respelled(n: Notation, g: Grant, text: string)
    requires Faithful(n) && SafeAddress(n, g, text)
    ensures SafeAddress(n, g, n.spell(n.parse(text).value))
  {
  }

  // --- exact contents ----------------------------------------------------------------------------

  lemma {:induction false} AttemptsMember(
    n: Notation, shape: Shape, place: Place, address: Target, port: nat, transport: Transport, k: nat, s: ProbeStep)
    ensures s in Attempts(n, shape, place, address, port, transport, k) <==>
              exists a :: 1 <= a <= k && s == StepFor(n, shape, place, address, port, transport, a)
  {
    hide StepFor;
    if k > 0 {
      AttemptsMember(n, shape, place, address, port, transport, k - 1, s);
    }
  }

  ghost predicate OverTransport(n: Notation, shape: Shape, place: Place, address: Target, port: nat, transports: seq<Transport>, s: ProbeStep) {
    exists transport, a :: transport in transports && 1 <= a <= shape.repeats
                           && s == StepFor(n, shape, place, address, port, transport, a)
  }

  lemma {:induction false} TransportsMember(
    n: Notation, shape: Shape, place: Place, address: Target, port: nat, transports: seq<Transport>, s: ProbeStep)
    ensures s in OverTransports(n, shape, place, address, port, transports)
            <==> OverTransport(n, shape, place, address, port, transports, s)
  {
    hide StepFor, Attempts;
    if transports != [] {
      var front, last := transports[..|transports| - 1], transports[|transports| - 1];
      assert transports == front + [last];
      TransportsMember(n, shape, place, address, port, front, s);
      AttemptsMember(n, shape, place, address, port, last, shape.repeats, s);
    }
  }

  ghost predicate OverPort(n: Notation, shape: Shape, place: Place, address: Target, ports: seq<nat>, s: ProbeStep) {
    exists port :: port in ports && OverTransport(n, shape, place, address, port, shape.transports, s)
  }

  lemma {:induction false} PortsMember(n: Notation, shape: Shape, place: Place, address: Target, ports: seq<nat>, s: ProbeStep)
    ensures s in OverPorts(n, shape, place, address, ports) <==> OverPort(n, shape, place, address, ports, s)
  {
    hide OverTransport, OverTransports;
    if ports != [] {
      var front, last := ports[..|ports| - 1], ports[|ports| - 1];
      assert ports == front + [last];
      PortsMember(n, shape, place, address, front, s);
      TransportsMember(n, shape, place, address, last, shape.transports, s);
    }
  }

  ghost predicate OverPlace(n: Notation, shape: Shape, places: seq<Place>, s: ProbeStep) {
    exists place :: place in places && n.parse(place.address).Some?
                    && OverPort(n, shape, place, n.parse(place.address).value, shape.ports, s)
  }

  /** The compiled steps are exactly one step for each place, port, transport and attempt. */
  lemma {:induction false} StepsExactly(n: Notation, shape: Shape, places: seq<Place>, s: ProbeStep)
    requires CompileSteps(n, shape, places).Ok?
    ensures s in CompileSteps(n, shape, places).value <==> OverPlace(n, shape, places, s)
  {
    hide OverPort, OverPorts;
    if places != [] {
      var front, last := places[..|places| - 1], places[|places| - 1];
      assert places == front + [last];
      StepsExactly(n, shape, front, s);
      PortsMember(n, shape, last, n.parse(last.address).value, shape.ports, s);
    }
  }

  lemma {:induction false} PlacesParse(n: Notation, shape: Shape, places: seq<Place>)
    requires CompileSteps(n, shape, places).Ok?
    ensures forall place :: place in places ==> n.parse(place.address).Some?
  {
    hide OverPorts;
    if places != [] {
      PlacesParse(n, shape, places[..|places| - 1]);
      assert places == places[..|places| - 1] + [places[|places| - 1]];
    }
  }
}
