/** What a published Cartesian plan shows of its request: which requests are read at all,
    and what every one of its steps carries. */
module PlanContents {
  import opened Outcomes
  import opened Collections
  import opened Networks
  import opened Plans
  import opened Policy
  import opened Cartesian
  import opened CartesianTheorems
  import opened Revalidation
  import opened Preflight

  // --- targets of a request -------------------------------------------------------------------

  lemma {:induction false} ByNameExactly(n: Notation, values: seq<string>)
    ensures ByName(n, values).Some? <==> forall v :: v in values ==> n.parse(v).Some?
  {
    if values != [] {
      var front, last := values[..|values| - 1], values[|values| - 1];
      assert values == front + [last];
      ByNameExactly(n, front);
    }
  }

  lemma {:induction false} ByNameHolds(n: Notation, values: seq<string>, t: Target)
    requires Faithful(n) && ByName(n, values).Some?
    ensures t in ByName(n, values).value.Values <==> exists v :: v in values && n.parse(v) == Some(t)
  {
    var d := ByName(n, values).value;
    if t in d.Values {
      var key :| key in d && d[key] == t;
      KeyFromValue(n, values, key);
    }
    if v :| v in values && n.parse(v) == Some(t) {
      ValueHasKey(n, values, v);
    }
  }

  lemma {:induction false} KeyFromValue(n: Notation, values: seq<string>, key: string)
    requires ByName(n, values).Some? && key in ByName(n, values).value
    ensures exists v :: v in values && n.parse(v) == Some(ByName(n, values).value[key])
  {
    var front, last := values[..|values| - 1], values[|values| - 1];
    assert values == front + [last];
    if key != n.spell(n.parse(last).value) {
      KeyFromValue(n, front, key);
      var v :| v in front && n.parse(v) == Some(ByName(n, front).value[key]);
      assert v in values;
    } else {
      assert last in values;
    }
  }

  lemma {:induction false} ValueHasKey(n: Notation, values: seq<string>, v: string)
    requires Faithful(n) && ByName(n, values).Some? && v in values && n.parse(v).Some?
    ensures var d, t := ByName(n, values).value, n.parse(v).value; n.spell(t) in d && d[n.spell(t)] == t
  {
    var front, last := values[..|values| - 1], values[|values| - 1];
    assert values == front + [last];
    if v in front {
      ValueHasKey(n, front, v);
      assert n.spell(n.parse(last).value) == n.spell(n.parse(v).value) ==> n.parse(last) == n.parse(v);
    }
  }

  /** Normalisation succeeds exactly for one text or more that all parse, and its targets
      are exactly the parsed ones. */
  lemma NormalizedExactly(n: Notation, values: seq<string>, t: Target)
    requires Faithful(n)
    ensures NormalizeTargets(n, values).Ok? <==> values != [] && forall v :: v in values ==> n.parse(v).Some?
    ensures NormalizeTargets(n, values).Ok? ==>
              (t in NormalizeTargets(n, values).value <==> exists v :: v in values && n.parse(v) == Some(t))
  {
    hide Faithful, TextLess, Canonical, Names, ByName;
    ByNameExactly(n, values);
    if ByName(n, values).Some? {
      var d := ByName(n, values).value;
      NamesAreKeys(n, values);
      ByNameHolds(n, values, t);
      if values != [] {
        ValueHasKey(n, values, values[0]);
      } else {
        NoNames(n);
      }
      OrderedValues(d, Canonical(TextLess, Names(n, values)), t);
    }
  }

  lemma {:induction false} NoNames(n: Notation)
    ensures ByName(n, []) == Some(map[])
  {
  }

  lemma OrderedValues(d: map<string, Target>, keys: seq<string>, t: Target)
    requires Elements(keys) == d.Keys
    ensures forall k :: k in keys ==> k in d
    ensures t in InOrder(d, keys) <==> t in d.Values
  {
    assert forall k :: k in keys <==> k in Elements(keys);
    if t in d.Values {
      var key :| key in d && d[key] == t;
      var i :| 0 <= i < |keys| && keys[i] == key;
      assert InOrder(d, keys)[i] == t;
    }
    if t in InOrder(d, keys) {
      var i :| 0 <= i < |keys| && InOrder(d, keys)[i] == t;
      assert keys[i] in d;
    }
  }

  // --- which requests are read -----------------------------------------------------------------

  function RequestedLength(q: Request): int {
    if q.udpPayload.Some? then |q.udpPayload.value| else q.payloadBytes
  }

  function RequestedDigest(env: Environment, q: Request): Option<string> {
    if q.udpPayload.Some? then Some(env.sha256(q.udpPayload.value)) else q.sha256
  }

  predicate LetterOrDigit(c: char) {
    97 <= c as int <= 122 || 48 <= c as int <= 57
  }

  /** A payload profile starts with a small letter or digit; dot, underscore and hyphen may
      follow, up to 128 characters. */
  lemma ProfileNameExactly(s: string)
    ensures ProfileName(s) <==>
              && s != "" && |s| <= 128 && LetterOrDigit(s[0])
              && forall c :: c in s ==> LetterOrDigit(c) || c == '.' || c == '_' || c == '-'
  {
    if ProfileName(s) {
      assert s[0] !in "._-";
    }
    if s != "" && forall c :: c in s ==> LetterOrDigit(c) || c == '.' || c == '_' || c == '-' {
      forall i | 0 <= i < |s| ensures 'a' <= s[i] <= 'z' || '0' <= s[i] <= '9' || s[i] in "._-" {
        assert s[i] in s;
        assert "._-"[0] == '.' && "._-"[1] == '_' && "._-"[2] == '-';
      }
    }
  }

  /** The payload is at most 1400 octets and agrees with its declared size and digest; a
      digest is 64 hexadecimal digits; a custom payload has one, and no profile name. */
  predicate PayloadAcceptable(env: Environment, q: Request) {
    && 0 <= q.payloadBytes <= 1_400
    && (q.udpPayload.Some? ==>
          && |q.udpPayload.value| <= 1_400 && (q.payloadBytes == 0 || q.payloadBytes == |q.udpPayload.value|)
          && (q.sha256.Some? ==> q.sha256.value == env.sha256(q.udpPayload.value)))
    && (RequestedDigest(env, q).Some? ==> Hex64(RequestedDigest(env, q).value) && q.payloadProfile.None?)
    && (RequestedDigest(env, q).None? ==> !q.custom && (q.payloadProfile.Some? ==> ProfileName(q.payloadProfile.value)))
  }

  function RequestedPayload(env: Environment, q: Request): Payload
    requires RequestedLength(q) >= 0
  {
    var sha := RequestedDigest(env, q);
    Payload(
      if sha.Some? then "custom-sha256-v1"
      else if q.payloadProfile.Some? then q.payloadProfile.value
      else if RequestedLength(q) > 0 then "zero-bytes-v1" else "none-v1",
      RequestedLength(q), sha)
  }

  lemma PayloadExactly(env: Environment, q: Request)
    ensures PayloadOf(env, q).Ok? <==> PayloadAcceptable(env, q)
    ensures PayloadOf(env, q).Ok? ==> RequestedLength(q) >= 0 && PayloadOf(env, q).value == RequestedPayload(env, q)
  {
    hide Hex64, ProfileName;
  }

  /** A target may be probed: it is loopback, or an attested grant names it and permits every
      port and transport of the request. */
  predicate TargetPermitted(q: Request, t: Target) {
    LoopbackTarget(t) || (q.grant.attested && InScope(q.grant, t)
                          && forall port, transport :: port in q.ports && transport in q.transports ==>
                               port in q.grant.ports && transport in q.grant.transports)
  }

  predicate RequestAcceptable(env: Environment, q: Request, now: int) {
    && 0.1 <= q.timeout <= 30.0 && 1 <= |q.profile| <= 128 && 1 <= q.repeats <= 100 && 1 <= q.datagrams <= 100
    && LimitsWithin(q.limits, ABSOLUTE_CEILINGS) && (q.grant.expiresAt.None? || now < q.grant.expiresAt.value)
    && PayloadAcceptable(env, q)
    && q.ports != [] && (forall port :: port in q.ports ==> 1 <= port <= 65_535)
    && q.transports != [] && Sctp !in q.transports
    && q.values != []
    && forall v :: v in q.values ==>
         env.notation.parse(v).Some? && TargetPermitted(q, env.notation.parse(v).value)
  }

  lemma PortsExactly(ports: seq<int>)
    ensures PortsOf(ports).Ok? <==> ports != [] && forall port :: port in ports ==> 1 <= port <= 65_535
    ensures PortsOf(ports).Ok? ==> forall port: int :: port in ports <==> port >= 0 && port in PortsOf(ports).value
  {
    if i :| 0 <= i < |ports| && !(1 <= ports[i] <= 65_535) {
      assert ports[i] in ports;
    }
    if PortsOf(ports).Ok? {
      var all := AsPorts(ports);
      CanonicalAscends(PortLess, all);
      hide Canonical, PortLess;
      forall port: int ensures port in ports <==> port >= 0 && port in Canonical(PortLess, all) {
        if port in ports {
          var i :| 0 <= i < |ports| && ports[i] == port;
          assert all[i] == port && port in Elements(all);
        }
        if port >= 0 && port in Canonical(PortLess, all) {
          assert port in Elements(Canonical(PortLess, all));
          var i :| 0 <= i < |all| && all[i] == port;
          assert ports[i] == port;
        }
      }
    }
  }

  lemma TransportsExactly(transports: seq<Transport>)
    ensures TransportsOf(transports).Ok? <==> transports != [] && Sctp !in transports
    ensures TransportsOf(transports).Ok? ==> forall x :: x in transports <==> x in TransportsOf(transports).value
  {
    if TransportsOf(transports).Ok? {
      TransportsCanonical(transports);
      var r := TransportsOf(transports).value;
      forall x ensures x in transports <==> x in r {
        assert x in Elements(transports) <==> x in Elements(r);
      }
    }
  }

  /** What a request that is read turns into. */
  ghost predicate ReadAs(env: Environment, q: Request, shape: Shape) {
    && (forall t :: t in shape.targets <==> exists v :: v in q.values && env.notation.parse(v) == Some(t))
    && (forall port: int :: port in q.ports <==> port >= 0 && port in shape.ports)
    && (forall x :: x in q.transports <==> x in shape.transports)
    && RequestedLength(q) >= 0 && shape.payload == RequestedPayload(env, q)
    && shape.grant == q.grant && shape.profile == q.profile && shape.repeats == q.repeats && shape.datagrams == q.datagrams
    && shape.limits == q.limits && shape.timeout == q.timeout
  }

  /** The two checks of ports, transports and targets against the grant, as one. */
  lemma PermittedExactly(q: Request, targets: seq<Target>, ports: seq<nat>, transports: seq<Transport>, now: int)
    requires forall port: int :: port in q.ports <==> port >= 0 && port in ports
    requires forall x :: x in q.transports <==> x in transports
    ensures AllAuthorized(q.grant, targets, now) && StepsPermitted(q.grant, targets, ports, transports)
            <==> Current(q.grant, now) && forall t :: t in targets ==> TargetPermitted(q, t)
  {
    hide LoopbackTarget, InScope;
    if AllAuthorized(q.grant, targets, now) && StepsPermitted(q.grant, targets, ports, transports) {
      forall t | t in targets ensures TargetPermitted(q, t) {
        var i :| 0 <= i < |targets| && targets[i] == t;
        assert Authorized(q.grant, targets[i], now);
        forall port, transport | port in q.ports && transport in q.transports && !LoopbackTarget(t)
          ensures port in q.grant.ports && transport in q.grant.transports
        {
          assert port in ports && PermitsStep(q.grant, port, transport);
        }
      }
    }
    if Current(q.grant, now) && forall t :: t in targets ==> TargetPermitted(q, t) {
      forall i | 0 <= i < |targets| ensures Authorized(q.grant, targets[i], now) {
        assert TargetPermitted(q, targets[i]);
      }
      forall t, port: nat, transport | t in targets && port in ports && transport in transports && !LoopbackTarget(t)
        ensures PermitsStep(q.grant, port, transport)
      {
        assert TargetPermitted(q, t) && port in q.ports && transport in q.transports;
      }
    }
  }

  /** The compiler reads exactly the acceptable requests, and as what they ask for. */
  lemma {:induction false} RequestReadExactly(env: Environment, q: Request, now: int)
    requires Sound(env)
    ensures ReadRequest(env, q, now).Ok? <==> RequestAcceptable(env, q, now)
    ensures ReadRequest(env, q, now).Ok? ==> ReadAs(env, q, ReadRequest(env, q, now).value)
  {
    hide PayloadAcceptable, RequestedPayload, RequestedLength, LimitsWithin, Hex64, LoopbackTarget, InScope, TargetPermitted,
         NormalizeTargets, PortsOf, TransportsOf, PayloadOf, AllAuthorized, StepsPermitted, Faithful;
    SoundIsFaithful(env);
    PayloadExactly(env, q);
    PortsExactly(q.ports);
    TransportsExactly(q.transports);
    TargetsRead(env.notation, q.values);
    if NormalizeTargets(env.notation, q.values).Ok? && PortsOf(q.ports).Ok? && TransportsOf(q.transports).Ok? {
      var targets := NormalizeTargets(env.notation, q.values).value;
      PermittedExactly(q, targets, PortsOf(q.ports).value, TransportsOf(q.transports).value, now);
      PermittedValues(env.notation, q, targets);
    }
    hide Sound;
    ReadParts(env, q, now);
  }

  lemma TargetsRead(n: Notation, values: seq<string>)
    requires Faithful(n)
    ensures NormalizeTargets(n, values).Ok? <==> values != [] && forall v :: v in values ==> n.parse(v).Some?
    ensures NormalizeTargets(n, values).Ok? ==>
              forall t :: t in NormalizeTargets(n, values).value <==> exists v :: v in values && n.parse(v) == Some(t)
  {
    hide Faithful, NormalizeTargets;
    NormalizedExactly(n, values, HostTarget(""));
    if NormalizeTargets(n, values).Ok? {
      forall t ensures t in NormalizeTargets(n, values).value <==> exists v :: v in values && n.parse(v) == Some(t) {
        NormalizedExactly(n, values, t);
      }
    }
  }

  lemma PermittedValues(n: Notation, q: Request, targets: seq<Target>)
    requires forall v :: v in q.values ==> n.parse(v).Some?
    requires forall t :: t in targets <==> exists v :: v in q.values && n.parse(v) == Some(t)
    ensures (forall t :: t in targets ==> TargetPermitted(q, t))
            <==> forall v :: v in q.values ==> n.parse(v).Some? && TargetPermitted(q, n.parse(v).value)
  {
    hide TargetPermitted;
    if forall t :: t in targets ==> TargetPermitted(q, t) {
      forall v | v in q.values ensures TargetPermitted(q, n.parse(v).value) {
        assert n.parse(v) == Some(n.parse(v).value);
        assert n.parse(v).value in targets;
      }
    }
  }

  /** The reader, check by check. */
  lemma ReadParts(env: Environment, q: Request, now: int)
    ensures var targets, ports, transports, payload :=
              NormalizeTargets(env.notation, q.values), PortsOf(q.ports), TransportsOf(q.transports), PayloadOf(env, q);
            && (ReadRequest(env, q, now).Ok? <==>
                  && 0.1 <= q.timeout <= 30.0 && targets.Ok? && LimitsWithin(q.limits, ABSOLUTE_CEILINGS)
                  && 1 <= |q.profile| <= 128 && 1 <= q.repeats <= 100 && 1 <= q.datagrams <= 100
                  && payload.Ok? && ports.Ok? && transports.Ok?
                  && AllAuthorized(q.grant, targets.value, now)
                  && StepsPermitted(q.grant, targets.value, ports.value, transports.value))
            && (ReadRequest(env, q, now).Ok? ==>
                  ReadRequest(env, q, now).value
                  == Shape(targets.value, ports.value, transports.value, payload.value, q.grant, q.profile, q.repeats, q.datagrams,
                           q.limits, q.timeout))
  {
    hide NormalizeTargets, PortsOf, TransportsOf, PayloadOf, AllAuthorized, StepsPermitted, LimitsWithin;
  }

  // --- the steps -----------------------------------------------------------------------------------

  function RequestedCost(q: Request, transport: Transport): StepCost
    requires q.datagrams >= 0 && RequestedLength(q) >= 0
  {
    if transport == Udp then StepCost(q.datagrams, q.datagrams * RequestedLength(q), q.datagrams, 2, 0, 0, 0, 16_384)
    else StepCost(0, RequestedLength(q), 1, 2, 0, 0, 0, 16_384)
  }

  /** One step of the request: a UDP exchange or a TCP connection, at a requested port, with
      the requested timeout, cost and payload, and an identifier that binds all of it. */
  predicate AsRequested(env: Environment, q: Request, s: ProbeStep) {
    var f := s.fields;
    && q.datagrams >= 0 && RequestedLength(q) >= 0
    && f.transport.Some? && f.transport.value in q.transports && f.port.Some? && f.port.value in q.ports && 1 <= f.attempt <= q.repeats
    && (f.transport == Some(Udp) <==> f.kind == UdpExchange) && (f.transport == Some(Tcp) <==> f.kind == TcpConnect)
    && f.cost == RequestedCost(q, f.transport.value)
    && f.payload == (if f.transport == Some(Udp) then RequestedPayload(env, q) else NO_PAYLOAD)
    && f.timeout == q.timeout && f.required && f.serverName == None && f.httpScheme == None && f.maxHops == None
    && s.id == CartesianDigest(f.kind, f.target, f.address, f.scopeId, f.port, f.transport, f.attempt, f.sourceHostname, f.slot,
                               f.payload, f.cost, f.timeout)
  }

  lemma ShapedStep(env: Environment, q: Request, shape: Shape, place: Place, address: Target, s: ProbeStep)
    requires ReadAs(env, q, shape) && Sctp !in shape.transports
    requires OverPort(env.notation, shape, place, address, shape.ports, s)
    ensures AsRequested(env, q, s)
    ensures s.fields.target == env.notation.spell(place.target) && s.fields.address == Some(env.notation.spell(address))
    ensures s.fields.scopeId == (if address.AddressTarget? then address.scope else None)
    ensures s.fields.sourceHostname == place.source && s.fields.slot == place.slot
  {
    hide RequestedLength, RequestedDigest;
    var port :| port in shape.ports && OverTransport(env.notation, shape, place, address, port, shape.transports, s);
    var transport, a :| transport in shape.transports && 1 <= a <= shape.repeats
                        && s == StepFor(env.notation, shape, place, address, port, transport, a);
    assert port in q.ports && transport in q.transports;
    Commute(q.datagrams, RequestedLength(q));
  }

  lemma Commute(a: int, b: int)
    ensures a * b == b * a
  {
  }

  /** Every step of a published plan is one of its request's. */
  lemma {:induction false} StepsAsRequested(env: Environment, q: Request, resolver: Resolver, now: int, s: ProbeStep)
    requires Sound(env) && PreviewPlan(env, q, resolver, now).Ok? && s in PreviewPlan(env, q, resolver, now).value.steps
    ensures AsRequested(env, q, s)
    ensures s.fields.address.Some? && NamesTarget(env.notation, PreviewPlan(env, q, resolver, now).value.targets, s)
  {
    RequestReadExactly(env, q, now);
    SoundIsFaithful(env);
    ReadTargets(env, q, now);
    PublishedTargets(env, q, resolver, now);
    hide Sound, PreviewPlan, ReadRequest, ReadAs, AsRequested, RequestAcceptable, OverPort, Faithful, TargetsFaithful, NamesTarget;
    var place := PlacedStep(env, q, resolver, now, s);
    ShapedStep(env, q, ReadRequest(env, q, now).value, place, env.notation.parse(place.address).value, s);
    PlaceNames(env.notation, ReadRequest(env, q, now).value.targets, place, s);
  }

  /** Target and address read back: the one as a target of the plan, the other with the
      scope that the step carries. */
  predicate NamesTarget(n: Notation, targets: seq<Target>, s: ProbeStep)
    requires s.fields.address.Some?
  {
    var t, a := n.parse(s.fields.target), n.parse(s.fields.address.value);
    && t.Some? && t.value in targets && a.Some?
    && s.fields.scopeId == if a.value.AddressTarget? then a.value.scope else None
  }

  lemma PlaceNames(n: Notation, targets: seq<Target>, place: Place, s: ProbeStep)
    requires Faithful(n) && TargetsFaithful(n, targets) && place.target in targets && n.parse(place.address).Some?
    requires var address := n.parse(place.address).value;
             && s.fields.target == n.spell(place.target) && s.fields.address == Some(n.spell(address))
             && s.fields.scopeId == if address.AddressTarget? then address.scope else None
    ensures NamesTarget(n, targets, s)
  {
    var i :| 0 <= i < |targets| && targets[i] == place.target;
    assert n.parse(n.spell(targets[i])) == Some(targets[i]);
    hide DestinationAllowed;
  }

  lemma PublishedTargets(env: Environment, q: Request, resolver: Resolver, now: int)
    requires Sound(env) && PreviewPlan(env, q, resolver, now).Ok?
    ensures ReadRequest(env, q, now).Ok?
    ensures var p := PreviewPlan(env, q, resolver, now).value;
            p.targets == ReadRequest(env, q, now).value.targets && p.steps != []
  {
    CartesianParts(env, q, resolver, now);
    hide Sound, PreviewPlan, ReadRequest, Build, CompileSteps, HostResolutions, Places, Confirmations, Undated;
  }

  lemma PlacedStep(env: Environment, q: Request, resolver: Resolver, now: int, s: ProbeStep) returns (place: Place)
    requires Sound(env) && PreviewPlan(env, q, resolver, now).Ok? && s in PreviewPlan(env, q, resolver, now).value.steps
    ensures ReadRequest(env, q, now).Ok? && env.notation.parse(place.address).Some?
    ensures var shape := ReadRequest(env, q, now).value;
            && Sctp !in shape.transports
            && OverPort(env.notation, shape, place, env.notation.parse(place.address).value, shape.ports, s)
            && place.target in PreviewPlan(env, q, resolver, now).value.targets
  {
    hide Sound, HostResolutions, Confirmations, Undated, SnapshotsFaithful;
    CartesianParts(env, q, resolver, now);
    NoSctp(env, q, now);
    var n := env.notation;
    hide PreviewPlan, ReadRequest, ResolveAll, Build, CompileSteps, Places, EstimateOf, OverPort;
    var shape := ReadRequest(env, q, now).value;
    var snaps := ResolveAll(n, shape.grant, shape.targets, resolver, now).value;
    StepPlace(n, shape, Places(n, snaps, shape.targets), s);
    place :| place in Places(n, snaps, shape.targets) && n.parse(place.address).Some?
             && OverPort(n, shape, place, n.parse(place.address).value, shape.ports, s);
    PlaceTarget(n, snaps, shape.targets, place);
  }

  lemma {:induction false} StepPlace(n: Notation, shape: Shape, places: seq<Place>, s: ProbeStep)
    requires CompileSteps(n, shape, places).Ok? && s in CompileSteps(n, shape, places).value
    ensures exists place :: place in places && n.parse(place.address).Some?
                            && OverPort(n, shape, place, n.parse(place.address).value, shape.ports, s)
  {
    StepsExactly(n, shape, places, s);
    hide CompileSteps, OverPort;
  }

  lemma {:induction false} PlaceTarget(n: Notation, snaps: Snapshots, targets: seq<Target>, place: Place)
    requires Covers(snaps, targets) && place in Places(n, snaps, targets)
    ensures place.target in targets
  {
    var front, last := targets[..|targets| - 1], targets[|targets| - 1];
    assert targets == front + [last];
    if place in Places(n, snaps, front) {
      PlaceTarget(n, snaps, front, place);
    } else {
      hide Hosts;
      assert place in PlacesOf(n, snaps, last);
    }
  }

  // --- every combination has its step ------------------------------------------------------------

  predicate HasStep(steps: seq<ProbeStep>, target: string, address: string, port: nat, transport: Transport, attempt: nat) {
    exists s :: s in steps && s.fields.target == target && s.fields.address == Some(address) && s.fields.port == Some(port)
                && s.fields.transport == Some(transport) && s.fields.attempt == attempt
  }

  lemma {:induction false} PlaceStepped(
    n: Notation, shape: Shape, places: seq<Place>, place: Place, port: nat, transport: Transport, attempt: nat)
    requires CompileSteps(n, shape, places).Ok? && place in places
    requires port in shape.ports && transport in shape.transports && 1 <= attempt <= shape.repeats
    ensures n.parse(place.address).Some?
    ensures HasStep(CompileSteps(n, shape, places).value, n.spell(place.target), n.spell(n.parse(place.address).value),
                    port, transport, attempt)
  {
    PlacesParse(n, shape, places);
    var address := n.parse(place.address).value;
    var s := StepFor(n, shape, place, address, port, transport, attempt);
    assert OverTransport(n, shape, place, address, port, shape.transports, s);
    assert OverPort(n, shape, place, address, shape.ports, s);
    StepsExactly(n, shape, places, s);
    hide CompileSteps, Cost, Identify;
  }

  /** The addresses that a target of the plan stands for: its own, the hosts of its network,
      or those that its hostname was resolved to. */
  predicate StandsFor(n: Notation, resolutions: seq<Resolution>, t: Target, address: string) {
    match t
    case AddressTarget(_, _) => address == n.spell(t)
    case NetworkTarget(network) => exists h :: h in Hosts(network) && address == n.spell(AddressTarget(h, None))
    case HostTarget(name) => exists r :: r in resolutions && r.hostname == name && address in r.addresses
  }

  /** Every address, port, transport and attempt that was asked for has its step. */
  lemma {:induction false} EveryCombinationStepped(
    env: Environment, q: Request, resolver: Resolver, now: int, t: Target, address: string, port: nat, transport: Transport, attempt: nat)
    requires Sound(env) && PreviewPlan(env, q, resolver, now).Ok?
    requires var p := PreviewPlan(env, q, resolver, now).value;
             t in p.targets && StandsFor(env.notation, p.resolutions, t, address)
    requires port in q.ports && transport in q.transports && 1 <= attempt <= q.repeats
    ensures HasStep(PreviewPlan(env, q, resolver, now).value.steps, env.notation.spell(t), address, port, transport, attempt)
  {
    CartesianParts(env, q, resolver, now);
    PublishedTargets(env, q, resolver, now);
    RequestReadExactly(env, q, now);
    SoundIsFaithful(env);
    ReadTargets(env, q, now);
    var n, p := env.notation, PreviewPlan(env, q, resolver, now).value;
    var shape := ReadRequest(env, q, now).value;
    hide Sound, PreviewPlan, ReadRequest, ResolveAll, Build, CompileSteps, Places, EstimateOf, HostResolutions, RequestAcceptable,
         StandsFor, HasStep, Faithful, SnapshotsFaithful, TargetsFaithful, RequestedPayload, Respells;
    var snaps := ResolveAll(n, shape.grant, shape.targets, resolver, now).value;
    var place := PlaceOfAddress(n, shape.grant, snaps, shape.targets, t, address, now);
    PlaceStepped(n, shape, Places(n, snaps, shape.targets), place, port, transport, attempt);
    SpellsAgain(n, address);
  }

  /** The text is the canonical one of what it parses to. */
  predicate Respells(n: Notation, text: string) {
    n.parse(text).Some? ==> n.spell(n.parse(text).value) == text
  }

  lemma SpellsAgain(n: Notation, text: string)
    requires Respells(n, text) && n.parse(text).Some?
    ensures n.spell(n.parse(text).value) == text
  {
  }

  lemma PlaceOfAddress(n: Notation, g: Grant, snaps: Snapshots, targets: seq<Target>, t: Target, address: string, now: int)
    returns (place: Place)
    requires Covers(snaps, targets) && t in targets && StandsFor(n, HostResolutions(n, snaps, targets, now), t, address)
    requires Faithful(n) && TargetsFaithful(n, targets) && SnapshotsFaithful(n, g, snaps, targets)
    ensures place in Places(n, snaps, targets) && place.target == t && place.address == address && Respells(n, address)
  {
    hide Hosts, DestinationAllowed, AnswersPermitted, EndpointLess, Places, HostResolutions, Distinct;
    match t
    case AddressTarget(_, _) =>
      var k :| 0 <= k < |targets| && targets[k] == t;
      place := Place(t, address, None, None);
      TargetPlaces(n, snaps, targets, t, place);
    case NetworkTarget(network) =>
      var h :| h in Hosts(network) && address == n.spell(AddressTarget(h, None));
      place := Place(t, address, None, None);
      NetworkPlace(n, snaps, network, h);
      TargetPlaces(n, snaps, targets, t, place);
    case HostTarget(name) =>
      HostResolutionFound(n, snaps, targets, name, now);
      var i :| 0 <= i < |Texts(n, snaps[name])| && Texts(n, snaps[name])[i] == address;
      SlotPlace(n, snaps, targets, name, i);
      place := Place(t, address, Some(name), Some(i));
  }

  lemma NetworkPlace(n: Notation, snaps: Snapshots, network: Network, h: Address)
    requires h in Hosts(network)
    ensures Place(NetworkTarget(network), n.spell(AddressTarget(h, None)), None, None) in PlacesOf(n, snaps, NetworkTarget(network))
  {
    var hosts := Hosts(network);
    var i :| 0 <= i < |hosts| && hosts[i] == h;
    assert PlacesOf(n, snaps, NetworkTarget(network))[i] == Place(NetworkTarget(network), n.spell(AddressTarget(h, None)), None, None);
  }

  lemma {:induction false} TargetPlaces(n: Notation, snaps: Snapshots, targets: seq<Target>, t: Target, place: Place)
    requires Covers(snaps, targets) && t in targets && place in PlacesOf(n, snaps, t)
    ensures place in Places(n, snaps, targets)
  {
    var front, last := targets[..|targets| - 1], targets[|targets| - 1];
    assert targets == front + [last];
    hide PlacesOf;
    if t in front {
      TargetPlaces(n, snaps, front, t, place);
    }
  }

  // --- the plan around the steps -------------------------------------------------------------------

  /** What the plan says of its request, and the digest that binds all of it but the dates. */
  ghost predicate PlanAsRequested(env: Environment, q: Request, now: int, p: Preview) {
    && p.profile == q.profile && p.scope == q.grant && p.limits == q.limits && p.createdAt == now
    && (forall port: int :: port in q.ports <==> port >= 0 && port in p.ports)
    && (forall i, j :: 0 <= i < j < |p.ports| ==> p.ports[i] < p.ports[j])
    && (forall x :: x in q.transports <==> x in p.transports)
    && (forall t :: t in p.targets <==> exists v :: v in q.values && env.notation.parse(v) == Some(t))
    && p.repeats == q.repeats && p.payloadBytes == RequestedLength(q) && p.datagramsPerAttempt == q.datagrams
    && p.digest == Draft(p.profile, p.targets, p.ports, p.transports, p.repeats, p.payloadBytes, p.datagramsPerAttempt, p.steps,
                         p.scope, Undated(p.resolutions), p.limits, p.estimate, p.confirmations)
  }

  lemma {:induction false} PublishedAsRequested(env: Environment, q: Request, resolver: Resolver, now: int)
    requires Sound(env) && PreviewPlan(env, q, resolver, now).Ok?
    ensures PlanAsRequested(env, q, now, PreviewPlan(env, q, resolver, now).value)
  {
    CartesianParts(env, q, resolver, now);
    RequestReadExactly(env, q, now);
    ReadPortsAscend(env, q, now);
    hide Sound, PreviewPlan, ReadRequest, ResolveAll, Build, CompileSteps, Places, EstimateOf, HostResolutions, RequestAcceptable,
         Undated, Confirmations, SnapshotsFaithful, RequestedDigest, RequestedLength;
  }

  lemma ReadPortsAscend(env: Environment, q: Request, now: int)
    requires Sound(env) && ReadRequest(env, q, now).Ok?
    ensures var ports := ReadRequest(env, q, now).value.ports;
            && (forall i, j :: 0 <= i < j < |ports| ==> ports[i] < ports[j])
            && (forall i :: 0 <= i < |ports| ==> 1 <= ports[i] <= 65_535) && ports != []
  {
    ShapeFacts(env, q, now);
    hide Sound, ReadRequest, TargetsFaithful, AllAuthorized, LimitsWithin, InTextOrder, Spelled, Distinct;
  }

  /** A published plan keeps within its own limits, and those within the absolute ones. */
  lemma {:induction false} PlanWithinLimits(env: Environment, q: Request, resolver: Resolver, now: int)
    requires Sound(env) && PreviewPlan(env, q, resolver, now).Ok?
    ensures var p, l := PreviewPlan(env, q, resolver, now).value, q.limits;
            && |p.steps| <= l.maxAttempts <= 100_000 && Datagrams(p.steps) <= l.maxDatagrams <= 200_000
            && ApplicationBytes(p.steps) <= l.maxApplicationBytes <= 67_108_864 && Packets(p.steps) <= l.maxPackets <= 200_000
            && |p.ports| <= l.maxPorts <= 65_535 && |p.steps| + 5 <= l.maxEvents <= 100_000
            && |p.steps| * 512 + 4_096 <= l.maxOutputBytes <= 67_108_864
            && l.maxHosts <= 1_024 && l.maxGlobalRate <= 1_000 && l.maxTargetRate <= 100 && l.maxTargetRate <= l.maxGlobalRate
            && l.maxConcurrency <= 256 && l.maxConcurrency <= l.maxAttempts && l.maxDuration <= 3_600
  {
    CartesianParts(env, q, resolver, now);
    ReadParts(env, q, now);
    var n, shape := env.notation, ReadRequest(env, q, now).value;
    var snaps := ResolveAll(n, shape.grant, shape.targets, resolver, now).value;
    hide Sound, PreviewPlan, ReadRequest, ResolveAll, Build, CompileSteps, Places, HostResolutions, SnapshotsFaithful, HostTotal,
         Undated, Confirmations, Datagrams, ApplicationBytes, Packets, NormalizeTargets, PortsOf, TransportsOf, PayloadOf,
         AllAuthorized, StepsPermitted;
    BuildParts(n, shape, snaps, now);
  }

  // --- confirmations --------------------------------------------------------------------------------

  function UpTo(n: nat): set<nat> {
    if n == 0 then {} else UpTo(n - 1) + {n}
  }

  lemma {:induction false} UpToExactly(n: nat)
    ensures |UpTo(n)| == n
    ensures forall i: nat :: i in UpTo(n) <==> 1 <= i <= n
  {
    if n > 0 {
      UpToExactly(n - 1);
    }
  }

  /** Ascending ports up to `n` are all of them exactly when they are that many. */
  lemma AllPorts(ports: seq<nat>, n: nat)
    requires forall i, j :: 0 <= i < j < |ports| ==> ports[i] < ports[j]
    requires forall i :: 0 <= i < |ports| ==> 1 <= ports[i] <= n
    ensures |ports| == n <==> forall port: nat :: 1 <= port <= n ==> port in ports
    ensures |ports| == n && n > 0 ==> ports[0] == 1 && ports[n - 1] == n
  {
    var all := UpTo(n);
    UpToExactly(n);
    DistinctCount(ports);
    hide UpTo;
    assert Elements(ports) <= all;
    if |ports| == n {
      SameSize(Elements(ports), all);
      forall port: nat | 1 <= port <= n ensures port in ports {
        assert port in Elements(ports);
      }
      if n > 0 {
        assert 1 in ports && n in ports;
        PortPlaces(ports, n);
      }
    }
    if forall port: nat :: 1 <= port <= n ==> port in ports {
      forall port | port in all ensures port in Elements(ports) {
        assert 1 <= port <= n;
      }
      assert Elements(ports) == all;
    }
  }

  lemma PortPlaces(ports: seq<nat>, n: nat)
    requires forall i, j :: 0 <= i < j < |ports| ==> ports[i] < ports[j]
    requires forall i :: 0 <= i < |ports| ==> 1 <= ports[i] <= n
    requires n > 0 && |ports| == n && 1 in ports && n in ports
    ensures ports[0] == 1 && ports[n - 1] == n
  {
    var i :| 0 <= i < |ports| && ports[i] == 1;
    var j :| 0 <= j < |ports| && ports[j] == n;
  }

  lemma SameSize<T>(a: set<T>, b: set<T>)
    requires a <= b && |a| == |b|
    ensures a == b
  {
    assert b == a + (b - a);
  }

  /** A plan asks for the full-scan confirmations exactly when it has every port, one for
      each of its transports, and for the custom one exactly when its payload has a digest. */
  lemma {:induction false} ConfirmationsExactly(env: Environment, q: Request, resolver: Resolver, now: int)
    requires Sound(env) && PreviewPlan(env, q, resolver, now).Ok?
    ensures var c := PreviewPlan(env, q, resolver, now).value.confirmations;
            var full := forall port: int :: 1 <= port <= 65_535 ==> port in q.ports;
            && (FullTcp in c <==> full && Tcp in q.transports) && (FullUdp in c <==> full && Udp in q.transports)
            && (CustomUdp in c <==> RequestedDigest(env, q).Some?) && Distinct(c)
  {
    CartesianParts(env, q, resolver, now);
    RequestReadExactly(env, q, now);
    ReadPortsAscend(env, q, now);
    hide Sound, PreviewPlan, ReadRequest, ResolveAll, Build, CompileSteps, Places, EstimateOf, HostResolutions, RequestAcceptable,
         Undated, SnapshotsFaithful, RequestedDigest, RequestedLength, Confirmations;
    var shape := ReadRequest(env, q, now).value;
    ConfirmationsOf(shape);
    FullRange(q.ports, shape.ports);
  }

  lemma ConfirmationsOf(shape: Shape)
    requires forall i, j :: 0 <= i < j < |shape.ports| ==> shape.ports[i] < shape.ports[j]
    requires forall i :: 0 <= i < |shape.ports| ==> 1 <= shape.ports[i] <= 65_535
    ensures var c, full := Confirmations(shape), forall port: nat :: 1 <= port <= 65_535 ==> port in shape.ports;
            && (FullTcp in c <==> full && Tcp in shape.transports) && (FullUdp in c <==> full && Udp in shape.transports)
            && (CustomUdp in c <==> shape.payload.sha256.Some?) && Distinct(c)
  {
    AllPorts(shape.ports, 65_535);
  }

  lemma FullRange(asked: seq<int>, ports: seq<nat>)
    requires forall port: int :: port in asked <==> port >= 0 && port in ports
    ensures (forall port: int :: 1 <= port <= 65_535 ==> port in asked) <==> forall port: nat :: 1 <= port <= 65_535 ==> port in ports
  {
  }
}
