/** The validator that recompiles a preview and demands the same preview back. */
module Revalidation {
  import opened Outcomes
  import opened Collections
  import opened Networks
  import opened Plans
  import opened Policy
  import opened Cartesian
  import opened CartesianTheorems
  import Sparse

  const SPARSE_PROFILES: set<string> := {"internal-mapping-v1", "coverage-v2"}

  function StepPayloads(steps: seq<ProbeStep>): set<Payload> {
    set s | s in steps :: s.fields.payload
  }

  function StepTimeouts(steps: seq<ProbeStep>): set<real> {
    set s | s in steps :: s.fields.timeout
  }

  function Sources(steps: seq<ProbeStep>): set<string> {
    set s | s in steps && s.fields.sourceHostname.Some? :: s.fields.sourceHostname.value
  }

  function Snapshotted(resolutions: seq<Resolution>): set<string> {
    set r | r in resolutions :: r.hostname
  }

  /** The shape test that picks the compiler. */
  predicate RoutesSparse(p: Preview) {
    || p.profile in SPARSE_PROFILES
    || (exists i :: 0 <= i < |p.steps| && p.steps[i].fields.kind !in {TcpConnect, UdpExchange})
    || |StepPayloads(p.steps)| > 1
  }

  /** `snapshots[hostname].addresses`; a missing name fails the recompilation. */
  function ReplayAnswers(resolutions: seq<Resolution>, name: string): seq<Answer> {
    if resolutions == [] then [Unsupported]
    else if resolutions[|resolutions| - 1].hostname == name then Literals(resolutions[|resolutions| - 1].addresses)
    else ReplayAnswers(resolutions[..|resolutions| - 1], name)
  }

  function Replay(resolutions: seq<Resolution>): Resolver {
    (name: string) => ReplayAnswers(resolutions, name)
  }

  function SpecsOf(steps: seq<ProbeStep>): seq<StepFields> {
    seq(|steps|, i requires 0 <= i < |steps| => steps[i].fields)
  }

  function RequestOf(n: Notation, p: Preview): Request
    requires p.steps != []
  {
    var payload := p.steps[0].fields.payload;
    Request(
      Spelled(n, p.targets), p.ports, p.transports, p.scope, p.profile, p.repeats, p.payloadBytes, p.datagramsPerAttempt,
      p.limits, payload.sha256.Some?, None, payload.sha256,
      if payload.sha256.Some? then None else Some(payload.profile), p.steps[0].fields.timeout)
  }

  function Recompile(env: Environment, p: Preview): Result<Preview, Failure> {
    if RoutesSparse(p) then
      Sparse.PreviewProbePlan(env, SpecsOf(p.steps), p.scope, p.profile, p.limits, p.createdAt)
    else if p.steps == [] || |StepPayloads(p.steps)| != 1 || |StepTimeouts(p.steps)| != 1 then Err(ConfirmationFailure)
    else PreviewPlan(env, RequestOf(env.notation, p), Replay(p.resolutions), p.createdAt)
  }

  /** `validate_preview`. */
  function ValidatePreview(env: Environment, p: Preview, now: int): Result<Preview, Failure> {
    if p.createdAt > now then Err(ConfirmationFailure)
    else if !Current(p.scope, now) then Err(PolicyFailure)
    else if Snapshotted(p.resolutions) != Sources(p.steps) then Err(ConfirmationFailure)
    else
      var rebuilt := Recompile(env, p);
      if rebuilt == Ok(p) then rebuilt else Err(ConfirmationFailure)
  }

  lemma ValidatesExactly(env: Environment, p: Preview, now: int)
    ensures ValidatePreview(env, p, now) == Ok(p) <==>
              && p.createdAt <= now && Current(p.scope, now)
              && Snapshotted(p.resolutions) == Sources(p.steps) && Recompile(env, p) == Ok(p)
  {
    hide Recompile, Current, Snapshotted, Sources;
  }

  // --- what a Cartesian plan shows of its request ---------------------------------------------

  /** Whether the steps agree on one payload. */
  predicate UniformPayload(transports: seq<Transport>, payload: Payload) {
    !(Tcp in transports && Udp in transports) || payload == NO_PAYLOAD
  }

  lemma {:induction false} StepShows(n: Notation, shape: Shape, places: seq<Place>, s: ProbeStep)
    requires CompileSteps(n, shape, places).Ok? && s in CompileSteps(n, shape, places).value
    ensures s.id.CartesianDigest? && s.fields.kind in {TcpConnect, UdpExchange} && s.fields.timeout == shape.timeout
    ensures s.fields.transport.Some? && s.fields.transport.value in shape.transports
    ensures s.fields.payload == if s.fields.transport.value.Udp? then shape.payload else NO_PAYLOAD
    ensures exists place :: place in places && s.fields.sourceHostname == place.source
  {
    StepsExactly(n, shape, places, s);
    hide CompileSteps, OverPort, OverTransport;
    var place :| place in places && n.parse(place.address).Some?
                 && OverPort(n, shape, place, n.parse(place.address).value, shape.ports, s);
    OnePortShows(n, shape, place, n.parse(place.address).value, s);
  }

  lemma OnePortShows(n: Notation, shape: Shape, place: Place, address: Target, s: ProbeStep)
    requires OverPort(n, shape, place, address, shape.ports, s)
    ensures s.id.CartesianDigest? && s.fields.kind in {TcpConnect, UdpExchange} && s.fields.timeout == shape.timeout
    ensures s.fields.transport.Some? && s.fields.transport.value in shape.transports
    ensures s.fields.payload == if s.fields.transport.value.Udp? then shape.payload else NO_PAYLOAD
    ensures s.fields.sourceHostname == place.source
  {
    hide Cost;
  }

  /** Each place and transport has a step. */
  lemma StepReaches(n: Notation, shape: Shape, places: seq<Place>, place: Place, transport: Transport) returns (s: ProbeStep)
    requires CompileSteps(n, shape, places).Ok? && place in places && transport in shape.transports
    requires shape.ports != [] && shape.repeats >= 1
    ensures s in CompileSteps(n, shape, places).value
    ensures s.fields.transport == Some(transport) && s.fields.sourceHostname == place.source
    ensures s.fields.payload == if transport.Udp? then shape.payload else NO_PAYLOAD
  {
    PlacesParse(n, shape, places);
    var address := n.parse(place.address).value;
    s := StepFor(n, shape, place, address, shape.ports[0], transport, 1);
    assert OverTransport(n, shape, place, address, shape.ports[0], shape.transports, s);
    assert OverPort(n, shape, place, address, shape.ports, s);
    StepsExactly(n, shape, places, s);
    hide CompileSteps;
  }

  lemma AtMostOne<T>(s: set<T>)
    ensures |s| <= 1 <==> forall a, b :: a in s && b in s ==> a == b
  {
    if a, b :| a in s && b in s && a != b {
      assert {a, b} <= s;
      assert |s - {a, b}| == |s| - 2;
    } else if s != {} {
      var a :| a in s;
      assert s == {a};
    }
  }

  /** The router's payload count on compiled steps. */
  lemma {:induction false} CompiledPayloads(n: Notation, shape: Shape, places: seq<Place>)
    requires CompileSteps(n, shape, places).Ok? && places != []
    requires shape.ports != [] && shape.repeats >= 1 && shape.transports != [] && Sctp !in shape.transports
    ensures var steps := CompileSteps(n, shape, places).value;
            && (|StepPayloads(steps)| <= 1 <==> UniformPayload(shape.transports, shape.payload))
            && StepTimeouts(steps) == {shape.timeout}
  {
    hide CompileSteps;
    var steps := CompileSteps(n, shape, places).value;
    var payloads := StepPayloads(steps);
    AtMostOne(payloads);
    forall s | s in steps
      ensures s.fields.timeout == shape.timeout
      ensures (s.fields.payload == NO_PAYLOAD && Tcp in shape.transports) || (s.fields.payload == shape.payload && Udp in shape.transports)
    {
      StepShows(n, shape, places, s);
    }
    var some := StepReaches(n, shape, places, places[0], shape.transports[0]);
    if Tcp in shape.transports && Udp in shape.transports {
      var t := StepReaches(n, shape, places, places[0], Tcp);
      var u := StepReaches(n, shape, places, places[0], Udp);
      assert NO_PAYLOAD in payloads && shape.payload in payloads;
    }
  }

  // --- the recompiled request reads the same -----------------------------------------------------

  lemma PortsFixed(ports: seq<nat>)
    requires Ascending(PortLess, ports) && ports != []
    requires forall i :: 0 <= i < |ports| ==> 1 <= ports[i] <= 65_535
    ensures PortsOf(ports) == Ok(ports)
  {
    assert AsPorts(ports) == ports;
    CanonicalAscends(PortLess, ports);
    AscendingUnique(PortLess, ports, Canonical(PortLess, ports));
  }

  lemma TransportsFixed(transports: seq<Transport>)
    requires transports != [] && Sctp !in transports && transports == InTextOrder(Elements(transports))
    ensures TransportsOf(transports) == Ok(transports)
  {
  }

  /** The payload that the first step carries leads back to it. */
  lemma PayloadFixed(env: Environment, q: Request, q': Request)
    requires PayloadOf(env, q).Ok?
    requires q'.payloadBytes == PayloadOf(env, q).value.length && q'.udpPayload.None?
    requires var payload := PayloadOf(env, q).value;
             || (q'.custom == payload.sha256.Some? && q'.sha256 == payload.sha256
                 && q'.payloadProfile == if payload.sha256.Some? then None else Some(payload.profile))
             || (!q'.custom && q'.sha256.None? && q'.payloadProfile == Some("none-v1"))
    ensures var payload := PayloadOf(env, q).value;
            PayloadOf(env, q') ==
              Ok(if q'.payloadProfile == Some("none-v1") then Payload("none-v1", payload.length, None) else payload)
  {
    hide Hex64;
    assert ProfileName("none-v1") && ProfileName("zero-bytes-v1");
  }

  // --- the recompiled hostnames resolve the same ----------------------------------------------------

  lemma {:induction false} ResolveAllSame(n: Notation, g: Grant, targets: seq<Target>, r1: Resolver, r2: Resolver, now: int)
    requires forall t :: t in targets && t.HostTarget? ==>
               ResolveForPlan(n, g, t.name, r1, now) == ResolveForPlan(n, g, t.name, r2, now)
    ensures ResolveAll(n, g, targets, r1, now) == ResolveAll(n, g, targets, r2, now)
  {
    hide ResolveForPlan;
    if targets != [] {
      ResolveAllSame(n, g, targets[..|targets| - 1], r1, r2, now);
      assert targets[|targets| - 1] in targets;
    }
  }

  lemma {:induction false} ReplayFinds(n: Notation, snaps: Snapshots, targets: seq<Target>, name: string, now: int)
    requires Covers(snaps, targets) && HostTarget(name) in targets
    ensures ReplayAnswers(HostResolutions(n, snaps, targets, now), name) == Literals(Texts(n, snaps[name]))
  {
    var front, last := targets[..|targets| - 1], targets[|targets| - 1];
    var before := HostResolutions(n, snaps, front, now);
    assert targets == front + [last];
    if last.HostTarget? {
      var added := Resolution(last.name, Texts(n, snaps[last.name]), now);
      assert (before + [added])[..|before|] == before;
    } else {
      assert before + [] == before;
    }
    if last != HostTarget(name) {
      ReplayFinds(n, snaps, front, name, now);
    }
  }

  lemma {:induction false} ReplayResolves(n: Notation, g: Grant, targets: seq<Target>, resolver: Resolver, now: int)
    requires Faithful(n) && ResolveAll(n, g, targets, resolver, now).Ok?
    ensures var snaps := ResolveAll(n, g, targets, resolver, now).value;
            ResolveAll(n, g, targets, Replay(HostResolutions(n, snaps, targets, now)), now) == Ok(snaps)
  {
    hide ResolveAll, Faithful, EndpointLess, DestinationAllowed, Authorized;
    var snaps := ResolveAll(n, g, targets, resolver, now).value;
    ResolveAllFaithful(n, g, targets, resolver, now);
    var replay := Replay(HostResolutions(n, snaps, targets, now));
    forall t | t in targets && t.HostTarget?
      ensures ResolveForPlan(n, g, t.name, resolver, now) == ResolveForPlan(n, g, t.name, replay, now)
    {
      ReplayFinds(n, snaps, targets, t.name, now);
      ReplayResolved(n, snaps[t.name]);
    }
    ResolveAllSame(n, g, targets, resolver, replay, now);
  }

  // --- the rest depends on the payload only through its steps ---------------------------------------

  /** Shapes that differ at most in a payload that no step carries. */
  predicate SameSteps(shape: Shape, shape': Shape) {
    && shape' == shape.(payload := shape'.payload)
    && shape'.payload.length == shape.payload.length
    && (Udp in shape.transports ==> shape'.payload == shape.payload)
  }

  lemma {:induction false} AttemptsSame(
    n: Notation, shape: Shape, shape': Shape, place: Place, address: Target, port: nat, transport: Transport, k: nat)
    requires SameSteps(shape, shape') && transport in shape.transports
    ensures Attempts(n, shape, place, address, port, transport, k) == Attempts(n, shape', place, address, port, transport, k)
  {
    if k > 0 {
      AttemptsSame(n, shape, shape', place, address, port, transport, k - 1);
    }
  }

  lemma {:induction false} TransportsSame(
    n: Notation, shape: Shape, shape': Shape, place: Place, address: Target, port: nat, transports: seq<Transport>)
    requires SameSteps(shape, shape') && forall t :: t in transports ==> t in shape.transports
    ensures OverTransports(n, shape, place, address, port, transports) == OverTransports(n, shape', place, address, port, transports)
  {
    hide Attempts;
    if transports != [] {
      TransportsSame(n, shape, shape', place, address, port, transports[..|transports| - 1]);
      AttemptsSame(n, shape, shape', place, address, port, transports[|transports| - 1], shape.repeats);
    }
  }

  lemma {:induction false} PortsSame(n: Notation, shape: Shape, shape': Shape, place: Place, address: Target, ports: seq<nat>)
    requires SameSteps(shape, shape')
    ensures OverPorts(n, shape, place, address, ports) == OverPorts(n, shape', place, address, ports)
  {
    hide OverTransports;
    if ports != [] {
      PortsSame(n, shape, shape', place, address, ports[..|ports| - 1]);
      TransportsSame(n, shape, shape', place, address, ports[|ports| - 1], shape.transports);
    }
  }

  lemma {:induction false} CompileSame(n: Notation, shape: Shape, shape': Shape, places: seq<Place>)
    requires SameSteps(shape, shape')
    ensures CompileSteps(n, shape, places) == CompileSteps(n, shape', places)
  {
    hide OverPorts;
    if places != [] {
      CompileSame(n, shape, shape', places[..|places| - 1]);
      var last := places[|places| - 1];
      if n.parse(last.address).Some? {
        PortsSame(n, shape, shape', last, n.parse(last.address).value, shape.ports);
      }
    }
  }

  lemma BuildSame(n: Notation, shape: Shape, shape': Shape, snaps: Snapshots, now: int)
    requires SameSteps(shape, shape') && Covers(snaps, shape.targets)
    requires shape'.payload.sha256 == shape.payload.sha256
    ensures Build(n, shape, snaps, now) == Build(n, shape', snaps, now)
  {
    CompileSame(n, shape, shape', Places(n, snaps, shape.targets));
    hide CompileSteps, Places, HostTotal, Checked, HostResolutions, EstimateWithin, Datagrams, ApplicationBytes, Packets, Undated;
  }

  // --- Cartesian plans --------------------------------------------------------------------------------

  /** What reading and building have put into a published Cartesian plan. */
  lemma {:induction false} CartesianParts(env: Environment, q: Request, resolver: Resolver, now: int)
    requires Sound(env) && PreviewPlan(env, q, resolver, now).Ok?
    ensures var n, p := env.notation, PreviewPlan(env, q, resolver, now).value;
            ReadRequest(env, q, now).Ok? &&
            var shape := ReadRequest(env, q, now).value;
            ResolveAll(n, shape.grant, shape.targets, resolver, now).Ok? &&
            var snaps := ResolveAll(n, shape.grant, shape.targets, resolver, now).value;
            var places := Places(n, snaps, shape.targets);
            && Build(n, shape, snaps, now) == Ok(p)
            && CompileSteps(n, shape, places) == Ok(p.steps) && places != [] && p.steps != []
            && SnapshotsFaithful(n, shape.grant, snaps, shape.targets)
            && p == Publish(shape, HostResolutions(n, snaps, shape.targets, now), p.steps, p.estimate, now)
  {
    hide ReadRequest, ResolveAll, Build;
    var n, shape := env.notation, ReadRequest(env, q, now).value;
    var snaps := ResolveAll(n, shape.grant, shape.targets, resolver, now).value;
    hide PreviewPlan;
    ShapeFacts(env, q, now);
    hide LimitsWithin, InTextOrder, AllAuthorized, TargetsFaithful, Ascending, Spelled, Distinct;
    SoundIsFaithful(env);
    hide Sound, Faithful;
    ResolveAllFaithful(n, shape.grant, shape.targets, resolver, now);
    SomePlace(n, shape.grant, snaps, shape.targets);
    BuildParts(n, shape, snaps, now);
    hide SnapshotsFaithful, Publish, Places, CompileSteps;
    StepsExist(n, shape, Places(n, snaps, shape.targets));
  }

  lemma ReadFixed(env: Environment, q: Request, q': Request, payload: Payload, now: int)
    requires Sound(env) && ReadRequest(env, q, now).Ok? && PayloadOf(env, q') == Ok(payload)
    requires var shape := ReadRequest(env, q, now).value;
             && q'.values == Spelled(env.notation, shape.targets) && q'.ports == shape.ports
             && q'.transports == shape.transports && q'.grant == shape.grant && q'.profile == shape.profile
             && q'.repeats == shape.repeats && q'.datagrams == shape.datagrams && q'.limits == shape.limits
             && q'.timeout == shape.timeout
    ensures ReadRequest(env, q', now) == Ok(ReadRequest(env, q, now).value.(payload := payload))
  {
    hide PayloadOf, LimitsWithin, AllAuthorized, PortsOf, TransportsOf, NormalizeTargets, StepsPermitted, Sound, InTextOrder, Distinct,
         Spelled, DestinationAllowed, TextLess, PortLess, Hex64, Faithful;
    var shape := ReadRequest(env, q, now).value;
    ShapeFacts(env, q, now);
    NormalizeSpelled(env.notation, shape.targets);
    PortsFixed(shape.ports);
    TransportsFixed(shape.transports);
    hide Ascending;
  }

  /** The stages of a published plan and what its request is rebuilt from. */
  lemma CartesianStages(env: Environment, q: Request, resolver: Resolver, now: int) returns (shape: Shape, snaps: Snapshots)
    requires Sound(env) && PreviewPlan(env, q, resolver, now).Ok?
    ensures var n, p := env.notation, PreviewPlan(env, q, resolver, now).value;
            && ReadRequest(env, q, now) == Ok(shape) && PayloadOf(env, q) == Ok(shape.payload)
            && ResolveAll(n, shape.grant, shape.targets, resolver, now) == Ok(snaps)
            && Covers(snaps, shape.targets) && Build(n, shape, snaps, now) == Ok(p)
            && (shape.payload.sha256.Some? ==> Udp in shape.transports) && Sctp !in shape.transports
            && p.resolutions == HostResolutions(n, snaps, shape.targets, now)
            && PublishedFrom(p, shape) && p.steps != []
            && FirstStep(p.steps[0], shape)
  {
    hide Sound, PayloadOf, HostResolutions, Confirmations, Undated, SnapshotsFaithful, PublishedFrom, FirstStep;
    CartesianParts(env, q, resolver, now);
    var n, p := env.notation, PreviewPlan(env, q, resolver, now).value;
    hide PreviewPlan, ReadRequest, ResolveAll, Build, CompileSteps, Places, EstimateOf;
    shape := ReadRequest(env, q, now).value;
    snaps := ResolveAll(n, shape.grant, shape.targets, resolver, now).value;
    NoSctp(env, q, now);
    ReadsPayload(env, q, now);
    BuildChecksCustom(n, shape, snaps, now);
    PublishesShape(shape, p.resolutions, p.steps, p.estimate, now);
    StepShowsFirst(n, shape, Places(n, snaps, shape.targets), p.steps[0]);
  }

  lemma NoSctp(env: Environment, q: Request, now: int)
    requires Sound(env) && ReadRequest(env, q, now).Ok?
    ensures var shape := ReadRequest(env, q, now).value;
            Sctp !in shape.transports && shape.transports != [] && shape.ports != [] && shape.repeats >= 1
  {
    hide Sound, ReadRequest, Ascending, Distinct, TargetsFaithful, AllAuthorized, LimitsWithin, InTextOrder;
    ShapeFacts(env, q, now);
  }

  predicate PublishedFrom(p: Preview, shape: Shape) {
    && p.targets == shape.targets && p.ports == shape.ports && p.transports == shape.transports
    && p.scope == shape.grant && p.profile == shape.profile && p.repeats == shape.repeats
    && p.payloadBytes == shape.payload.length && p.datagramsPerAttempt == shape.datagrams && p.limits == shape.limits
  }

  predicate FirstStep(s: ProbeStep, shape: Shape) {
    && s.fields.timeout == shape.timeout
    && s.fields.transport.Some? && s.fields.transport.value in shape.transports
    && s.fields.payload == if s.fields.transport.value.Udp? then shape.payload else NO_PAYLOAD
  }

  lemma PublishesShape(shape: Shape, resolutions: seq<Resolution>, steps: seq<ProbeStep>, estimate: Estimate, now: int)
    ensures PublishedFrom(Publish(shape, resolutions, steps, estimate, now), shape)
  {
  }

  lemma {:induction false} StepShowsFirst(n: Notation, shape: Shape, places: seq<Place>, s: ProbeStep)
    requires CompileSteps(n, shape, places).Ok? && s in CompileSteps(n, shape, places).value
    ensures FirstStep(s, shape)
  {
    hide CompileSteps;
    StepShows(n, shape, places, s);
  }

  /** Recompiling a published Cartesian plan whose steps agree on one payload gives the
      plan back: targets, steps, sums, resolutions and digest. */
  lemma CartesianFixpoint(env: Environment, q: Request, resolver: Resolver, now: int)
    requires Sound(env) && PreviewPlan(env, q, resolver, now).Ok?
    requires var shape := ReadRequest(env, q, now).value; UniformPayload(shape.transports, shape.payload)
    ensures var p := PreviewPlan(env, q, resolver, now).value;
            p.steps != [] && PreviewPlan(env, RequestOf(env.notation, p), Replay(p.resolutions), now) == Ok(p)
  {
    hide Sound, PreviewPlan, ReadRequest, ResolveAll, Build, HostResolutions, PayloadOf, Spelled, Replay, UniformPayload;
    var n, p := env.notation, PreviewPlan(env, q, resolver, now).value;
    var shape, snaps := CartesianStages(env, q, resolver, now);
    var q' := RequestOf(n, p);
    var payload := RecompiledPayload(env, q, shape, p);
    ReadFixed(env, q, q', payload, now);
    SoundIsFaithful(env);
    ReplayResolves(n, shape.grant, shape.targets, resolver, now);
    BuildSame(n, shape, shape.(payload := payload), snaps, now);
    PreviewOf(env, q', Replay(p.resolutions), now, shape.(payload := payload), snaps);
  }

  lemma {:induction false} PreviewOf(env: Environment, q: Request, resolver: Resolver, now: int, shape: Shape, snaps: Snapshots)
    requires ReadRequest(env, q, now) == Ok(shape)
    requires ResolveAll(env.notation, shape.grant, shape.targets, resolver, now) == Ok(snaps)
    requires Covers(snaps, shape.targets)
    ensures PreviewPlan(env, q, resolver, now) == Build(env.notation, shape, snaps, now)
  {
    hide ReadRequest, ResolveAll, Build;
  }

  lemma RecompiledPayload(env: Environment, q: Request, shape: Shape, p: Preview) returns (payload: Payload)
    requires PayloadOf(env, q) == Ok(shape.payload) && UniformPayload(shape.transports, shape.payload)
    requires shape.payload.sha256.Some? ==> Udp in shape.transports
    requires PublishedFrom(p, shape) && p.steps != [] && FirstStep(p.steps[0], shape) && Sctp !in shape.transports
    ensures PayloadOf(env, RequestOf(env.notation, p)) == Ok(payload)
    ensures SameSteps(shape, shape.(payload := payload)) && payload.sha256 == shape.payload.sha256
  {
    hide PayloadOf, Spelled;
    PayloadFixed(env, q, RequestOf(env.notation, p));
    payload := PayloadOf(env, RequestOf(env.notation, p)).value;
  }

  lemma ReadsPayload(env: Environment, q: Request, now: int)
    requires ReadRequest(env, q, now).Ok?
    ensures PayloadOf(env, q) == Ok(ReadRequest(env, q, now).value.payload)
  {
    hide PayloadOf, LimitsWithin, AllAuthorized, PortsOf, TransportsOf, NormalizeTargets, StepsPermitted;
  }

  lemma ReadsProfile(env: Environment, q: Request, now: int)
    requires ReadRequest(env, q, now).Ok?
    ensures var shape := ReadRequest(env, q, now).value; shape.profile == q.profile && shape.grant == q.grant
  {
    hide PayloadOf, LimitsWithin, AllAuthorized, PortsOf, TransportsOf, NormalizeTargets, StepsPermitted;
  }

  lemma BuildChecksCustom(n: Notation, shape: Shape, snaps: Snapshots, now: int)
    requires Covers(snaps, shape.targets) && Build(n, shape, snaps, now).Ok?
    ensures shape.payload.sha256.Some? ==> Udp in shape.transports
  {
    hide CompileSteps, Places, HostTotal, Checked, HostResolutions, EstimateWithin, Datagrams, ApplicationBytes, Packets, Publish;
  }

  lemma {:induction false} PlaceSources(n: Notation, snaps: Snapshots, targets: seq<Target>, name: string)
    requires Covers(snaps, targets) && forall t :: t in targets && t.HostTarget? ==> snaps[t.name] != []
    ensures (exists place :: place in Places(n, snaps, targets) && place.source == Some(name)) <==> HostTarget(name) in targets
  {
    if targets != [] {
      var front, last := targets[..|targets| - 1], targets[|targets| - 1];
      assert targets == front + [last];
      PlaceSources(n, snaps, front, name);
      var added := PlacesOf(n, snaps, last);
      assert (exists place :: place in added && place.source == Some(name)) <==> last == HostTarget(name) by {
        hide Hosts;
        if last == HostTarget(name) {
          assert added[0].source == Some(name);
        }
      }
      hide PlacesOf;
    }
  }

  lemma {:induction false} ResolutionNames(n: Notation, snaps: Snapshots, targets: seq<Target>, name: string, now: int)
    requires Covers(snaps, targets)
    ensures name in Snapshotted(HostResolutions(n, snaps, targets, now)) <==> HostTarget(name) in targets
  {
    if targets != [] {
      var front, last := targets[..|targets| - 1], targets[|targets| - 1];
      assert targets == front + [last];
      ResolutionNames(n, snaps, front, name, now);
      var before := HostResolutions(n, snaps, front, now);
      if last.HostTarget? {
        var added := Resolution(last.name, Texts(n, snaps[last.name]), now);
        assert Snapshotted(before + [added]) == Snapshotted(before) + {last.name};
      } else {
        assert before + [] == before;
      }
    }
  }

  /** Snapshots and hostname steps of a published plan name the same hosts. */
  lemma CartesianSources(env: Environment, q: Request, resolver: Resolver, now: int)
    requires Sound(env) && PreviewPlan(env, q, resolver, now).Ok?
    ensures var p := PreviewPlan(env, q, resolver, now).value; Snapshotted(p.resolutions) == Sources(p.steps)
  {
    hide Sound, HostResolutions, Confirmations, Undated;
    CartesianParts(env, q, resolver, now);
    var n, p := env.notation, PreviewPlan(env, q, resolver, now).value;
    hide PreviewPlan, ReadRequest, ResolveAll, Build, CompileSteps, Places, EstimateOf;
    var shape := ReadRequest(env, q, now).value;
    var snaps := ResolveAll(n, shape.grant, shape.targets, resolver, now).value;
    var places := Places(n, snaps, shape.targets);
    NoSctp(env, q, now);
    hide AnswersPermitted, EndpointLess, DestinationAllowed;
    assert p.resolutions == HostResolutions(n, snaps, shape.targets, now);
    forall name ensures name in Snapshotted(p.resolutions) <==> name in Sources(p.steps) {
      ResolutionNames(n, snaps, shape.targets, name, now);
      PlaceSources(n, snaps, shape.targets, name);
      NamedStep(n, shape, places, p.steps, name);
    }
  }

  lemma {:induction false} NamedStep(n: Notation, shape: Shape, places: seq<Place>, steps: seq<ProbeStep>, name: string)
    requires CompileSteps(n, shape, places) == Ok(steps)
    requires shape.ports != [] && shape.repeats >= 1 && shape.transports != []
    ensures name in Sources(steps) <==> exists place :: place in places && place.source == Some(name)
  {
    hide CompileSteps;
    if place :| place in places && place.source == Some(name) {
      var s := StepReaches(n, shape, places, place, shape.transports[0]);
    }
    forall s | s in steps && s.fields.sourceHostname == Some(name)
      ensures exists place :: place in places && place.source == Some(name)
    {
      StepShows(n, shape, places, s);
    }
  }

  /** Where the router sends a published Cartesian plan. */
  lemma CartesianRoute(env: Environment, q: Request, resolver: Resolver, now: int)
    requires Sound(env) && PreviewPlan(env, q, resolver, now).Ok?
    ensures var p, shape := PreviewPlan(env, q, resolver, now).value, ReadRequest(env, q, now).value;
            && (RoutesSparse(p) <==> q.profile in SPARSE_PROFILES || !UniformPayload(shape.transports, shape.payload))
            && (UniformPayload(shape.transports, shape.payload) ==> |StepPayloads(p.steps)| == 1)
            && |StepTimeouts(p.steps)| == 1 && p.profile == q.profile && p.steps != []
            && forall i :: 0 <= i < |p.steps| ==> p.steps[i].id.CartesianDigest?
  {
    hide Sound, HostResolutions, Confirmations, Undated, SnapshotsFaithful, StepPayloads, UniformPayload;
    CartesianParts(env, q, resolver, now);
    var n, p := env.notation, PreviewPlan(env, q, resolver, now).value;
    var shape := ReadRequest(env, q, now).value;
    assert shape.profile == q.profile by { ReadsProfile(env, q, now); }
    hide PreviewPlan, ReadRequest, ResolveAll, Build, CompileSteps, Places, EstimateOf;
    var snaps := ResolveAll(n, shape.grant, shape.targets, resolver, now).value;
    var places := Places(n, snaps, shape.targets);
    NoSctp(env, q, now);
    hide RoutesSparse, StepTimeouts, Publish;
    CompiledRoute(n, shape, places, p);
  }

  lemma {:induction false} CompiledRoute(n: Notation, shape: Shape, places: seq<Place>, p: Preview)
    requires CompileSteps(n, shape, places) == Ok(p.steps) && places != [] && p.steps != []
    requires shape.ports != [] && shape.repeats >= 1 && shape.transports != [] && Sctp !in shape.transports
    ensures RoutesSparse(p) <==> p.profile in SPARSE_PROFILES || !UniformPayload(shape.transports, shape.payload)
    ensures UniformPayload(shape.transports, shape.payload) ==> |StepPayloads(p.steps)| == 1
    ensures |StepTimeouts(p.steps)| == 1
    ensures forall i :: 0 <= i < |p.steps| ==> p.steps[i].id.CartesianDigest?
  {
    hide CompileSteps, UniformPayload, StepPayloads, StepTimeouts;
    CompiledPayloads(n, shape, places);
    forall i | 0 <= i < |p.steps|
      ensures p.steps[i].fields.kind in {TcpConnect, UdpExchange} && p.steps[i].id.CartesianDigest?
    {
      StepShows(n, shape, places, p.steps[i]);
    }
    SomePayload(p.steps);
  }

  lemma SomePayload(steps: seq<ProbeStep>)
    requires steps != []
    ensures |StepPayloads(steps)| >= 1
  {
    assert steps[0].fields.payload in StepPayloads(steps);
  }

  /** The Cartesian half: a plan that the Cartesian compiler published passes the
      validator, and is rebuilt identically, exactly when it is not dated in the
      validator's future, its scope is current, its profile is not one of the two sparse
      names, and its steps agree on one payload. */
  lemma CartesianRevalidates(env: Environment, q: Request, resolver: Resolver, created: int, now: int)
    requires Sound(env) && PreviewPlan(env, q, resolver, created).Ok?
    ensures var p, shape := PreviewPlan(env, q, resolver, created).value, ReadRequest(env, q, created).value;
            ValidatePreview(env, p, now) == Ok(p) <==>
              && created <= now && Current(q.grant, now) && q.profile !in SPARSE_PROFILES
              && !(Tcp in shape.transports && Udp in shape.transports && shape.payload != NO_PAYLOAD)
  {
    hide Sound, ReadRequest, Current, StepPayloads, StepTimeouts, Snapshotted, Sources;
    var p, shape := PreviewPlan(env, q, resolver, created).value, ReadRequest(env, q, created).value;
    PublishedGrant(env, q, resolver, created);
    CartesianRoute(env, q, resolver, created);
    CartesianSources(env, q, resolver, created);
    ValidatesExactly(env, p, now);
    if UniformPayload(shape.transports, shape.payload) {
      CartesianFixpoint(env, q, resolver, created);
    }
    hide PreviewPlan, ValidatePreview;
    if RoutesSparse(p) {
      SparseNeverCartesian(env, SpecsOf(p.steps), p);
    }
    hide RoutesSparse;
  }

  lemma PublishedGrant(env: Environment, q: Request, resolver: Resolver, now: int)
    requires Sound(env) && PreviewPlan(env, q, resolver, now).Ok?
    ensures var p := PreviewPlan(env, q, resolver, now).value; p.scope == q.grant && p.createdAt == now
  {
    hide Sound, HostResolutions, Confirmations, Undated, SnapshotsFaithful, PreviewPlan, ReadRequest, ResolveAll, Build,
         CompileSteps, Places, EstimateOf;
    CartesianParts(env, q, resolver, now);
    ReadsProfile(env, q, now);
  }

  /** The digests of the two compilers never coincide. */
  lemma SparseNeverCartesian(env: Environment, specs: seq<StepFields>, p: Preview)
    requires p.steps != [] && p.steps[0].id.CartesianDigest?
    ensures Sparse.PreviewProbePlan(env, specs, p.scope, p.profile, p.limits, p.createdAt) != Ok(p)
  {
    if Sparse.PreviewProbePlan(env, specs, p.scope, p.profile, p.limits, p.createdAt) == Ok(p) {
      Sparse.FinishParts(env, specs, p.scope, p.profile, p.limits, p.createdAt);
    }
  }

  // --- sparse plans -----------------------------------------------------------------------------------

  predicate NeedsSparse(profile: string, specs: seq<StepFields>) {
    || profile in SPARSE_PROFILES
    || (exists i :: 0 <= i < |specs| && specs[i].kind !in {TcpConnect, UdpExchange})
    || (exists i, j :: 0 <= i < |specs| && 0 <= j < |specs| && specs[i].payload != specs[j].payload)
  }

  /** Each hostname a spec names is resolved by some spec that carries an address. */
  ghost predicate EveryHostResolved(specs: seq<StepFields>) {
    forall i :: 0 <= i < |specs| && specs[i].sourceHostname.Some? ==> specs[i].sourceHostname.value in Sparse.Hostnames(specs)
  }

  lemma SparseRoute(specs: seq<StepFields>, p: Preview)
    requires Sparse.SameIds(specs, p.steps)
    ensures RoutesSparse(p) <==> NeedsSparse(p.profile, specs)
    ensures SpecsOf(p.steps) == specs
  {
    var payloads := StepPayloads(p.steps);
    AtMostOne(payloads);
    forall i | 0 <= i < |specs| ensures specs[i].payload in payloads && p.steps[i].fields == specs[i] {
      assert p.steps[i] in p.steps;
    }
  }

  lemma {:induction false} SparseSources(specs: seq<StepFields>, p: Preview)
    requires Sparse.SameIds(specs, p.steps) && Snapshotted(p.resolutions) == Elements(Sparse.Hostnames(specs))
    ensures Snapshotted(p.resolutions) == Sources(p.steps) <==> EveryHostResolved(specs)
  {
    forall i | 0 <= i < |specs| && specs[i].sourceHostname.Some? ensures specs[i].sourceHostname.value in Sources(p.steps) {
      assert p.steps[i] in p.steps;
    }
    forall name | name in Elements(Sparse.Hostnames(specs)) ensures name in Sources(p.steps) {
      Sparse.HostnamesExact(specs, name);
      var i :| 0 <= i < |specs| && Sparse.Resolving(specs[i]) && specs[i].sourceHostname == Some(name);
      assert p.steps[i] in p.steps;
    }
    if EveryHostResolved(specs) {
      forall name | name in Sources(p.steps) ensures name in Elements(Sparse.Hostnames(specs)) {
        var s :| s in p.steps && s.fields.sourceHostname == Some(name);
        var i :| 0 <= i < |p.steps| && p.steps[i] == s;
        assert specs[i].sourceHostname == Some(name);
      }
    }
  }

  lemma {:induction false} SparseNames(
    env: Environment, specs: seq<StepFields>, g: Grant, profile: string, limits: Limits, now: int)
    requires Sparse.PreviewProbePlan(env, specs, g, profile, limits, now).Ok?
    ensures var p := Sparse.PreviewProbePlan(env, specs, g, profile, limits, now).value;
            Snapshotted(p.resolutions) == Elements(Sparse.Hostnames(specs))
  {
    hide Canonical, TextLess, Sparse.CompileSpecs, Sparse.Hostnames, Sparse.SlotAddresses, EstimateWithin, Sparse.EstimateOf;
    var p := Sparse.PreviewProbePlan(env, specs, g, profile, limits, now).value;
    Sparse.FinishParts(env, specs, g, profile, limits, now);
    Sparse.NamesKnown(specs);
    hide Sparse.PreviewProbePlan;
    var names := Canonical(TextLess, Sparse.Hostnames(specs));
    forall name ensures name in Snapshotted(p.resolutions) <==> name in Elements(names) {
      if name in names {
        var i :| 0 <= i < |names| && names[i] == name;
        assert p.resolutions[i].hostname == name && p.resolutions[i] in p.resolutions;
      }
    }
  }

  /** The sparse half: a plan that the sparse compiler published passes the validator, and
      is rebuilt identically, exactly when it is not dated in the validator's future, its
      scope is current, the router picks the sparse branch for it, and each hostname that
      a step names is resolved by some step. */
  lemma SparseRevalidates(env: Environment, specs: seq<StepFields>, g: Grant, profile: string, limits: Limits, created: int, now: int)
    requires Sparse.PreviewProbePlan(env, specs, g, profile, limits, created).Ok?
    ensures var p := Sparse.PreviewProbePlan(env, specs, g, profile, limits, created).value;
            ValidatePreview(env, p, now) == Ok(p) <==>
              created <= now && Current(g, now) && NeedsSparse(profile, specs) && EveryHostResolved(specs)
  {
    hide Current, Snapshotted, Sources, RoutesSparse, NeedsSparse, EveryHostResolved, Sparse.SameIds, StepPayloads, StepTimeouts,
         EstimateWithin, Sparse.EstimateOf, Sparse.SlotResolutions, Sparse.CompileSpecs, Canonical, Sparse.Hostnames;
    var p := Sparse.PreviewProbePlan(env, specs, g, profile, limits, created).value;
    Sparse.FinishParts(env, specs, g, profile, limits, created);
    SparseNames(env, specs, g, profile, limits, created);
    SparseRoute(specs, p);
    SparseSources(specs, p);
    ValidatesExactly(env, p, now);
    FirstIsSparse(specs, p.steps);
    hide Sparse.PreviewProbePlan, ValidatePreview, PreviewPlan;
    if !RoutesSparse(p) {
      CartesianNeverSparse(env, p);
    }
  }

  lemma FirstIsSparse(specs: seq<StepFields>, steps: seq<ProbeStep>)
    requires Sparse.SameIds(specs, steps) && specs != []
    ensures steps != [] && steps[0].id.SparseDigest?
  {
  }

  lemma CartesianNeverSparse(env: Environment, p: Preview)
    requires p.steps != [] && p.steps[0].id.SparseDigest?
    ensures PreviewPlan(env, RequestOf(env.notation, p), Replay(p.resolutions), p.createdAt) != Ok(p)
  {
    hide ReadRequest, RequestOf, Replay;
    var q, resolver := RequestOf(env.notation, p), Replay(p.resolutions);
    if PreviewPlan(env, q, resolver, p.createdAt) == Ok(p) {
      var n, shape := env.notation, ReadRequest(env, q, p.createdAt).value;
      var snaps := ResolveAll(n, shape.grant, shape.targets, resolver, p.createdAt).value;
      BuildParts(n, shape, snaps, p.createdAt);
      hide PreviewPlan, Build, CompileSteps, Publish, Places;
      StepShows(n, shape, Places(n, snaps, shape.targets), p.steps[0]);
    }
  }

  // --- whatever the validator accepts ------------------------------------------------------------------

  /** An active address is loopback or was authorised by an attested grant. */
  predicate AddressCovered(n: Notation, g: Grant, s: ProbeStep) {
    s.fields.address.Some? ==>
      SafeAddress(n, g, s.fields.address.value)
      || (n.parse(s.fields.address.value).Some?
          && var t := n.parse(s.fields.address.value).value;
             LoopbackTarget(t) || (g.attested && InScope(g, t)))
  }

  /** Nobody has to trust where a preview came from: one that passes the validator, with
      well-formed limits and step costs, reserves exactly the sums over its distinct steps
      and names no address outside loopback and its grant; if the sparse branch accepted
      it, its event estimate is one per permitted observation and five more. */
  lemma ValidatedPlanIsReserved(env: Environment, p: Preview, now: int)
    requires Sound(env) && LimitsPositive(p.limits)
    requires forall i :: 0 <= i < |p.steps| ==> p.steps[i].fields.cost.maxObservations >= 1
    requires ValidatePreview(env, p, now) == Ok(p)
    ensures Reserved(p) && (RoutesSparse(p) ==> EventsReserved(p))
    ensures forall i :: 0 <= i < |p.steps| ==> AddressCovered(env.notation, p.scope, p.steps[i])
  {
    ValidatesExactly(env, p, now);
    hide ValidatePreview, Sound, LimitsPositive, Reserved, EventsReserved, RoutesSparse, StepPayloads, StepTimeouts, SafeAddress,
         LoopbackTarget, InScope, PreviewPlan, Sparse.PreviewProbePlan, Snapshotted, Sources, Current;
    if RoutesSparse(p) {
      Sparse.SparsePlanIsReserved(env, SpecsOf(p.steps), p.scope, p.profile, p.limits, p.createdAt);
    } else {
      CartesianPlanIsReserved(env, RequestOf(env.notation, p), Replay(p.resolutions), p.createdAt);
    }
  }
}
