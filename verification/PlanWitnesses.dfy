/** Concrete plans at the edges of the compilers, the validator and the preflight check:
    one address probed on one port, and the sparse plans beside it. */
module PlanWitnesses {
  import opened Outcomes
  import opened Collections
  import opened Networks
  import opened Plans
  import opened Policy
  import opened Cartesian
  import opened CartesianTheorems
  import opened Revalidation
  import opened Preflight
  import opened PlanContents
  import Sparse

  const HOME: Target := AddressTarget(Address(V4, 0x7F00_0001), None)
  const OFFICE: Target := AddressTarget(Address(V4, 0x0A00_0001), None)

  // --- one address as a Cartesian plan -----------------------------------------------------

  /** Port 80 of one address, once for each transport, with `bytes` zero octets as payload. */
  datatype Single = Single(target: Target, transports: seq<Transport>, bytes: nat, profile: string, grant: Grant)

  ghost predicate SingleAllowed(n: Notation, x: Single, now: int) {
    && x.target.AddressTarget? && n.parse(n.spell(x.target)) == Some(x.target)
    && (x.transports == [Tcp] || x.transports == [Tcp, Udp]) && x.bytes <= 1_400 && 1 <= |x.profile| <= 128
    && Current(x.grant, now) && Authorized(x.grant, x.target, now)
    && (LoopbackTarget(x.target) || forall t :: t in x.transports ==> PermitsStep(x.grant, 80, t))
  }

  function SingleRequest(n: Notation, x: Single): Request {
    Request([n.spell(x.target)], [80], x.transports, x.grant, x.profile, 1, x.bytes, 1, ABSOLUTE_CEILINGS, false, None, None, None, 3.0)
  }

  function SinglePayload(x: Single): Payload {
    if x.bytes > 0 then Payload("zero-bytes-v1", x.bytes, None) else NO_PAYLOAD
  }

  function SingleShape(x: Single): Shape {
    Shape([x.target], [80], x.transports, SinglePayload(x), x.grant, x.profile, 1, 1, ABSOLUTE_CEILINGS, 3.0)
  }

  lemma SingleReads(env: Environment, x: Single, now: int)
    requires SingleAllowed(env.notation, x, now)
    ensures ReadRequest(env, SingleRequest(env.notation, x), now) == Ok(SingleShape(x))
  {
    NormalizeOne(env.notation, env.notation.spell(x.target));
    PortsFixed([80]);
    SingleTransports(x.transports);
    SinglePays(env, x);
    hide LoopbackTarget, Current, NormalizeTargets, PortsOf, TransportsOf, PayloadOf, Authorized, SinglePayload;
  }

  lemma SingleTransports(transports: seq<Transport>)
    requires transports == [Tcp] || transports == [Tcp, Udp]
    ensures TransportsOf(transports) == Ok(transports)
  {
    assert Elements([Tcp]) == {Tcp} && Elements([Tcp, Udp]) == {Tcp, Udp};
    assert InTextOrder({Tcp}) == [Tcp] && InTextOrder({Tcp, Udp}) == [Tcp, Udp];
  }

  lemma SinglePays(env: Environment, x: Single)
    requires x.bytes <= 1_400
    ensures PayloadOf(env, SingleRequest(env.notation, x)) == Ok(SinglePayload(x))
  {
  }

  lemma SingleBuilds(n: Notation, x: Single, now: int)
    requires SingleAllowed(n, x, now)
    ensures Build(n, SingleShape(x), map[], now).Ok?
  {
    hide LoopbackTarget, Publish, HostResolutions, CompileSteps, Datagrams, ApplicationBytes, Packets, Checked, Authorized, PermitsStep;
    var shape := SingleShape(x);
    var place := Place(x.target, n.spell(x.target), None, None);
    var before: seq<Target> := [];
    assert [x.target][..0] == before && [] + [place] == [place];
    assert HostTotal(map[], []) == Ok(0) && HostTotal(map[], [x.target]) == Ok(1);
    assert Places(n, map[], []) == [] && Places(n, map[], [x.target]) == [place];
    SingleSteps(n, x, place);
    var steps := CompileSteps(n, shape, [place]).value;
    var k := |x.transports|;
    CheckedExact([1, 1, k, 1], ABSOLUTE_CEILINGS.maxAttempts);
    ProductOfFour(1, 1, k, 1);
    assert EstimateWithin(EstimateOf(shape, 1, steps), ABSOLUTE_CEILINGS);
  }

  lemma {:induction false} SingleSteps(n: Notation, x: Single, place: Place)
    requires n.parse(n.spell(x.target)) == Some(x.target) && (x.transports == [Tcp] || x.transports == [Tcp, Udp])
    requires place == Place(x.target, n.spell(x.target), None, None) && x.bytes <= 1_400
    ensures var r := CompileSteps(n, SingleShape(x), [place]);
            && r.Ok? && |r.value| == |x.transports|
            && Datagrams(r.value) <= 2 && ApplicationBytes(r.value) <= 2_800 && Packets(r.value) <= 2
  {
    hide LoopbackTarget, Sum, Identify;
    var shape, none: seq<ProbeStep> := SingleShape(x), [];
    var tcp, udp := StepFor(n, shape, place, x.target, 80, Tcp, 1), StepFor(n, shape, place, x.target, 80, Udp, 1);
    assert [place][..0] == [] && [Tcp][..0] == [] && [80][..0] == [] && none + [tcp] == [tcp] && none + [udp] == [udp];
    assert [Tcp, Udp][..1] == [Tcp] && [tcp] + [udp] == [tcp, udp];
    assert Attempts(n, shape, place, x.target, 80, Tcp, 0) == none && Attempts(n, shape, place, x.target, 80, Udp, 0) == none;
    assert Attempts(n, shape, place, x.target, 80, Tcp, 1) == [tcp] && Attempts(n, shape, place, x.target, 80, Udp, 1) == [udp];
    assert OverTransports(n, shape, place, x.target, 80, []) == none;
    assert OverTransports(n, shape, place, x.target, 80, [Tcp]) == [tcp];
    assert OverTransports(n, shape, place, x.target, 80, [Tcp, Udp]) == [tcp, udp];
    var steps := if x.transports == [Tcp] then [tcp] else [tcp, udp];
    assert OverPorts(n, shape, place, x.target, []) == none && OverPorts(n, shape, place, x.target, [80]) == steps;
    assert CompileSteps(n, shape, []) == Ok(none);
    assert CompileSteps(n, shape, [place]) == Ok(steps);
    TwoSums(tcp, udp, (s: ProbeStep) => s.fields.cost.datagrams);
    TwoSums(tcp, udp, (s: ProbeStep) => s.fields.cost.applicationBytes);
    TwoSums(tcp, udp, (s: ProbeStep) => s.fields.cost.packets);
  }

  lemma TwoSums(a: ProbeStep, b: ProbeStep, f: ProbeStep -> nat)
    ensures Sum([a], f) == f(a) && Sum([a, b], f) == f(a) + f(b)
  {
    assert [a][..0] == [] && [a, b][..1] == [a];
  }

  /** Any such request compiles, and validates exactly as the shape rules say. */
  lemma SingleCompiles(env: Environment, x: Single, resolver: Resolver, created: int, now: int)
    requires Sound(env) && SingleAllowed(env.notation, x, created)
    ensures var r := PreviewPlan(env, SingleRequest(env.notation, x), resolver, created);
            && r.Ok? && r.value.scope == x.grant
            && (ValidatePreview(env, r.value, now) == Ok(r.value) <==>
                  created <= now && Current(x.grant, now) && x.profile !in SPARSE_PROFILES && !(Udp in x.transports && x.bytes > 0))
  {
    hide Sound, ReadRequest, Build, Current, ValidatePreview, LoopbackTarget, Authorized, PermitsStep;
    var q := SingleRequest(env.notation, x);
    SingleReads(env, x, created);
    SingleBuilds(env.notation, x, created);
    assert [x.target][..0] == [];
    assert ResolveAll(env.notation, x.grant, [x.target], resolver, created) == Ok(map[]);
    PreviewOf(env, q, resolver, created, SingleShape(x), map[]);
    hide PreviewPlan;
    CartesianRevalidates(env, q, resolver, created, now);
    PublishedGrant(env, q, resolver, created);
  }

  lemma HomeAllowed(n: Notation, x: Single, now: int)
    requires Faithful(n) && x.target == HOME && Current(x.grant, now)
    requires (x.transports == [Tcp] || x.transports == [Tcp, Udp]) && x.bytes <= 1_400 && 1 <= |x.profile| <= 128
    ensures SingleAllowed(n, x, now)
  {
    HomeParses(n);
    hide LoopbackTarget, Faithful;
  }

  lemma HomeParses(n: Notation)
    requires Faithful(n)
    ensures n.parse(n.spell(HOME)) == Some(HOME) && LoopbackTarget(HOME)
  {
    assert Pow2(24) == 0x100_0000 by { PowTwentyFour(); }
    assert Contains(LOOPBACK4, HOME.address);
    assert !Contains(MULTICAST4, HOME.address);
  }

  lemma PowTwentyFour()
    ensures Pow2(24) == 0x100_0000
  {
    assert Pow2(6) == 64;
    assert Pow2(12) == 4096;
    assert Pow2(18) == 0x4_0000;
  }

  /** One TCP probe of 127.0.0.1 compiles under any current grant, and validates from then
      on for as long as the grant is current. */
  lemma HomePlanValidates(env: Environment, g: Grant, resolver: Resolver, created: int, now: int)
    requires Sound(env) && Current(g, created)
    ensures var r := PreviewPlan(env, SingleRequest(env.notation, Single(HOME, [Tcp], 0, "custom-v1", g)), resolver, created);
            r.Ok? && (ValidatePreview(env, r.value, now) == Ok(r.value) <==> created <= now && Current(g, now))
  {
    SoundIsFaithful(env);
    ProfilesDiffer();
    hide Sound, PreviewPlan, ValidatePreview, SingleAllowed, Current;
    HomeAllowed(env.notation, Single(HOME, [Tcp], 0, "custom-v1", g), created);
    SingleCompiles(env, Single(HOME, [Tcp], 0, "custom-v1", g), resolver, created, now);
  }

  lemma ProfilesDiffer()
    ensures "custom-v1" !in SPARSE_PROFILES
    ensures forall profile :: profile in SPARSE_PROFILES ==> 1 <= |profile| <= 128
  {
    assert |"custom-v1"| == 9 && |"internal-mapping-v1"| == 19 && |"coverage-v2"| == 11;
  }

  /** With UDP beside TCP and one octet of payload it compiles and never validates. */
  lemma PayloadPlanRefused(env: Environment, g: Grant, resolver: Resolver, created: int, now: int)
    requires Sound(env) && Current(g, created)
    ensures var r := PreviewPlan(env, SingleRequest(env.notation, Single(HOME, [Tcp, Udp], 1, "custom-v1", g)), resolver, created);
            r.Ok? && ValidatePreview(env, r.value, now) != Ok(r.value)
  {
    SoundIsFaithful(env);
    hide Sound, PreviewPlan, ValidatePreview, SingleAllowed, Current;
    var x := Single(HOME, [Tcp, Udp], 1, "custom-v1", g);
    HomeAllowed(env.notation, x, created);
    SingleCompiles(env, x, resolver, created, now);
    assert x.transports[1] == Udp;
  }

  /** Under either sparse profile name it compiles and never validates. */
  lemma SparseNameRefused(env: Environment, g: Grant, profile: string, resolver: Resolver, created: int, now: int)
    requires Sound(env) && Current(g, created) && profile in SPARSE_PROFILES
    ensures var r := PreviewPlan(env, SingleRequest(env.notation, Single(HOME, [Tcp], 0, profile, g)), resolver, created);
            r.Ok? && ValidatePreview(env, r.value, now) != Ok(r.value)
  {
    SoundIsFaithful(env);
    ProfilesDiffer();
    hide Sound, PreviewPlan, ValidatePreview, SingleAllowed, Current;
    HomeAllowed(env.notation, Single(HOME, [Tcp], 0, profile, g), created);
    SingleCompiles(env, Single(HOME, [Tcp], 0, profile, g), resolver, created, now);
  }

  // --- a grant without probe kinds --------------------------------------------------------------

  /** One office address, one port and transport, and no probe kind. */
  const OFFICE_GRANT: Grant := Grant({Block(V4, 0x0A00_0001, 32)}, {}, {80}, {Tcp}, {}, true, "", None)

  lemma OfficeAllowed(n: Notation, now: int)
    requires Faithful(n)
    ensures GrantValid(OFFICE_GRANT) && !LoopbackTarget(OFFICE)
    ensures SingleAllowed(n, Single(OFFICE, [Tcp], 0, "custom-v1", OFFICE_GRANT), now)
  {
    OfficeInternal();
    var block: Network := Block(V4, 0x0A00_0001, 32);
    assert Size(block) == 1 && Contains(block, OFFICE.address);
    assert block in OFFICE_GRANT.networks;
    hide Contains, AddressAllowed, NetworkAllowed, Faithful, Loopback;
    assert n.parse(n.spell(OFFICE)) == Some(OFFICE) by { AllowedParses(n, OFFICE.address); }
  }

  lemma AllowedParses(n: Notation, a: Address)
    requires Faithful(n) && AddressAllowed(a, false)
    ensures n.parse(n.spell(AddressTarget(a, None))) == Some(AddressTarget(a, None))
  {
    hide AddressAllowed;
  }

  lemma OfficeInternal()
    ensures AddressAllowed(OFFICE.address, false) && NetworkAllowed(Block(V4, 0x0A00_0001, 32)) && !Loopback(OFFICE.address)
  {
    assert Pow2(24) == 0x100_0000 && Pow2(28) == 0x1000_0000 by {
      PowTwentyFour();
      assert Pow2(28) == 16 * Pow2(24);
    }
    var block: Network := Block(V4, 0x0A00_0001, 32);
    assert Size(block) == 1 && Size(INTERNAL4[0]) == 0x100_0000;
    assert Contains(INTERNAL4[0], OFFICE.address) && SubnetOf(block, INTERNAL4[0]);
    assert Size(MULTICAST4) == 0x1000_0000 && Size(LOOPBACK4) == 0x100_0000;
    hide Pow2, Size;
  }

  /** That grant lets a plan compile and validate at every later time, and preflight refuses
      its every step, always. */
  lemma OfficePlanNeverStarts(env: Environment, planned: Resolver, created: int, octets: Option<seq<bv8>>, resolver: Resolver, now: int)
    requires Sound(env) && created <= now
    ensures var r := PreviewPlan(env, SingleRequest(env.notation, Single(OFFICE, [Tcp], 0, "custom-v1", OFFICE_GRANT)), planned, created);
            && r.Ok? && ValidatePreview(env, r.value, now) == Ok(r.value) && r.value.steps != []
            && forall s :: s in r.value.steps ==> PreflightStep(env, r.value, s, octets, resolver, now).Err?
  {
    var x := Single(OFFICE, [Tcp], 0, "custom-v1", OFFICE_GRANT);
    var n := env.notation;
    SoundIsFaithful(env);
    ProfilesDiffer();
    OfficeAllowed(n, created);
    hide Sound, PreviewPlan, ValidatePreview, SingleAllowed, LoopbackTarget, PreflightStep;
    SingleCompiles(env, x, planned, created, now);
    PublishedTargets(env, SingleRequest(n, x), planned, created);
    SingleReads(env, x, created);
    var p := PreviewPlan(env, SingleRequest(n, x), planned, created).value;
    forall s | s in p.steps ensures PreflightStep(env, p, s, octets, resolver, now).Err? {
      StepsNameless(env, SingleRequest(n, x), planned, created, s);
      NamelessPlanned(env, SingleRequest(n, x), planned, created, s);
      OfficeStepRefused(env, p, s, octets, resolver, now);
    }
  }

  /** Without a hostname target no step has a hostname. */
  lemma StepsNameless(env: Environment, q: Request, resolver: Resolver, now: int, s: ProbeStep)
    requires Sound(env) && PreviewPlan(env, q, resolver, now).Ok? && s in PreviewPlan(env, q, resolver, now).value.steps
    requires forall t :: t in PreviewPlan(env, q, resolver, now).value.targets ==> !t.HostTarget?
    ensures s.fields.sourceHostname.None?
  {
    CartesianParts(env, q, resolver, now);
    PublishedTargets(env, q, resolver, now);
    hide PreviewPlan, Sound, ReadRequest, Build, CompileSteps, HostResolutions, Places, Confirmations, Undated, ResolveAll;
    var shape := ReadRequest(env, q, now).value;
    var snaps := ResolveAll(env.notation, shape.grant, shape.targets, resolver, now).value;
    var places := Places(env.notation, snaps, shape.targets);
    StepShows(env.notation, shape, places, s);
    var place :| place in places && s.fields.sourceHostname == place.source;
    if place.source.Some? {
      HostPlaces(env.notation, snaps, shape.targets, place);
    }
  }

  lemma OfficeStepRefused(env: Environment, p: Preview, s: ProbeStep, octets: Option<seq<bv8>>, resolver: Resolver, now: int)
    requires p.scope == OFFICE_GRANT && NamelessStep(env.notation, OFFICE_GRANT, [OFFICE], s) && !LoopbackTarget(OFFICE)
    ensures PreflightStep(env, p, s, octets, resolver, now).Err?
  {
    hide LoopbackTarget, Authorized, InScope;
  }

  // --- sparse plans of one probe ----------------------------------------------------------------

  /** A probe without a payload, of one packet, under the given name for its destination. */
  function SpecFor(kind: ProbeKind, target: string, address: Option<string>, port: Option<nat>, transport: Option<Transport>,
                   host: Option<string>): StepFields {
    StepFields(kind, target, address, None, port, transport, 1, host, if host.Some? then Some(0) else None, NO_PAYLOAD,
               StepCost(0, 0, 1, 2, 0, 0, 0, 16_384), None, None, None, 3.0, true)
  }

  function HomeSpec(n: Notation): StepFields {
    SpecFor(TcpConnect, n.spell(HOME), Some(n.spell(HOME)), Some(80), Some(Tcp), None)
  }

  /** A system DNS query for a host that no probe of the plan reaches. */
  function LookupSpec(): StepFields {
    SpecFor(SystemDns, "localhost", None, None, None, Some("localhost"))
  }

  function SparseStep(spec: StepFields): ProbeStep {
    ProbeStep(SparseDigest(spec), spec)
  }

  ghost predicate LoneSpec(n: Notation, g: Grant, spec: StepFields, now: int) {
    && Sparse.Admissible(n, g, spec, now).Pass? && !Sparse.Resolving(spec) && n.parse(spec.target).Some?
    && spec.cost == StepCost(0, 0, 1, 2, 0, 0, 0, 16_384) && !spec.kind.UdpExchange? && (spec.port == None || spec.port == Some(80))
  }

  lemma LoneCompiles(env: Environment, g: Grant, spec: StepFields, profile: string, now: int)
    requires LoneSpec(env.notation, g, spec, now) && 1 <= |profile| <= 128
    requires env.envelope([SparseStep(spec)], g) <= 67_000_000
    ensures Sparse.PreviewProbePlan(env, [spec], g, profile, ABSOLUTE_CEILINGS, now).Ok?
    ensures Sparse.Hostnames([spec]) == []
  {
    hide EstimateWithin, Sparse.EstimateOf, TextLess, Sparse.CompileSpecs, NormalizeTargets, Sparse.Publish, Sparse.SlotResolutions,
         Sparse.Admissible;
    var specs, steps := [spec], [SparseStep(spec)];
    LoneLoop(env.notation, g, spec, now);
    LoneEstimate(env, g, spec);
    NormalizeOne(env.notation, spec.target);
    assert specs[..0] == [];
    assert (set s | s in steps :: s.id) == {steps[0].id};
    assert Sparse.Hostnames(specs) == [];
    assert Sparse.SpecTargets(specs) == [spec.target];
    assert Sparse.UdpPayloads(specs) == {};
    assert !Sparse.Silent(specs);
    assert Sparse.Finish(env, specs, g, profile, ABSOLUTE_CEILINGS, now, Sparse.Draftwork(steps, map[])).Ok?;
  }

  lemma {:induction false} LoneLoop(n: Notation, g: Grant, spec: StepFields, now: int)
    requires Sparse.Admissible(n, g, spec, now).Pass? && !Sparse.Resolving(spec)
    ensures Sparse.CompileSpecs(n, g, [spec], now) == Ok(Sparse.Draftwork([SparseStep(spec)], map[]))
  {
    hide Sparse.Admissible;
    var specs := [spec];
    assert specs[..0] == [];
    assert Sparse.CompileSpecs(n, g, [], now) == Ok(Sparse.Draftwork([], map[]));
    assert [] + [SparseStep(spec)] == [SparseStep(spec)];
    assert Sparse.CompileSpec(n, g, Sparse.Draftwork([], map[]), specs[0], now) == Ok(Sparse.Draftwork([SparseStep(spec)], map[]));
  }

  lemma LoneEstimate(env: Environment, g: Grant, spec: StepFields)
    requires spec.cost == StepCost(0, 0, 1, 2, 0, 0, 0, 16_384) && (spec.port == None || spec.port == Some(80))
    requires env.envelope([SparseStep(spec)], g) <= 67_000_000
    ensures var ports := Canonical(PortLess, Sparse.PortNumbers([spec]));
            EstimateWithin(Sparse.EstimateOf(env, g, [spec], [SparseStep(spec)], ports, ABSOLUTE_CEILINGS), ABSOLUTE_CEILINGS)
  {
    var step := SparseStep(spec);
    TwoSums(step, step, (s: ProbeStep) => s.fields.cost.datagrams);
    TwoSums(step, step, (s: ProbeStep) => s.fields.cost.applicationBytes);
    TwoSums(step, step, (s: ProbeStep) => s.fields.cost.packets);
    TwoSums(step, step, (s: ProbeStep) => s.fields.cost.maxObservations);
    TwoSums(step, step, (s: ProbeStep) => s.fields.cost.maxOutputBytes);
    assert Datagrams([step]) == 0 && ApplicationBytes([step]) == 0 && Packets([step]) == 1 && Observations([step]) == 2;
    assert Sparse.OutputBytes([step]) == 16_384;
    assert Sparse.Destinations([spec]) == {if spec.address.Some? then spec.address.value else spec.target};
    OnePort(spec);
    hide Sum, Sparse.PortNumbers, Canonical;
  }

  lemma OnePort(spec: StepFields)
    requires spec.port == None || spec.port == Some(80)
    ensures |Canonical(PortLess, Sparse.PortNumbers([spec]))| <= 1
  {
    assert [spec][..0] == [] && [80][..0] == [];
    assert Sparse.PortNumbers([spec]) == if spec.port == None then [] else [80];
    assert Canonical(PortLess, [80]) == [80];
  }

  /** A misrouted plan: one TCP probe of 127.0.0.1 under the profile name that coverage
      assessments use compiles, and then never validates. */
  lemma AssessmentPlanMisrouted(env: Environment, g: Grant, created: int, now: int)
    requires Sound(env) && Current(g, created)
    requires env.envelope([SparseStep(HomeSpec(env.notation))], g) <= 67_000_000
    ensures var r := Sparse.PreviewProbePlan(env, [HomeSpec(env.notation)], g, "coverage-assessment-v2", ABSOLUTE_CEILINGS, created);
            r.Ok? && ValidatePreview(env, r.value, now) != Ok(r.value)
  {
    var n, spec, profile := env.notation, HomeSpec(env.notation), "coverage-assessment-v2";
    assert LoneSpec(n, g, spec, created) by { HomeLone(env, g, created); }
    UniformTcp(n);
    hide Sparse.PreviewProbePlan, ValidatePreview, NeedsSparse, HomeSpec, LoneSpec, Sound, Current;
    LoneCompiles(env, g, spec, profile, created);
    SparseRevalidates(env, [spec], g, profile, ABSOLUTE_CEILINGS, created, now);
  }

  lemma HomeLone(env: Environment, g: Grant, now: int)
    requires Sound(env) && Current(g, now)
    ensures LoneSpec(env.notation, g, HomeSpec(env.notation), now)
  {
    SoundIsFaithful(env);
    HomeParses(env.notation);
    hide LoopbackTarget, Sound, Faithful;
  }

  lemma UniformTcp(n: Notation)
    ensures !NeedsSparse("coverage-assessment-v2", [HomeSpec(n)])
  {
    var profile := "coverage-assessment-v2";
    assert profile[9] == 'a' && "internal-mapping-v1"[9] == 'm' && |"coverage-v2"| == 11;
  }

  /** A plan that only looks up a name reserves no address for it: it compiles under any
      profile name, and never validates, because the name has no snapshot. */
  lemma LookupPlanRefused(env: Environment, g: Grant, profile: string, created: int, now: int)
    requires Current(g, created) && env.notation.parse("localhost") == Some(HostTarget("localhost")) && 1 <= |profile| <= 128
    requires env.envelope([SparseStep(LookupSpec())], g) <= 67_000_000
    ensures var r := Sparse.PreviewProbePlan(env, [LookupSpec()], g, profile, ABSOLUTE_CEILINGS, created);
            r.Ok? && ValidatePreview(env, r.value, now) != Ok(r.value)
  {
    var spec := LookupSpec();
    assert LoneSpec(env.notation, g, spec, created);
    hide Sparse.PreviewProbePlan, ValidatePreview, NeedsSparse, LoneSpec, Current, Sparse.Hostnames;
    LoneCompiles(env, g, spec, profile, created);
    SparseRevalidates(env, [spec], g, profile, ABSOLUTE_CEILINGS, created, now);
    assert [spec][0].sourceHostname == Some("localhost");
  }

  // --- an environment -----------------------------------------------------------------------------

  /** A notation for plain addresses and `localhost`: the version and as many strokes as
      the address counts. */
  function Strokes(): Notation {
    Notation(
      (t: Target) =>
        match t
        case AddressTarget(a, _) => (if a.version.V4? then "4" else "6") + seq(a.value, i => '|')
        case NetworkTarget(_) => ""
        case HostTarget(name) => name,
      (s: string) => ReadStrokes(s))
  }

  function ReadStrokes(s: string): Option<Target> {
    if s == "localhost" then Some(HostTarget(s))
    else if s == "" || (s[0] != '4' && s[0] != '6') then None
    else
      var t := AddressTarget(Address(if s[0] == '4' then V4 else V6, |s| - 1), None);
      if DestinationAllowed(t) then Some(t) else None
  }

  function SomeEnvironment(): Environment {
    Environment(Strokes(), (octets: seq<bv8>) => seq(64, i => '0'), (steps: seq<ProbeStep>, g: Grant) => 0)
  }

  /** What the theorems about plans assume of their environment can be met. */
  lemma SomeEnvironmentSound()
    ensures Sound(SomeEnvironment()) && SomeEnvironment().notation.parse("localhost") == Some(HostTarget("localhost"))
    ensures forall steps, g :: SomeEnvironment().envelope(steps, g) <= 67_000_000
  {
    StrokesFaithful();
    hide Faithful, Strokes;
    assert SomeEnvironment().notation == Strokes();
    LocalRead();
  }

  lemma LocalRead()
    ensures Strokes().parse("localhost") == Some(HostTarget("localhost"))
  {
  }

  lemma StrokesFaithful()
    ensures Faithful(Strokes())
  {
    hide DestinationAllowed;
    var n := Strokes();
    forall a: Address
      ensures var t := AddressTarget(a, None);
              n.parse(n.spell(t)) == if DestinationAllowed(t) then Some(t) else None
    {
      assert n.spell(AddressTarget(a, None))[0] != 'l' && "localhost"[0] == 'l';
    }
    forall s | n.parse(s).Some? ensures DestinationAllowed(n.parse(s).value) && n.parse(n.spell(n.parse(s).value)) == n.parse(s) {
      ReadsAllowed(s);
    }
  }

  lemma ReadsAllowed(s: string)
    requires ReadStrokes(s).Some?
    ensures DestinationAllowed(ReadStrokes(s).value)
    ensures ReadStrokes(s).value.HostTarget? ==> ReadStrokes(s) == Some(HostTarget("localhost"))
    ensures !ReadStrokes(s).value.HostTarget? ==>
              ReadStrokes(s).value.AddressTarget? && ReadStrokes(s).value == AddressTarget(ReadStrokes(s).value.address, None)
  {
  }
}
