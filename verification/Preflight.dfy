/** The check made immediately before a step uses a socket. */
module Preflight {
  import opened Outcomes
  import opened Collections
  import opened Networks
  import opened Plans
  import opened Policy
  import opened Cartesian
  import opened CartesianTheorems
  import opened Revalidation
  import Sparse

  datatype PreparedStep = PreparedStep(step: ProbeStep, address: Option<string>, dnsChanged: bool)

  /** `PayloadMetadata.verify`. */
  predicate PayloadVerified(env: Environment, payload: Payload, octets: Option<seq<bv8>>) {
    if payload.sha256.None? then octets.None?
    else octets.Some? && |octets.value| == payload.length && env.sha256(octets.value) == payload.sha256.value
  }

  function FindResolution(resolutions: seq<Resolution>, name: string): Option<Resolution> {
    if resolutions == [] then None
    else if resolutions[0].hostname == name then Some(resolutions[0])
    else FindResolution(resolutions[1..], name)
  }

  /** What any step must still satisfy, whether or not it has a hostname. */
  function StillAdmissible(n: Notation, p: Preview, step: ProbeStep, now: int): Outcome<Failure> {
    var f := step.fields;
    if !Current(p.scope, now) || n.parse(f.target).None? then Fail(PolicyFailure)
    else
      var target := n.parse(f.target).value;
      if f.kind != LocalSnapshot && !Authorized(p.scope, target, now) then Fail(PolicyFailure)
      else if !LoopbackTarget(target) && !PermitsProbe(p.scope, f.kind, f.port, f.transport) then Fail(ConfirmationFailure)
      else Pass
  }

  /** `preflight_step` for a step of the plan. */
  function PreflightStep(env: Environment, p: Preview, step: ProbeStep, octets: Option<seq<bv8>>, resolver: Resolver, now: int)
    : Result<PreparedStep, Failure>
  {
    var n, f := env.notation, step.fields;
    :- Need(PayloadVerified(env, f.payload, octets), ConfirmationFailure);
    :- StillAdmissible(n, p, step, now);
    if f.address.None? then Ok(PreparedStep(step, None, false))
    else if f.sourceHostname.None? then Ok(PreparedStep(step, f.address, false))
    else
      var snapshot := FindResolution(p.resolutions, f.sourceHostname.value);
      if snapshot.None? || f.slot.None? then Err(ConfirmationFailure)
      else
        var es :- RecheckResolution(n, p.scope, snapshot.value.hostname, resolver, now);
        var addresses := Texts(n, es);
        :- Need(|addresses| <= |snapshot.value.addresses| && f.slot.value < |addresses|, ConfirmationFailure);
        :- Need(f.address == Some(addresses[f.slot.value]), ConfirmationFailure);
        Ok(PreparedStep(step, f.address, addresses != snapshot.value.addresses))
  }

  lemma {:induction false} FoundName(resolutions: seq<Resolution>, name: string)
    ensures FindResolution(resolutions, name).Some? ==>
              FindResolution(resolutions, name).value.hostname == name && FindResolution(resolutions, name).value in resolutions
  {
    if resolutions != [] && resolutions[0].hostname != name {
      FoundName(resolutions[1..], name);
    }
  }

  /** Octets of exactly the bound length and digest; none at all for a payload without one. */
  predicate Approved(env: Environment, payload: Payload, octets: Option<seq<bv8>>) {
    match payload.sha256
    case None => octets == None
    case Some(digest) => octets.Some? && |octets.value| == payload.length && env.sha256(octets.value) == digest
  }

  /** Whatever the resolver answers: a prepared step is the requested one with the address
      its digest binds, while the scope is current, and only for the approved octets; for a
      hostname step that address is one the resolver has just answered, and it is loopback
      (for `localhost`) or inside a grant network. */
  lemma PreflightSound(env: Environment, p: Preview, step: ProbeStep, octets: Option<seq<bv8>>, resolver: Resolver, now: int)
    requires Sound(env) && PreflightStep(env, p, step, octets, resolver, now).Ok?
    ensures var r := PreflightStep(env, p, step, octets, resolver, now).value;
            r.step == step && r.address == step.fields.address
            && (p.scope.expiresAt.None? || now < p.scope.expiresAt.value)
    ensures match step.fields.payload.sha256
            case None => octets == None
            case Some(digest) =>
              octets.Some? && |octets.value| == step.fields.payload.length && env.sha256(octets.value) == digest
    ensures step.fields.address.Some? && step.fields.sourceHostname.Some? ==>
              exists a, e :: a in resolver(step.fields.sourceHostname.value) && ToEndpoint(env.notation, a) == Some(e)
                             && step.fields.address == Some(env.notation.spell(AsTarget(e)))
                             && DestinationAllowed(AsTarget(e)) && Reachable(p.scope, e.address)
  {
    hide Sound, Authorized, PermitsProbe, LoopbackTarget, DestinationAllowed, PermitsAddress, Loopback;
    var n, f := env.notation, step.fields;
    if f.address.Some? && f.sourceHostname.Some? {
      var name := f.sourceHostname.value;
      FoundName(p.resolutions, name);
      var es := RecheckResolution(n, p.scope, name, resolver, now).value;
      SoundIsFaithful(env);
      hide Faithful, EndpointLess;
      ResolvedEndpoints(n, resolver(name));
      var e := es[f.slot.value];
      assert AsTarget(e).address == e.address;
    }
  }

  /** The resolver answers with this address text. */
  ghost predicate AnsweredText(n: Notation, answers: seq<Answer>, text: string) {
    exists a, e :: a in answers && ToEndpoint(n, a) == Some(e) && n.spell(AsTarget(e)) == text
  }

  /** A change of names is reported exactly when the canonical answer is another list than
      the planned one; a step that reports none finds exactly the planned addresses, and a
      step that resolves nothing never reports one. */
  lemma ChangeReported(env: Environment, p: Preview, step: ProbeStep, octets: Option<seq<bv8>>, resolver: Resolver, now: int)
    requires Sound(env) && PreflightStep(env, p, step, octets, resolver, now).Ok?
    ensures var r, f := PreflightStep(env, p, step, octets, resolver, now).value, step.fields;
            if f.address.None? || f.sourceHostname.None? then !r.dnsChanged
            else
              exists planned :: planned in p.resolutions && planned.hostname == f.sourceHostname.value
                && Resolved(env.notation, resolver(planned.hostname)).Ok?
                && (r.dnsChanged <==> Texts(env.notation, Resolved(env.notation, resolver(planned.hostname)).value) != planned.addresses)
                && (!r.dnsChanged ==>
                      forall text :: text in planned.addresses <==> AnsweredText(env.notation, resolver(planned.hostname), text))
  {
    hide Sound, StillAdmissible, PayloadVerified, AnsweredText;
    var n, f := env.notation, step.fields;
    SoundIsFaithful(env);
    if f.address.Some? && f.sourceHostname.Some? {
      var name := f.sourceHostname.value;
      FoundName(p.resolutions, name);
      RechecksExactly(n, p.scope, name, resolver, now);
      hide RecheckResolution, Resolved;
      forall text ensures text in Texts(n, Resolved(n, resolver(name)).value) <==> AnsweredText(n, resolver(name), text) {
        TextAnswered(n, resolver(name), text);
      }
    }
  }

  lemma {:induction false} AnswerListed(n: Notation, answers: seq<Answer>, a: Answer)
    requires Endpoints(n, answers).Some? && a in answers
    ensures ToEndpoint(n, a).Some? && ToEndpoint(n, a).value in Endpoints(n, answers).value
  {
    var front, last := answers[..|answers| - 1], answers[|answers| - 1];
    if a != last {
      assert answers == front + [last];
      AnswerListed(n, front, a);
    }
  }

  lemma AnswersListed(n: Notation, answers: seq<Answer>, a: Answer)
    requires Resolved(n, answers).Ok? && a in answers
    ensures Endpoints(n, answers).Some? && ToEndpoint(n, a).Some? && ToEndpoint(n, a).value in Endpoints(n, answers).value
  {
    AnswerListed(n, answers, a);
  }

  lemma {:induction false} TextAnswered(n: Notation, answers: seq<Answer>, text: string)
    requires Faithful(n) && Resolved(n, answers).Ok?
    ensures text in Texts(n, Resolved(n, answers).value) <==> AnsweredText(n, answers, text)
  {
    var es := Resolved(n, answers).value;
    ResolvedEndpoints(n, answers);
    hide Faithful, EndpointLess, Resolved;
    if text in Texts(n, es) {
      var i :| 0 <= i < |es| && Texts(n, es)[i] == text;
      assert n.spell(AsTarget(es[i])) == text;
    }
    if AnsweredText(n, answers, text) {
      var a, e :| a in answers && ToEndpoint(n, a) == Some(e) && n.spell(AsTarget(e)) == text;
      AnswersListed(n, answers, a);
      assert e in Elements(Endpoints(n, answers).value);
      assert e in Elements(es);
      var i :| 0 <= i < |es| && es[i] == e;
      assert Texts(n, es)[i] == text;
    }
  }

  // --- any step of any plan --------------------------------------------------------------------

  /** The planned snapshot of a name, and what its resolver answers now, agree on the slot:
      the name may still be resolved, there are no more addresses than planned, and the one
      of the slot is the step's. */
  ghost predicate SlotHolds(n: Notation, p: Preview, f: StepFields, name: string, resolver: Resolver) {
    exists k :: 0 <= k < |p.resolutions| && SnapshotOf(p.resolutions, name, k)
      && (name == "localhost" || name in p.scope.hostnames)
      && Resolved(n, resolver(name)).Ok?
      && var es := Resolved(n, resolver(name)).value;
         && (forall e :: e in es ==> Answerable(p.scope, name, e.address))
         && |es| <= |p.resolutions[k].addresses|
         && f.slot.Some? && f.slot.value < |es| && f.address == Some(n.spell(AsTarget(es[f.slot.value])))
  }

  /** The first snapshot of the name. */
  predicate SnapshotOf(resolutions: seq<Resolution>, name: string, k: nat)
    requires k < |resolutions|
  {
    resolutions[k].hostname == name && forall j :: 0 <= j < k ==> resolutions[j].hostname != name
  }

  lemma {:induction false} FirstFound(resolutions: seq<Resolution>, name: string)
    ensures FindResolution(resolutions, name).Some?
            <==> exists k :: 0 <= k < |resolutions| && SnapshotOf(resolutions, name, k)
    ensures forall k :: 0 <= k < |resolutions| && SnapshotOf(resolutions, name, k) ==>
              FindResolution(resolutions, name) == Some(resolutions[k])
  {
    if resolutions != [] {
      var rest := resolutions[1..];
      FirstFound(rest, name);
      assert forall k :: 0 <= k < |rest| ==> rest[k] == resolutions[k + 1];
      if resolutions[0].hostname == name {
        assert SnapshotOf(resolutions, name, 0);
      } else {
        forall k | 0 <= k < |rest| ensures SnapshotOf(rest, name, k) <==> SnapshotOf(resolutions, name, k + 1) {
          if SnapshotOf(rest, name, k) {
            assert forall j :: 0 < j < k + 1 ==> resolutions[j] == rest[j - 1];
          }
        }
        if k :| 0 <= k < |resolutions| && SnapshotOf(resolutions, name, k) {
          assert SnapshotOf(rest, name, k - 1);
        }
        forall k | 0 <= k < |resolutions| && SnapshotOf(resolutions, name, k)
          ensures FindResolution(resolutions, name) == Some(resolutions[k])
        {
          assert SnapshotOf(rest, name, k - 1);
        }
      }
    }
  }

  /** The target is loopback or in the attested scope, unless the step sends nothing; and off
      loopback the grant covers the kind, with its port and transport. */
  predicate TargetCovered(n: Notation, g: Grant, f: StepFields) {
    && n.parse(f.target).Some?
    && var target := n.parse(f.target).value;
       && (f.kind == LocalSnapshot || LoopbackTarget(target) || (g.attested && InScope(g, target)))
       && (LoopbackTarget(target)
           || (f.kind in g.kinds
               && if f.kind in {TcpConnect, UdpExchange, TlsHandshake, HttpExchange, NativePortScan}
                  then f.port.Some? && f.transport.Some? && f.port.value in g.ports && f.transport.value in g.transports
                  else f.port.None? && f.transport.None?))
  }

  /** A step is prepared exactly when its octets are the approved ones, the scope is current,
      its target is covered, and, if it carries an address for a hostname, the hostname still
      resolves to it. A step that only looks a name up carries none. */
  lemma {:induction false} PreparedExactly(
    env: Environment, p: Preview, step: ProbeStep, octets: Option<seq<bv8>>, resolver: Resolver, now: int)
    ensures var f := step.fields;
            PreflightStep(env, p, step, octets, resolver, now).Ok? <==>
              && Approved(env, f.payload, octets)
              && (p.scope.expiresAt.None? || now < p.scope.expiresAt.value)
              && TargetCovered(env.notation, p.scope, f)
              && (f.address.None? || f.sourceHostname.None?
                  || SlotHolds(env.notation, p, f, f.sourceHostname.value, resolver))
  {
    var n, f := env.notation, step.fields;
    StillExactly(n, p, step, now);
    if f.address.Some? && f.sourceHostname.Some? && Current(p.scope, now) {
      SlotExactly(n, p, f, f.sourceHostname.value, resolver, now);
    }
    hide StillAdmissible, SlotHolds, TargetCovered, RecheckResolution, FindResolution, Texts;
  }

  lemma StillExactly(n: Notation, p: Preview, step: ProbeStep, now: int)
    ensures StillAdmissible(n, p, step, now).Pass?
            <==> (p.scope.expiresAt.None? || now < p.scope.expiresAt.value) && TargetCovered(n, p.scope, step.fields)
  {
    hide LoopbackTarget, InScope;
  }

  lemma SlotExactly(n: Notation, p: Preview, f: StepFields, name: string, resolver: Resolver, now: int)
    requires (p.scope.expiresAt.None? || now < p.scope.expiresAt.value) && f.address.Some?
    ensures var snapshot := FindResolution(p.resolutions, name);
            SlotHolds(n, p, f, name, resolver)
            <==> snapshot.Some? && f.slot.Some?
                 && var es := RecheckResolution(n, p.scope, snapshot.value.hostname, resolver, now);
                    es.Ok? && |Texts(n, es.value)| <= |snapshot.value.addresses| && f.slot.value < |Texts(n, es.value)|
                    && f.address == Some(Texts(n, es.value)[f.slot.value])
  {
    FirstFound(p.resolutions, name);
    FoundName(p.resolutions, name);
    RechecksExactly(n, p.scope, name, resolver, now);
    hide RecheckResolution, FindResolution, Resolved, Answerable, SnapshotOf;
  }

  // --- completeness for Cartesian plans -------------------------------------------------------

  lemma {:induction false} HostResolutionFound(n: Notation, snaps: Snapshots, targets: seq<Target>, name: string, now: int)
    requires Covers(snaps, targets) && HostTarget(name) in targets
    ensures exists r :: r in HostResolutions(n, snaps, targets, now) && r.hostname == name
    ensures forall r :: r in HostResolutions(n, snaps, targets, now) && r.hostname == name ==> r.addresses == Texts(n, snaps[name])
  {
    var front, last := targets[..|targets| - 1], targets[|targets| - 1];
    assert targets == front + [last];
    if HostTarget(name) in front {
      HostResolutionFound(n, snaps, front, name, now);
    } else {
      ResolutionNames(n, snaps, front, name, now);
      var before := HostResolutions(n, snaps, front, now);
      forall r | r in before ensures r.hostname != name {
        assert r.hostname in Snapshotted(before);
      }
      assert Resolution(name, Texts(n, snaps[name]), now) in HostResolutions(n, snaps, targets, now);
    }
  }

  lemma {:induction false} FindSucceeds(resolutions: seq<Resolution>, name: string)
    requires exists r :: r in resolutions && r.hostname == name
    ensures FindResolution(resolutions, name).Some?
  {
    if resolutions[0].hostname != name {
      FindSucceeds(resolutions[1..], name);
    }
  }

  /** Places of hostname targets carry their slot's planned address. */
  lemma {:induction false} HostPlaces(n: Notation, snaps: Snapshots, targets: seq<Target>, place: Place)
    requires Covers(snaps, targets) && place in Places(n, snaps, targets) && place.source.Some?
    ensures var name := place.source.value;
            && HostTarget(name) in targets && place.target == HostTarget(name)
            && place.slot.Some? && place.slot.value < |snaps[name]|
            && place.address == Texts(n, snaps[name])[place.slot.value]
  {
    var front, last := targets[..|targets| - 1], targets[|targets| - 1];
    assert targets == front + [last];
    if place in Places(n, snaps, front) {
      HostPlaces(n, snaps, front, place);
    } else {
      hide Hosts;
      assert place in PlacesOf(n, snaps, last);
    }
  }

  lemma {:induction false} SlotPlace(n: Notation, snaps: Snapshots, targets: seq<Target>, name: string, slot: nat)
    requires Covers(snaps, targets) && HostTarget(name) in targets && slot < |snaps[name]|
    ensures Place(HostTarget(name), Texts(n, snaps[name])[slot], Some(name), Some(slot)) in Places(n, snaps, targets)
  {
    var front, last := targets[..|targets| - 1], targets[|targets| - 1];
    assert targets == front + [last];
    if last == HostTarget(name) {
      var added := PlacesOf(n, snaps, last);
      assert added[slot] in added;
    } else {
      SlotPlace(n, snaps, front, name, slot);
    }
  }

  /** A hostname step against what was planned for its host. */
  predicate PlannedStep(n: Notation, s: ProbeStep, name: string, es: seq<Endpoint>) {
    && s.fields.sourceHostname == Some(name) && s.fields.target == n.spell(HostTarget(name))
    && s.fields.slot.Some? && s.fields.slot.value < |es|
    && s.fields.address == Some(n.spell(AsTarget(es[s.fields.slot.value])))
    && s.fields.kind in {TcpConnect, UdpExchange} && s.fields.port.Some? && s.fields.transport.Some?
  }

  lemma {:induction false} StepsArePlanned(n: Notation, shape: Shape, snaps: Snapshots, s: ProbeStep, name: string)
    requires Covers(snaps, shape.targets) && CompileSteps(n, shape, Places(n, snaps, shape.targets)).Ok?
    requires s in CompileSteps(n, shape, Places(n, snaps, shape.targets)).value && s.fields.sourceHostname == Some(name)
    requires forall t :: t in shape.targets && t.HostTarget? ==> forall i :: 0 <= i < |snaps[t.name]| ==>
               n.parse(n.spell(AsTarget(snaps[t.name][i]))) == Some(AsTarget(snaps[t.name][i]))
    ensures HostTarget(name) in shape.targets && PlannedStep(n, s, name, snaps[name])
    ensures s.fields.port.value in shape.ports && s.fields.transport.value in shape.transports
  {
    var places := Places(n, snaps, shape.targets);
    StepsExactly(n, shape, places, s);
    hide CompileSteps, Places, OverPort, Cost;
    var place :| place in places && n.parse(place.address).Some?
                 && OverPort(n, shape, place, n.parse(place.address).value, shape.ports, s);
    PortStep(n, shape, place, n.parse(place.address).value, s);
    HostPlaces(n, snaps, shape.targets, place);
  }

  lemma PortStep(n: Notation, shape: Shape, place: Place, address: Target, s: ProbeStep)
    requires OverPort(n, shape, place, address, shape.ports, s)
    ensures s.fields.sourceHostname == place.source && s.fields.slot == place.slot
    ensures s.fields.target == n.spell(place.target) && s.fields.address == Some(n.spell(address))
    ensures s.fields.kind in {TcpConnect, UdpExchange} && s.fields.port.Some? && s.fields.transport.Some?
    ensures s.fields.port.value in shape.ports && s.fields.transport.value in shape.transports
  {
    hide Cost;
  }

  /** A host of a plan: its snapshot, its steps and its slots. */
  ghost predicate HostPlanned(n: Notation, g: Grant, resolutions: seq<Resolution>, steps: seq<ProbeStep>, name: string, es: seq<Endpoint>) {
    && n.parse(n.spell(HostTarget(name))) == Some(HostTarget(name))
    && FindResolution(resolutions, name).Some? && FindResolution(resolutions, name).value.hostname == name
    && FindResolution(resolutions, name).value.addresses == Texts(n, es)
    && (forall s :: s in steps && s.fields.sourceHostname == Some(name) ==>
          && PlannedStep(n, s, name, es)
          && (name == "localhost" || PermitsStep(g, s.fields.port.value, s.fields.transport.value)))
    && (forall k :: 0 <= k < |es| ==> SlotHasStep(steps, name, k))
  }

  predicate SlotHasStep(steps: seq<ProbeStep>, name: string, slot: nat) {
    exists s :: s in steps && s.fields.sourceHostname == Some(name) && s.fields.slot == Some(slot)
  }

  lemma {:induction false} HostOfBuild(n: Notation, shape: Shape, snaps: Snapshots, steps: seq<ProbeStep>, name: string, now: int)
    requires Covers(snaps, shape.targets) && CompileSteps(n, shape, Places(n, snaps, shape.targets)) == Ok(steps)
    requires shape.ports != [] && shape.repeats >= 1 && shape.transports != [] && name in Sources(steps)
    requires TargetsFaithful(n, shape.targets) && SnapshotsFaithful(n, shape.grant, snaps, shape.targets)
    requires StepsPermitted(shape.grant, shape.targets, shape.ports, shape.transports)
    ensures HostTarget(name) in shape.targets
    ensures HostPlanned(n, shape.grant, HostResolutions(n, snaps, shape.targets, now), steps, name, snaps[name])
  {
    hide CompileSteps, Places, HostResolutions, PlannedStep, AnswersPermitted, EndpointLess, DestinationAllowed, Texts, FindResolution, Distinct;
    var resolutions := HostResolutions(n, snaps, shape.targets, now);
    var some :| some in steps && some.fields.sourceHostname == Some(name);
    StepsArePlanned(n, shape, snaps, some, name);
    HostResolutionFound(n, snaps, shape.targets, name, now);
    FindSucceeds(resolutions, name);
    FoundName(resolutions, name);
    forall s | s in steps && s.fields.sourceHostname == Some(name)
      ensures PlannedStep(n, s, name, snaps[name]) && s.fields.port.Some? && s.fields.transport.Some?
      ensures name == "localhost" || PermitsStep(shape.grant, s.fields.port.value, s.fields.transport.value)
    {
      StepsArePlanned(n, shape, snaps, s, name);
      PlannedPort(n, s, name, snaps[name]);
    }
    forall k | 0 <= k < |snaps[name]| ensures SlotHasStep(steps, name, k) {
      SlotPlace(n, snaps, shape.targets, name, k);
      SlotStep(n, shape, Places(n, snaps, shape.targets), steps,
               Place(HostTarget(name), SlotText(n, snaps[name], k), Some(name), Some(k)));
    }
  }

  function SlotText(n: Notation, es: seq<Endpoint>, k: nat): string
    requires k < |es|
  {
    Texts(n, es)[k]
  }

  lemma PlannedPort(n: Notation, s: ProbeStep, name: string, es: seq<Endpoint>)
    requires PlannedStep(n, s, name, es)
    ensures s.fields.port.Some? && s.fields.transport.Some? && s.fields.slot.Some? && s.fields.slot.value < |es|
  {
  }

  lemma PlannedHost(env: Environment, q: Request, resolver: Resolver, now: int, name: string) returns (es: seq<Endpoint>)
    requires Sound(env) && PreviewPlan(env, q, resolver, now).Ok?
    requires name in Sources(PreviewPlan(env, q, resolver, now).value.steps)
    ensures var p := PreviewPlan(env, q, resolver, now).value;
            && ResolveForPlan(env.notation, q.grant, name, resolver, now) == Ok(es)
            && p.scope == q.grant && HostPlanned(env.notation, q.grant, p.resolutions, p.steps, name, es)
  {
    hide Sound, HostResolutions, Confirmations, Undated, HostPlanned, Faithful, SnapshotsFaithful, TargetsFaithful, StepsPermitted;
    CartesianParts(env, q, resolver, now);
    PublishedGrant(env, q, resolver, now);
    var n, p := env.notation, PreviewPlan(env, q, resolver, now).value;
    hide PreviewPlan, ReadRequest, ResolveAll, Build, CompileSteps, Places, EstimateOf, Sources;
    var shape := ReadRequest(env, q, now).value;
    var snaps := ResolveAll(n, shape.grant, shape.targets, resolver, now).value;
    ReadsProfile(env, q, now);
    assert TargetsFaithful(n, shape.targets) by { ReadTargets(env, q, now); }
    NoSctp(env, q, now);
    ReadsPermitted(env, q, now);
    HostOfBuild(n, shape, snaps, p.steps, name, now);
    assert p.resolutions == HostResolutions(n, snaps, shape.targets, now);
    SoundIsFaithful(env);
    ResolveAllFaithful(n, shape.grant, shape.targets, resolver, now);
    es := snaps[name];
  }

  lemma ReadTargets(env: Environment, q: Request, now: int)
    requires Sound(env) && ReadRequest(env, q, now).Ok?
    ensures TargetsFaithful(env.notation, ReadRequest(env, q, now).value.targets)
  {
    hide Sound, ReadRequest, TargetsFaithful, AllAuthorized, LimitsWithin, InTextOrder, Ascending, Spelled, Distinct;
    ShapeFacts(env, q, now);
  }

  lemma {:induction false} SlotStep(n: Notation, shape: Shape, places: seq<Place>, steps: seq<ProbeStep>, place: Place)
    requires CompileSteps(n, shape, places) == Ok(steps) && place in places
    requires shape.ports != [] && shape.repeats >= 1 && shape.transports != []
    ensures exists s :: s in steps && s.fields.sourceHostname == place.source && s.fields.slot == place.slot
  {
    hide CompileSteps, Cost;
    PlacesParse(n, shape, places);
    var address := n.parse(place.address).value;
    var s := StepFor(n, shape, place, address, shape.ports[0], shape.transports[0], 1);
    assert OverTransport(n, shape, place, address, shape.ports[0], shape.transports, s);
    assert OverPort(n, shape, place, address, shape.ports, s);
    StepsExactly(n, shape, places, s);
  }

  lemma ReadsPermitted(env: Environment, q: Request, now: int)
    requires ReadRequest(env, q, now).Ok?
    ensures var shape := ReadRequest(env, q, now).value;
            StepsPermitted(q.grant, shape.targets, shape.ports, shape.transports)
  {
    hide PayloadOf, LimitsWithin, AllAuthorized, PortsOf, TransportsOf, NormalizeTargets, StepsPermitted;
  }

  /** The verdict on one planned hostname step, in terms of the new answer alone. */
  lemma {:induction false} OneStepPrepared(env: Environment, p: Preview, s: ProbeStep, name: string, es: seq<Endpoint>,
                        octets: Option<seq<bv8>>, resolver: Resolver, now: int)
    requires PlannedStep(env.notation, s, name, es)
    requires env.notation.parse(env.notation.spell(HostTarget(name))) == Some(HostTarget(name))
    requires name == "localhost" || (p.scope.attested && name in p.scope.hostnames
                                     && PermitsStep(p.scope, s.fields.port.value, s.fields.transport.value))
    requires FindResolution(p.resolutions, name).Some? && FindResolution(p.resolutions, name).value.hostname == name
    requires FindResolution(p.resolutions, name).value.addresses == Texts(env.notation, es)
    ensures PreflightStep(env, p, s, octets, resolver, now).Ok? <==>
              && Approved(env, s.fields.payload, octets) && Current(p.scope, now)
              && (name == "localhost" || s.fields.kind in p.scope.kinds)
              && RecheckResolution(env.notation, p.scope, name, resolver, now).Ok?
              && var answered := Texts(env.notation, RecheckResolution(env.notation, p.scope, name, resolver, now).value);
                 && |answered| <= |es| && s.fields.slot.value < |answered|
                 && answered[s.fields.slot.value] == Texts(env.notation, es)[s.fields.slot.value]
  {
    hide RecheckResolution, FindResolution, Current;
  }

  /** The answers name the same addresses, in any order and any number of times. */
  ghost predicate SameAnswers(n: Notation, a: seq<Answer>, b: seq<Answer>) {
    Endpoints(n, a).Some? && Endpoints(n, b).Some? && Elements(Endpoints(n, a).value) == Elements(Endpoints(n, b).value)
  }

  lemma SameAnswersResolveSame(n: Notation, a: seq<Answer>, b: seq<Answer>)
    requires Resolved(n, a).Ok?
    ensures SameAnswers(n, a, b) <==> Resolved(n, b) == Resolved(n, a)
  {
    hide EndpointLess, StrictOrder;
    if SameAnswers(n, a, b) {
      ResolutionDependsOnSet(n, a, b);
    }
    if Resolved(n, b) == Resolved(n, a) {
      EndpointOrder();
      CanonicalAscends(EndpointLess, Endpoints(n, a).value);
      CanonicalAscends(EndpointLess, Endpoints(n, b).value);
    }
  }

  lemma SpelledApart(n: Notation, es: seq<Endpoint>, fs: seq<Endpoint>)
    requires forall i :: 0 <= i < |es| ==> n.parse(n.spell(AsTarget(es[i]))) == Some(AsTarget(es[i]))
    requires forall i :: 0 <= i < |fs| ==> n.parse(n.spell(AsTarget(fs[i]))) == Some(AsTarget(fs[i]))
    requires Texts(n, es) == Texts(n, fs)
    ensures es == fs
  {
    forall i | 0 <= i < |es| ensures es[i] == fs[i] {
      assert Texts(n, es)[i] == Texts(n, fs)[i];
    }
  }

  ghost predicate AllPrepared(env: Environment, p: Preview, name: string, octets: ProbeStep -> Option<seq<bv8>>, resolver: Resolver, now: int) {
    forall s :: s in p.steps && s.fields.sourceHostname == Some(name) ==>
      PreflightStep(env, p, s, octets(s), resolver, now).Ok?
  }

  ghost predicate KindsGranted(g: Grant, steps: seq<ProbeStep>, name: string) {
    name == "localhost" || forall s :: s in steps && s.fields.sourceHostname == Some(name) ==> s.fields.kind in g.kinds
  }

  /** Every step of the host comes with its approved octets. */
  ghost predicate AllApproved(env: Environment, steps: seq<ProbeStep>, name: string, octets: ProbeStep -> Option<seq<bv8>>) {
    forall s :: s in steps && s.fields.sourceHostname == Some(name) ==> Approved(env, s.fields.payload, octets(s))
  }

  /** Preflight of a Cartesian plan, both ways: the steps of a hostname all pass exactly
      when the scope is current, the octets are the approved ones, the resolver names the
      planned set of addresses, in any order and multiplicity, and the grant covers the
      probe kinds (which the Cartesian compiler itself does not look at). */
  lemma PreflightExactlyWhenUnchanged(env: Environment, q: Request, planned: Resolver, created: int, name: string,
                                      octets: ProbeStep -> Option<seq<bv8>>, resolver: Resolver, now: int)
    requires Sound(env) && PreviewPlan(env, q, planned, created).Ok?
    requires name in Sources(PreviewPlan(env, q, planned, created).value.steps)
    ensures var p := PreviewPlan(env, q, planned, created).value;
            AllPrepared(env, p, name, octets, resolver, now) <==>
              && Current(q.grant, now) && AllApproved(env, p.steps, name, octets)
              && SameAnswers(env.notation, planned(name), resolver(name)) && KindsGranted(q.grant, p.steps, name)
  {
    hide PreviewPlan, Sound, Approved, PreflightStep, Current, EndpointLess, SameAnswers, PlannedStep, Faithful;
    var some :| some in PreviewPlan(env, q, planned, created).value.steps && some.fields.sourceHostname == Some(name);
    hide Sources;
    var n, p := env.notation, PreviewPlan(env, q, planned, created).value;
    var es := PlannedHost(env, q, planned, created, name);
    SoundIsFaithful(env);
    PlannedResolved(n, q.grant, name, planned, created, es);
    SameAnswersResolveSame(n, planned(name), resolver(name));
    forall s | s in p.steps && s.fields.sourceHostname == Some(name)
      ensures PreflightStep(env, p, s, octets(s), resolver, now).Ok? <==>
                && Approved(env, s.fields.payload, octets(s)) && Current(q.grant, now)
                && (name == "localhost" || s.fields.kind in q.grant.kinds) && SlotKept(n, q.grant, name, resolver, now, es, s)
    {
      PlannedPort(n, s, name, es);
      OneStepPrepared(env, p, s, name, es, octets(s), resolver, now);
    }
    hide HostPlanned, ResolveForPlan, Resolved, SlotKept;
    if Current(q.grant, now) {
      AllSlotsKept(n, q.grant, p.resolutions, p.steps, name, es, planned, resolver, created, now);
    }
  }

  /** One step's part of the verdict that the new answer decides. */
  predicate SlotKept(n: Notation, g: Grant, name: string, resolver: Resolver, now: int, es: seq<Endpoint>, s: ProbeStep) {
    && RecheckResolution(n, g, name, resolver, now).Ok?
    && s.fields.slot.Some?
    && var answered := Texts(n, RecheckResolution(n, g, name, resolver, now).value);
       && |answered| <= |es| && s.fields.slot.value < |answered|
       && answered[s.fields.slot.value] == Texts(n, es)[s.fields.slot.value]
  }

  lemma PlannedResolved(n: Notation, g: Grant, name: string, resolver: Resolver, now: int, es: seq<Endpoint>)
    requires Faithful(n) && ResolveForPlan(n, g, name, resolver, now) == Ok(es)
    ensures Resolved(n, resolver(name)) == Ok(es) && AnswersPermitted(g, name, es) && es != []
    ensures name == "localhost" || (g.attested && name in g.hostnames)
    ensures forall i :: 0 <= i < |es| ==> n.parse(n.spell(AsTarget(es[i]))) == Some(AsTarget(es[i]))
  {
    hide Resolved;
    ResolvedEndpoints(n, resolver(name));
  }

  lemma AllSlotsKept(n: Notation, g: Grant, resolutions: seq<Resolution>, steps: seq<ProbeStep>, name: string, es: seq<Endpoint>,
                     planned: Resolver, resolver: Resolver, created: int, now: int)
    requires Faithful(n) && ResolveForPlan(n, g, name, planned, created) == Ok(es) && Current(g, now)
    requires HostPlanned(n, g, resolutions, steps, name, es)
    ensures (forall s :: s in steps && s.fields.sourceHostname == Some(name) ==> SlotKept(n, g, name, resolver, now, es, s))
            <==> Resolved(n, resolver(name)) == Ok(es)
  {
    hide Faithful, Current, EndpointLess, FindResolution;
    PlannedResolved(n, g, name, planned, created, es);
    hide ResolveForPlan, AnswersPermitted, Resolved, Texts;
    var r := RecheckResolution(n, g, name, resolver, now);
    if Resolved(n, resolver(name)) == Ok(es) {
      assert r == Ok(es);
    } else if forall s :: s in steps && s.fields.sourceHostname == Some(name) ==> SlotKept(n, g, name, resolver, now, es, s) {
      assert SlotHasStep(steps, name, 0);
      var s :| s in steps && s.fields.sourceHostname == Some(name) && s.fields.slot == Some(0);
      assert SlotKept(n, g, name, resolver, now, es, s);
      var fs := r.value;
      assert Resolved(n, resolver(name)) == Ok(fs);
      ResolvedEndpoints(n, resolver(name));
      KeptEverywhere(n, es, fs, steps, name);
      SpelledApart(n, es, fs);
    }
  }

  lemma KeptEverywhere(n: Notation, es: seq<Endpoint>, fs: seq<Endpoint>, steps: seq<ProbeStep>, name: string)
    requires es != []
    requires forall k :: 0 <= k < |es| ==> SlotHasStep(steps, name, k)
    requires forall s :: s in steps && s.fields.sourceHostname == Some(name) ==>
               && s.fields.slot.Some? && |fs| <= |es| && s.fields.slot.value < |fs|
               && Texts(n, fs)[s.fields.slot.value] == Texts(n, es)[s.fields.slot.value]
    ensures Texts(n, es) == Texts(n, fs)
  {
    assert SlotHasStep(steps, name, |es| - 1);
    var last :| last in steps && last.fields.sourceHostname == Some(name) && last.fields.slot == Some(|es| - 1);
    assert |fs| == |es|;
    forall k | 0 <= k < |es| ensures Texts(n, es)[k] == Texts(n, fs)[k] {
      assert SlotHasStep(steps, name, k);
      var s :| s in steps && s.fields.sourceHostname == Some(name) && s.fields.slot == Some(k);
    }
  }

  // --- steps without a hostname ---------------------------------------------------------------

  lemma {:induction false} NamelessPlaces(n: Notation, snaps: Snapshots, targets: seq<Target>, place: Place)
    requires Covers(snaps, targets) && place in Places(n, snaps, targets) && place.source.None?
    ensures place.target in targets && !place.target.HostTarget?
  {
    var front, last := targets[..|targets| - 1], targets[|targets| - 1];
    assert targets == front + [last];
    if place in Places(n, snaps, front) {
      NamelessPlaces(n, snaps, front, place);
    } else {
      hide Hosts;
      assert place in PlacesOf(n, snaps, last);
    }
  }

  /** A step of an address or network target against its request. */
  ghost predicate NamelessStep(n: Notation, g: Grant, targets: seq<Target>, s: ProbeStep) {
    && s.fields.kind in {TcpConnect, UdpExchange} && s.fields.port.Some? && s.fields.transport.Some?
    && n.parse(s.fields.target).Some?
    && var t := n.parse(s.fields.target).value;
       && t in targets && !t.HostTarget?
       && (LoopbackTarget(t) || (g.attested && InScope(g, t) && PermitsStep(g, s.fields.port.value, s.fields.transport.value)))
  }

  lemma NamelessPlanned(env: Environment, q: Request, planned: Resolver, created: int, s: ProbeStep)
    requires Sound(env) && PreviewPlan(env, q, planned, created).Ok?
    requires s in PreviewPlan(env, q, planned, created).value.steps && s.fields.sourceHostname.None?
    ensures var p := PreviewPlan(env, q, planned, created).value;
            p.scope == q.grant && NamelessStep(env.notation, q.grant, p.targets, s)
  {
    hide Sound, HostResolutions, Confirmations, Undated, SnapshotsFaithful, StepsPermitted, NamelessStep, TargetsFaithful, AllAuthorized;
    CartesianParts(env, q, planned, created);
    PublishedGrant(env, q, planned, created);
    var n, p := env.notation, PreviewPlan(env, q, planned, created).value;
    hide PreviewPlan, ReadRequest, ResolveAll, Build, CompileSteps, Places, EstimateOf;
    var shape := ReadRequest(env, q, created).value;
    var snaps := ResolveAll(n, shape.grant, shape.targets, planned, created).value;
    ReadsProfile(env, q, created);
    ReadTargets(env, q, created);
    ReadsPermitted(env, q, created);
    ReadsAuthorized(env, q, created);
    NamelessOfShape(n, shape, snaps, s, created);
  }

  lemma ReadsAuthorized(env: Environment, q: Request, now: int)
    requires ReadRequest(env, q, now).Ok?
    ensures var shape := ReadRequest(env, q, now).value; AllAuthorized(q.grant, shape.targets, now)
  {
    hide PayloadOf, LimitsWithin, AllAuthorized, PortsOf, TransportsOf, NormalizeTargets, StepsPermitted;
  }

  lemma {:induction false} NamelessOfShape(n: Notation, shape: Shape, snaps: Snapshots, s: ProbeStep, now: int)
    requires Covers(snaps, shape.targets) && CompileSteps(n, shape, Places(n, snaps, shape.targets)).Ok?
    requires s in CompileSteps(n, shape, Places(n, snaps, shape.targets)).value && s.fields.sourceHostname.None?
    requires TargetsFaithful(n, shape.targets) && AllAuthorized(shape.grant, shape.targets, now)
    requires StepsPermitted(shape.grant, shape.targets, shape.ports, shape.transports)
    ensures NamelessStep(n, shape.grant, shape.targets, s)
  {
    var places := Places(n, snaps, shape.targets);
    StepsExactly(n, shape, places, s);
    hide CompileSteps, Places, OverPort, Cost, LoopbackTarget, InScope, DestinationAllowed, Distinct;
    var place :| place in places && n.parse(place.address).Some?
                 && OverPort(n, shape, place, n.parse(place.address).value, shape.ports, s);
    PortStep(n, shape, place, n.parse(place.address).value, s);
    NamelessPlaces(n, snaps, shape.targets, place);
    var i :| 0 <= i < |shape.targets| && shape.targets[i] == place.target;
    assert Authorized(shape.grant, shape.targets[i], now);
  }

  /** The companion for the other steps of a Cartesian plan: the step of an address or network
      target passes exactly when the scope is current, the octets are the approved ones, and
      that target is loopback or the grant covers the probe kind. */
  lemma {:induction false} NamelessPassesExactly(
    env: Environment, q: Request, planned: Resolver, created: int, s: ProbeStep, octets: Option<seq<bv8>>, resolver: Resolver, now: int)
    requires Sound(env) && PreviewPlan(env, q, planned, created).Ok?
    requires s in PreviewPlan(env, q, planned, created).value.steps && s.fields.sourceHostname.None?
    ensures var p, t := PreviewPlan(env, q, planned, created).value, env.notation.parse(s.fields.target);
            && t.Some? && t.value in p.targets
            && (PreflightStep(env, p, s, octets, resolver, now).Ok? <==>
                  && Current(q.grant, now) && Approved(env, s.fields.payload, octets)
                  && (LoopbackTarget(t.value) || s.fields.kind in q.grant.kinds))
  {
    hide PreviewPlan, Sound, NamelessStep, PreflightStep, Approved, Current, LoopbackTarget;
    NamelessPlanned(env, q, planned, created, s);
    NamelessVerdict(env, PreviewPlan(env, q, planned, created).value, s, octets, resolver, now);
  }

  lemma NamelessVerdict(env: Environment, p: Preview, s: ProbeStep, octets: Option<seq<bv8>>, resolver: Resolver, now: int)
    requires NamelessStep(env.notation, p.scope, p.targets, s) && s.fields.sourceHostname.None?
    ensures var t := env.notation.parse(s.fields.target);
            && t.Some? && t.value in p.targets
            && (PreflightStep(env, p, s, octets, resolver, now).Ok? <==>
                  && Current(p.scope, now) && Approved(env, s.fields.payload, octets)
                  && (LoopbackTarget(t.value) || s.fields.kind in p.scope.kinds))
  {
    hide Current, LoopbackTarget, InScope;
  }

  /** The sparse compiler has looked at the kinds itself: a step without a hostname passes
      exactly when the scope is current and the octets are the approved ones. */
  lemma {:induction false} SparseNamelessPasses(
    env: Environment, specs: seq<StepFields>, g: Grant, profile: string, limits: Limits, created: int,
    s: ProbeStep, octets: Option<seq<bv8>>, resolver: Resolver, now: int)
    requires Sparse.PreviewProbePlan(env, specs, g, profile, limits, created).Ok?
    requires s in Sparse.PreviewProbePlan(env, specs, g, profile, limits, created).value.steps && s.fields.sourceHostname.None?
    ensures var p := Sparse.PreviewProbePlan(env, specs, g, profile, limits, created).value;
            var r := PreflightStep(env, p, s, octets, resolver, now);
            && (r.Ok? <==> Current(g, now) && Approved(env, s.fields.payload, octets))
            && (r.Ok? ==> r.value == PreparedStep(s, s.fields.address, false))
  {
    hide EstimateWithin, Sparse.EstimateOf, Sparse.SlotResolutions, Sparse.CompileSpecs, Canonical, Sparse.Hostnames;
    var p := Sparse.PreviewProbePlan(env, specs, g, profile, limits, created).value;
    Sparse.FinishParts(env, specs, g, profile, limits, created);
    Sparse.CompiledSteps(env.notation, g, specs, created);
    var i :| 0 <= i < |p.steps| && p.steps[i] == s;
    assert Sparse.Admissible(env.notation, g, specs[i], created).Pass?;
    hide Sparse.PreviewProbePlan, Current, LoopbackTarget, InScope, PermitsProbe;
  }
}
