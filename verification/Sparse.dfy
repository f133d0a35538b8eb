/** The sparse plan compiler: an explicit list of probes, compiled in order. */
module Sparse {
  import opened Outcomes
  import opened Collections
  import opened Networks
  import opened Plans
  import opened Policy
  import Cartesian

  /** One hostname's reserved addresses, in the order their slots first appeared. */
  datatype Slot = Slot(index: nat, address: string)

  datatype Draftwork = Draftwork(steps: seq<ProbeStep>, slots: map<string, seq<Slot>>)

  predicate SlotDisagrees(slots: seq<Slot>, slot: Slot) {
    exists i :: 0 <= i < |slots| && slots[i].index == slot.index && slots[i].address != slot.address
  }

  predicate HasSlot(slots: seq<Slot>, index: nat) {
    exists i :: 0 <= i < |slots| && slots[i].index == index
  }

  /** `slots[slot] = address` on a dictionary that keeps insertion order. */
  function PutSlot(slots: seq<Slot>, slot: Slot): seq<Slot> {
    if HasSlot(slots, slot.index) then slots else slots + [slot]
  }

  predicate Resolving(spec: StepFields) {
    spec.sourceHostname.Some? && spec.address.Some? && spec.slot.Some?
  }

  /** The address of a spec must be authorised on its own; active probes need the target
      as well; a non-loopback target needs the probe itself permitted. */
  function Admissible(n: Notation, g: Grant, spec: StepFields, now: int): Outcome<Failure> {
    var target := n.parse(spec.target);
    if target.None? || (spec.kind != LocalSnapshot && !Authorized(g, target.value, now)) then Fail(PolicyFailure)
    else if spec.address.Some?
      && (n.parse(spec.address.value).None? || !Authorized(g, n.parse(spec.address.value).value, now)) then Fail(PolicyFailure)
    else if !LoopbackTarget(target.value) && !PermitsProbe(g, spec.kind, spec.port, spec.transport) then Fail(ConfirmationFailure)
    else Pass
  }

  /** One turn of the compiling loop. */
  function CompileSpec(n: Notation, g: Grant, work: Draftwork, spec: StepFields, now: int): Result<Draftwork, Failure> {
    var steps := work.steps + [ProbeStep(SparseDigest(spec), spec)];
    :- Admissible(n, g, spec, now);
    if !Resolving(spec) then Ok(Draftwork(steps, work.slots))
    else
      var name, slot := spec.sourceHostname.value, Slot(spec.slot.value, spec.address.value);
      var known := if name in work.slots then work.slots[name] else [];
      if SlotDisagrees(known, slot) then Err(BudgetFailure)
      else Ok(Draftwork(steps, work.slots[name := PutSlot(known, slot)]))
  }

  function CompileSpecs(n: Notation, g: Grant, specs: seq<StepFields>, now: int): Result<Draftwork, Failure> {
    if specs == [] then Ok(Draftwork([], map[]))
    else
      var before :- CompileSpecs(n, g, specs[..|specs| - 1], now);
      CompileSpec(n, g, before, specs[|specs| - 1], now)
  }

  method Compile(n: Notation, g: Grant, specs: seq<StepFields>, now: int) returns (r: Result<Draftwork, Failure>)
    ensures r == CompileSpecs(n, g, specs, now)
  {
    hide Admissible, PutSlot, SlotDisagrees;
    var steps: seq<ProbeStep>, slots: map<string, seq<Slot>>, i := [], map[], 0;
    while i < |specs|
      invariant 0 <= i <= |specs| && CompileSpecs(n, g, specs[..i], now) == Ok(Draftwork(steps, slots))
    {
      assert specs[..i + 1][..i] == specs[..i];
      var spec := specs[i];
      var admissible := Admissible(n, g, spec, now);
      if admissible.Fail? {
        SpecRefused(n, g, specs, i + 1, now);
        return Err(admissible.error);
      }
      steps := steps + [ProbeStep(SparseDigest(spec), spec)];
      if Resolving(spec) {
        var name, slot := spec.sourceHostname.value, Slot(spec.slot.value, spec.address.value);
        var known := if name in slots then slots[name] else [];
        if SlotDisagrees(known, slot) {
          SpecRefused(n, g, specs, i + 1, now);
          return Err(BudgetFailure);
        }
        slots := slots[name := PutSlot(known, slot)];
      }
      i := i + 1;
    }
    assert specs[..i] == specs;
    return Ok(Draftwork(steps, slots));
  }

  lemma {:induction false} SpecRefused(n: Notation, g: Grant, specs: seq<StepFields>, i: nat, now: int)
    requires i <= |specs| && CompileSpecs(n, g, specs[..i], now).Err?
    ensures CompileSpecs(n, g, specs, now) == CompileSpecs(n, g, specs[..i], now)
  {
    hide CompileSpec;
    if i < |specs| {
      assert specs[..|specs| - 1][..i] == specs[..i];
      SpecRefused(n, g, specs[..|specs| - 1], i, now);
    } else {
      assert specs[..i] == specs;
    }
  }

  // --- the published plan -----------------------------------------------------------------

  predicate ContiguousSlots(slots: seq<Slot>) {
    forall i :: 0 <= i < |slots| ==> slots[i].index == i
  }

  function SlotAddresses(slots: seq<Slot>): seq<string> {
    seq(|slots|, i requires 0 <= i < |slots| => slots[i].address)
  }

  /** Hostnames in the order of the specs that resolve them. */
  function Hostnames(specs: seq<StepFields>): seq<string> {
    if specs == [] then []
    else
      Hostnames(specs[..|specs| - 1])
      + (if Resolving(specs[|specs| - 1]) then [specs[|specs| - 1].sourceHostname.value] else [])
  }

  function SlotResolutions(slots: map<string, seq<Slot>>, names: seq<string>, now: int): seq<Resolution>
    requires forall name :: name in names ==> name in slots
  {
    seq(|names|, i requires 0 <= i < |names| => Resolution(names[i], SlotAddresses(slots[names[i]]), now))
  }

  function PortNumbers(specs: seq<StepFields>): seq<nat> {
    if specs == [] then []
    else PortNumbers(specs[..|specs| - 1]) + (if specs[|specs| - 1].port.Some? then [specs[|specs| - 1].port.value] else [])
  }

  function UsedTransports(specs: seq<StepFields>): set<Transport> {
    set spec | spec in specs && spec.transport.Some? :: spec.transport.value
  }

  function UdpPayloads(specs: seq<StepFields>): set<Payload> {
    set spec | spec in specs && spec.kind.UdpExchange? :: spec.payload
  }

  /** `next(iter(payloads), none)` of a set with at most one element. */
  function SummaryPayload(specs: seq<StepFields>): Payload {
    if specs == [] then NO_PAYLOAD
    else if specs[|specs| - 1].kind.UdpExchange? then specs[|specs| - 1].payload
    else SummaryPayload(specs[..|specs| - 1])
  }

  function MaxAttempt(specs: seq<StepFields>): nat {
    if specs == [] then 0
    else
      var before, last := MaxAttempt(specs[..|specs| - 1]), specs[|specs| - 1].attempt;
      if last > before then last else before
  }

  function Destinations(specs: seq<StepFields>): set<string> {
    set spec | spec in specs :: if spec.address.Some? then spec.address.value else spec.target
  }

  function SpecTargets(specs: seq<StepFields>): seq<string> {
    seq(|specs|, i requires 0 <= i < |specs| => specs[i].target)
  }

  function OutputBytes(steps: seq<ProbeStep>): nat {
    Sum(steps, (s: ProbeStep) => s.fields.cost.maxOutputBytes)
  }

  function EstimateOf(env: Environment, g: Grant, specs: seq<StepFields>, steps: seq<ProbeStep>, ports: seq<nat>, limits: Limits): Estimate {
    Estimate(
      if Destinations(specs) == {} then 1 else |Destinations(specs)|, |ports|, |steps|,
      Datagrams(steps), ApplicationBytes(steps),
      if limits.maxConcurrency <= |steps| then limits.maxConcurrency else |steps|,
      limits.maxDuration, Observations(steps) + 5, OutputBytes(steps) + env.envelope(steps, g),
      limits.maxGlobalRate, limits.maxTargetRate, Packets(steps))
  }

  predicate Silent(specs: seq<StepFields>) {
    exists i :: 0 <= i < |specs| && specs[i].kind != LocalSnapshot && specs[i].cost.packets == 0
  }

  /** The compiled values that appear in the preview and in its hashed draft. */
  function Publish(profile: string, targets: seq<Target>, ports: seq<nat>, specs: seq<StepFields>, steps: seq<ProbeStep>,
                   g: Grant, resolutions: seq<Resolution>, limits: Limits, estimate: Estimate, now: int): Preview {
    var transports, length := Cartesian.InTextOrder(UsedTransports(specs)), SummaryPayload(specs).length;
    var draft := Draft(
      profile, targets, ports, transports, MaxAttempt(specs), length, 1,
      steps, g, Cartesian.Undated(resolutions), limits, estimate, []);
    Preview(
      profile, targets, ports, transports, MaxAttempt(specs), length, 1,
      steps, g, resolutions, limits, estimate, [], now, draft)
  }

  /** `preview_probe_plan` after its loop. */
  function Finish(env: Environment, specs: seq<StepFields>, g: Grant, profile: string, limits: Limits, now: int, work: Draftwork)
    : Result<Preview, Failure>
  {
    var names := Canonical(TextLess, Hostnames(specs));
    :- Need(|set s | s in work.steps :: s.id| == |work.steps|, BudgetFailure);
    :- Need(forall name :: name in names ==> name in work.slots && ContiguousSlots(work.slots[name]), BudgetFailure);
    var resolutions := SlotResolutions(work.slots, names, now);
    var targets :- NormalizeTargets(env.notation, SpecTargets(specs));
    var ports := Canonical(Cartesian.PortLess, PortNumbers(specs));
    :- Need(!Silent(specs), BudgetFailure);
    var estimate := EstimateOf(env, g, specs, work.steps, ports, limits);
    :- Need(EstimateWithin(estimate, limits), BudgetFailure);
    :- Need(|UdpPayloads(specs)| <= 1, BudgetFailure);
    Ok(Publish(profile, targets, ports, specs, work.steps, g, resolutions, limits, estimate, now))
  }

  /** `preview_probe_plan`. */
  function PreviewProbePlan(env: Environment, specs: seq<StepFields>, g: Grant, profile: string, limits: Limits, now: int)
    : Result<Preview, Failure>
  {
    if !(1 <= |profile| <= 128) || !LimitsWithin(limits, ABSOLUTE_CEILINGS) || specs == [] then Err(BudgetFailure)
    else
      var work :- CompileSpecs(env.notation, g, specs, now);
      Finish(env, specs, g, profile, limits, now, work)
  }

  method CompileProbes(env: Environment, specs: seq<StepFields>, g: Grant, profile: string, limits: Limits, now: int)
    returns (r: Result<Preview, Failure>)
    ensures r == PreviewProbePlan(env, specs, g, profile, limits, now)
  {
    hide Finish, CompileSpecs, LimitsWithin;
    if !(1 <= |profile| <= 128) || !LimitsWithin(limits, ABSOLUTE_CEILINGS) || specs == [] { return Err(BudgetFailure); }
    var work := Compile(env.notation, g, specs, now);
    if work.Err? { return Err(work.error); }
    return Finish(env, specs, g, profile, limits, now, work.value);
  }

  // --- what the loop has built --------------------------------------------------------------

  predicate SameIds(specs: seq<StepFields>, steps: seq<ProbeStep>) {
    |steps| == |specs| && forall i :: 0 <= i < |specs| ==> steps[i] == ProbeStep(SparseDigest(specs[i]), specs[i])
  }

  lemma {:induction false} CompiledSteps(n: Notation, g: Grant, specs: seq<StepFields>, now: int)
    requires CompileSpecs(n, g, specs, now).Ok?
    ensures SameIds(specs, CompileSpecs(n, g, specs, now).value.steps)
    ensures forall i :: 0 <= i < |specs| ==> Admissible(n, g, specs[i], now).Pass?
  {
    hide Admissible, SlotDisagrees, PutSlot, Resolving;
    if specs != [] {
      var front, last := specs[..|specs| - 1], specs[|specs| - 1];
      CompiledSteps(n, g, front, now);
      assert Admissible(n, g, last, now).Pass?;
      assert CompileSpecs(n, g, specs, now).value.steps
          == CompileSpecs(n, g, front, now).value.steps + [ProbeStep(SparseDigest(last), last)];
    }
  }

  lemma {:induction false} CompiledSlots(n: Notation, g: Grant, specs: seq<StepFields>, now: int)
    requires CompileSpecs(n, g, specs, now).Ok?
    ensures CompileSpecs(n, g, specs, now).value.slots.Keys == Elements(Hostnames(specs))
  {
    hide Admissible, SlotDisagrees, PutSlot;
    if specs != [] {
      CompiledSlots(n, g, specs[..|specs| - 1], now);
    }
  }

  lemma {:induction false} HostnamesExact(specs: seq<StepFields>, name: string)
    ensures name in Hostnames(specs) <==> exists i :: 0 <= i < |specs| && Resolving(specs[i]) && specs[i].sourceHostname == Some(name)
  {
    if specs != [] {
      var front, last := specs[..|specs| - 1], specs[|specs| - 1];
      HostnamesExact(front, name);
      assert forall i :: 0 <= i < |front| ==> front[i] == specs[i];
    }
  }

  // --- theorems ------------------------------------------------------------------------------

  lemma DistinctFromCount(steps: seq<ProbeStep>)
    requires |set s | s in steps :: s.id| == |steps|
    ensures DistinctIds(steps)
    decreases |steps|
  {
    var ids := set s | s in steps :: s.id;
    forall i, j | 0 <= i < j < |steps| ensures steps[i].id != steps[j].id {
      if steps[i].id == steps[j].id {
        var rest := steps[..j] + steps[j + 1..];
        forall k | 0 <= k < |steps| ensures exists r :: r in rest && r.id == steps[k].id {
          var at := if k < j then k else if k == j then i else k - 1;
          assert rest[at] in rest && rest[at].id == steps[k].id;
        }
        assert ids == set s | s in rest :: s.id;
        IdsAtMost(rest);
      }
    }
  }

  lemma {:induction false} IdsAtMost(steps: seq<ProbeStep>)
    ensures |set s | s in steps :: s.id| <= |steps|
  {
    if steps != [] {
      var front, last := steps[..|steps| - 1], steps[|steps| - 1];
      IdsAtMost(front);
      assert steps == front + [last];
      assert (set s | s in steps :: s.id) == (set s | s in front :: s.id) + {last.id};
    }
  }

  lemma {:induction false} ObservationsAtLeast(steps: seq<ProbeStep>)
    requires forall i :: 0 <= i < |steps| ==> steps[i].fields.cost.maxObservations >= 1
    ensures Observations(steps) >= |steps|
  {
    if steps != [] {
      ObservationsAtLeast(steps[..|steps| - 1]);
    }
  }

  lemma {:induction false} FinishParts(
    env: Environment, specs: seq<StepFields>, g: Grant, profile: string, limits: Limits, now: int)
    requires PreviewProbePlan(env, specs, g, profile, limits, now).Ok?
    ensures var p := PreviewProbePlan(env, specs, g, profile, limits, now).value;
            && specs != [] && CompileSpecs(env.notation, g, specs, now).Ok?
            && SameIds(specs, p.steps)
            && |set s | s in p.steps :: s.id| == |p.steps|
            && p.estimate == EstimateOf(env, g, specs, p.steps, p.ports, limits)
            && EstimateWithin(p.estimate, limits)
            && p.limits == limits && p.scope == g && p.profile == profile && p.createdAt == now
            && CompileSpecs(env.notation, g, specs, now).value.slots.Keys == Elements(Hostnames(specs))
            && (forall name :: name in Canonical(TextLess, Hostnames(specs)) ==> name in Elements(Hostnames(specs)))
            && p.resolutions == SlotResolutions(
                 CompileSpecs(env.notation, g, specs, now).value.slots, Canonical(TextLess, Hostnames(specs)), now)
  {
    hide Finish, CompileSpecs, EstimateOf, EstimateWithin, SlotResolutions, SameIds, Hostnames, Canonical, LimitsWithin;
    CompiledSteps(env.notation, g, specs, now);
    CompiledSlots(env.notation, g, specs, now);
    NamesKnown(specs);
    FinishGives(env, specs, g, profile, limits, now, CompileSpecs(env.notation, g, specs, now).value);
  }

  lemma {:induction false} FinishGives(
    env: Environment, specs: seq<StepFields>, g: Grant, profile: string, limits: Limits, now: int, work: Draftwork)
    requires Finish(env, specs, g, profile, limits, now, work).Ok?
    requires forall name :: name in Canonical(TextLess, Hostnames(specs)) ==> name in work.slots
    ensures var p := Finish(env, specs, g, profile, limits, now, work).value;
            && p.steps == work.steps
            && |set s | s in p.steps :: s.id| == |p.steps|
            && p.estimate == EstimateOf(env, g, specs, p.steps, p.ports, limits)
            && EstimateWithin(p.estimate, limits)
            && p.limits == limits && p.scope == g && p.profile == profile && p.createdAt == now
            && p.resolutions == SlotResolutions(work.slots, Canonical(TextLess, Hostnames(specs)), now)
  {
    hide TextLess, EstimateOf, EstimateWithin, NormalizeTargets, Canonical, SlotResolutions, Cartesian.Undated,
         Cartesian.InTextOrder, SummaryPayload, MaxAttempt, Hostnames, Silent, UdpPayloads, PortNumbers, UsedTransports,
         SpecTargets, ContiguousSlots;
  }

  lemma {:induction false} NamesKnown(specs: seq<StepFields>)
    ensures Elements(Canonical(TextLess, Hostnames(specs))) == Elements(Hostnames(specs))
    ensures forall name :: name in Canonical(TextLess, Hostnames(specs)) ==> name in Elements(Hostnames(specs))
  {
    hide TextLess, StrictOrder, Canonical, Hostnames;
    TextOrder();
    CanonicalAscends(TextLess, Hostnames(specs));
    forall name | name in Canonical(TextLess, Hostnames(specs)) ensures name in Elements(Hostnames(specs)) {
      assert name in Elements(Canonical(TextLess, Hostnames(specs)));
    }
  }

  /** Every sparse plan reserves exactly the sum over its steps, with one event for each
      permitted observation and five for the lifecycle; every address it names was
      authorised on its own. */
  lemma SparsePlanIsReserved(env: Environment, specs: seq<StepFields>, g: Grant, profile: string, limits: Limits, now: int)
    requires LimitsPositive(limits) && forall i :: 0 <= i < |specs| ==> specs[i].cost.maxObservations >= 1
    requires PreviewProbePlan(env, specs, g, profile, limits, now).Ok?
    ensures var p := PreviewProbePlan(env, specs, g, profile, limits, now).value;
            && Reserved(p) && EventsReserved(p)
            && forall i :: 0 <= i < |p.steps| && p.steps[i].fields.address.Some? ==>
                 var t := env.notation.parse(p.steps[i].fields.address.value);
                 t.Some? && (LoopbackTarget(t.value) || (g.attested && InScope(g, t.value)))
  {
    var p := PreviewProbePlan(env, specs, g, profile, limits, now).value;
    FinishParts(env, specs, g, profile, limits, now);
    CompiledSteps(env.notation, g, specs, now);
    hide PreviewProbePlan, LimitsPositive, EstimateWithin, CompileSpecs, SlotResolutions, Canonical, Hostnames, Datagrams,
         ApplicationBytes, Packets, OutputBytes, Destinations, LoopbackTarget, InScope, PermitsProbe;
    DistinctFromCount(p.steps);
    ObservationsAtLeast(p.steps);
    hide Observations;
    forall i | 0 <= i < |p.steps| && p.steps[i].fields.address.Some?
      ensures var t := env.notation.parse(p.steps[i].fields.address.value);
              t.Some? && (LoopbackTarget(t.value) || (g.attested && InScope(g, t.value)))
    {
      assert Admissible(env.notation, g, specs[i], now).Pass?;
    }
  }
}
