/** The Cartesian plan compiler: targets x ports x transports x attempts. */
module Cartesian {
  import opened Outcomes
  import opened Collections
  import opened Networks
  import opened Plans
  import opened Policy

  datatype Request = Request(
    values: seq<string>, ports: seq<int>, transports: seq<Transport>, grant: Grant, profile: string,
    repeats: int, payloadBytes: int, datagrams: int, limits: Limits, custom: bool,
    udpPayload: Option<seq<bv8>>, sha256: Option<string>, payloadProfile: Option<string>, timeout: real)

  // --- reading the request ---------------------------------------------------------------

  predicate ProfileName(s: string) {
    && 1 <= |s| <= 128
    && (forall i :: 0 <= i < |s| ==> 'a' <= s[i] <= 'z' || '0' <= s[i] <= '9' || s[i] in "._-")
    && s[0] !in "._-"
  }

  function PayloadOf(env: Environment, q: Request): Result<Payload, Failure> {
    var consistent := q.udpPayload.Some? ==>
      && (q.payloadBytes == 0 || q.payloadBytes == |q.udpPayload.value|) && |q.udpPayload.value| <= 1_400
      && (q.sha256.Some? ==> q.sha256.value == env.sha256(q.udpPayload.value));
    :- Need(0 <= q.payloadBytes <= 1_400 && consistent, BudgetFailure);
    var length := if q.udpPayload.Some? then |q.udpPayload.value| else q.payloadBytes;
    var sha := if q.udpPayload.Some? then Some(env.sha256(q.udpPayload.value)) else q.sha256;
    var custom := q.custom || sha.Some?;
    :- Need(sha.Some? ==> Hex64(sha.value), BudgetFailure);
    :- Need(custom ==> sha.Some?, BudgetFailure);
    :- Need(q.payloadProfile.Some? ==> ProfileName(q.payloadProfile.value) && !custom, BudgetFailure);
    var profile :=
      if custom then "custom-sha256-v1"
      else if q.payloadProfile.Some? then q.payloadProfile.value
      else if length > 0 then "zero-bytes-v1"
      else "none-v1";
    Ok(Payload(profile, length, sha))
  }

  predicate PortLess(a: nat, b: nat) {
    a < b
  }

  function AsPorts(ports: seq<int>): (r: seq<nat>)
    requires forall i :: 0 <= i < |ports| ==> ports[i] >= 0
  {
    seq(|ports|, i requires 0 <= i < |ports| => ports[i])
  }

  function PortsOf(ports: seq<int>): Result<seq<nat>, Failure> {
    if ports == [] || exists i :: 0 <= i < |ports| && !(1 <= ports[i] <= 65_535) then Err(BudgetFailure)
    else Ok(Canonical(PortLess, AsPorts(ports)))
  }

  /** Transports in the order of their texts. */
  function InTextOrder(transports: set<Transport>): seq<Transport> {
    (if Sctp in transports then [Sctp] else []) + (if Tcp in transports then [Tcp] else [])
    + (if Udp in transports then [Udp] else [])
  }

  function TransportsOf(transports: seq<Transport>): Result<seq<Transport>, Failure> {
    if transports == [] || Sctp in transports then Err(BudgetFailure) else Ok(InTextOrder(Elements(transports)))
  }

  predicate StepsPermitted(g: Grant, targets: seq<Target>, ports: seq<nat>, transports: seq<Transport>) {
    forall t, port, transport :: t in targets && port in ports && transport in transports ==>
      LoopbackTarget(t) || PermitsStep(g, port, transport)
  }

  /** What every stage after reading uses. */
  datatype Shape = Shape(
    targets: seq<Target>, ports: seq<nat>, transports: seq<Transport>, payload: Payload,
    grant: Grant, profile: string, repeats: nat, datagrams: nat, limits: Limits, timeout: real)

  function ReadRequest(env: Environment, q: Request, now: int): Result<Shape, Failure> {
    var targets :- if 0.1 <= q.timeout <= 30.0 then NormalizeTargets(env.notation, q.values) else Err(BudgetFailure);
    :- Need(AllAuthorized(q.grant, targets, now), PolicyFailure);
    :- Need(LimitsWithin(q.limits, ABSOLUTE_CEILINGS), BudgetFailure);
    :- Need(1 <= |q.profile| <= 128 && 1 <= q.repeats <= 100 && 1 <= q.datagrams <= 100, BudgetFailure);
    var payload :- PayloadOf(env, q);
    var ports :- PortsOf(q.ports);
    var transports :- TransportsOf(q.transports);
    :- Need(StepsPermitted(q.grant, targets, ports, transports), ConfirmationFailure);
    Ok(Shape(targets, ports, transports, payload, q.grant, q.profile, q.repeats, q.datagrams, q.limits, q.timeout))
  }

  // --- resolution and host count -------------------------------------------------------------

  type Snapshots = map<string, seq<Endpoint>>

  predicate Covers(snaps: Snapshots, targets: seq<Target>) {
    forall t :: t in targets && t.HostTarget? ==> t.name in snaps
  }

  function ResolveAll(n: Notation, g: Grant, targets: seq<Target>, resolver: Resolver, now: int): (r: Result<Snapshots, Failure>)
    ensures r.Ok? ==> Covers(r.value, targets)
  {
    if targets == [] then Ok(map[])
    else
      var front :- ResolveAll(n, g, targets[..|targets| - 1], resolver, now);
      match targets[|targets| - 1]
      case HostTarget(name) =>
        var es :- ResolveForPlan(n, g, name, resolver, now);
        Ok(front[name := es])
      case _ => Ok(front)
  }

  function Count(snaps: Snapshots, t: Target): Result<nat, Failure>
    requires t.HostTarget? ==> t.name in snaps
  {
    match t
    case AddressTarget(_, _) => Ok(1)
    case HostTarget(name) => Ok(|snaps[name]|)
    case NetworkTarget(network) =>
      if HostCount(network).None? then Err(PolicyFailure) else Ok(HostCount(network).value)
  }

  function HostTotal(snaps: Snapshots, targets: seq<Target>): Result<nat, Failure>
    requires Covers(snaps, targets)
  {
    if targets == [] then Ok(0)
    else
      var before :- HostTotal(snaps, targets[..|targets| - 1]);
      var count :- Count(snaps, targets[|targets| - 1]);
      :- Need(before + count <= ABSOLUTE_CEILINGS.maxHosts, BudgetFailure);
      Ok(before + count)
  }

  // --- checked product ---------------------------------------------------------------------------

  function Product(values: seq<int>): int {
    if values == [] then 1 else Product(values[..|values| - 1]) * values[|values| - 1]
  }

  /** `_checked_product`: each factor is tested against the quotient before it is used. */
  function Checked(values: seq<int>, ceiling: nat): Option<nat> {
    if values == [] then Some(1)
    else
      var before, value := Checked(values[..|values| - 1], ceiling), values[|values| - 1];
      if before.None? || value < 0 || (value > 0 && before.value > ceiling / value) then None
      else Some(before.value * value)
  }

  method CheckedProduct(values: seq<int>, ceiling: nat) returns (r: Result<nat, Failure>)
    ensures r == if Checked(values, ceiling).Some? then Ok(Checked(values, ceiling).value) else Err(BudgetFailure)
  {
    var result, i := 1, 0;
    while i < |values|
      invariant 0 <= i <= |values| && result >= 0 && Checked(values[..i], ceiling) == Some(result)
    {
      assert values[..i + 1][..i] == values[..i];
      var value := values[i];
      if value < 0 || (value > 0 && result > ceiling / value) {
        CheckedPrefix(values, ceiling, i + 1);
        return Err(BudgetFailure);
      }
      result := result * value;
      i := i + 1;
    }
    assert values[..i] == values;
    return Ok(result);
  }

  lemma {:induction false} CheckedPrefix(values: seq<int>, ceiling: nat, i: nat)
    requires i <= |values| && Checked(values[..i], ceiling).None?
    ensures Checked(values, ceiling).None?
  {
    if i < |values| {
      assert values[..|values| - 1][..i] == values[..i];
      CheckedPrefix(values[..|values| - 1], ceiling, i);
    } else {
      assert values[..i] == values;
    }
  }

  lemma Grows(a: int, b: int)
    requires a >= 0 && b >= 1
    ensures a * b >= a
  {
    assert a * b == a * (b - 1) + a;
  }

  lemma QuotientTest(a: nat, value: nat, ceiling: nat)
    requires value > 0
    ensures a > ceiling / value <==> a * value > ceiling
  {
    var q := ceiling / value;
    var rest := ceiling % value;
    assert ceiling == q * value + rest;
    if a > q {
      var more := a - q - 1;
      assert a * value == q * value + value + more * value;
      assert more * value >= 0;
    } else {
      var less := q - a;
      assert q * value == a * value + less * value;
      assert less * value >= 0;
    }
  }

  predicate NoNegative(values: seq<int>) {
    forall i :: 0 <= i < |values| ==> values[i] >= 0
  }

  /** The product of the factors before the first zero. */
  function Leading(values: seq<int>): int {
    if values == [] then 1
    else
      var front, value := values[..|values| - 1], values[|values| - 1];
      if 0 in front || value == 0 then Leading(front) else Leading(front) * value
  }

  lemma {:induction false} ProductAndZeros(values: seq<int>)
    requires NoNegative(values)
    ensures Leading(values) >= 1
    ensures Product(values) == if 0 in values then 0 else Leading(values)
  {
    if values != [] {
      var front, value := values[..|values| - 1], values[|values| - 1];
      ProductAndZeros(front);
      assert values == front + [value];
      if 0 !in front && value > 0 {
        Grows(Leading(front), value);
      }
    }
  }

  /** The checked product succeeds exactly when no factor is negative and the true
      product of the factors before the first zero fits; it is then the true product.
      For positive factors that is the product of them all. */
  lemma {:induction false} CheckedExact(values: seq<int>, ceiling: nat)
    requires ceiling >= 1
    ensures Checked(values, ceiling).Some? <==> NoNegative(values) && Leading(values) <= ceiling
    ensures Checked(values, ceiling).Some? ==> Checked(values, ceiling).value == Product(values)
    ensures NoNegative(values) && 0 !in values ==> Leading(values) == Product(values)
  {
    if values != [] {
      var front, value := values[..|values| - 1], values[|values| - 1];
      CheckedExact(front, ceiling);
      assert values == front + [value];
      assert NoNegative(values) <==> NoNegative(front) && value >= 0;
      if NoNegative(values) {
        ProductAndZeros(values);
        ProductAndZeros(front);
        if value > 0 && 0 !in front {
          Grows(Leading(front), value);
          QuotientTest(Leading(front), value, ceiling);
        }
      }
    }
  }

  // --- compilation ----------------------------------------------------------------------------------

  /** A concrete place to probe. */
  datatype Place = Place(target: Target, address: string, source: Option<string>, slot: Option<nat>)

  function PlacesOf(n: Notation, snaps: Snapshots, t: Target): seq<Place>
    requires t.HostTarget? ==> t.name in snaps
  {
    match t
    case AddressTarget(_, _) => [Place(t, n.spell(t), None, None)]
    case NetworkTarget(network) =>
      var hosts := Hosts(network);
      seq(|hosts|, i requires 0 <= i < |hosts| => Place(t, n.spell(AddressTarget(hosts[i], None)), None, None))
    case HostTarget(name) =>
      var texts := Texts(n, snaps[name]);
      seq(|texts|, i requires 0 <= i < |texts| => Place(t, texts[i], Some(name), Some(i)))
  }

  function Places(n: Notation, snaps: Snapshots, targets: seq<Target>): seq<Place>
    requires Covers(snaps, targets)
  {
    if targets == [] then []
    else Places(n, snaps, targets[..|targets| - 1]) + PlacesOf(n, snaps, targets[|targets| - 1])
  }

  function Cost(shape: Shape, transport: Transport): StepCost {
    var datagrams := if transport.Udp? then shape.datagrams else 0;
    StepCost(
      datagrams,
      shape.payload.length * (if transport.Udp? then datagrams else 1),
      if transport.Udp? then datagrams else 1,
      2, 0, 0, 0, 16_384)
  }

  function Identify(f: StepFields): StepId {
    CartesianDigest(f.kind, f.target, f.address, f.scopeId, f.port, f.transport, f.attempt,
                    f.sourceHostname, f.slot, f.payload, f.cost, f.timeout)
  }

  function StepFor(n: Notation, shape: Shape, place: Place, address: Target, port: nat, transport: Transport, attempt: nat): ProbeStep {
    var fields := StepFields(
      if transport.Udp? then UdpExchange else TcpConnect,
      n.spell(place.target), Some(n.spell(address)), if address.AddressTarget? then address.scope else None,
      Some(port), Some(transport), attempt, place.source, place.slot,
      if transport.Udp? then shape.payload else NO_PAYLOAD, Cost(shape, transport),
      None, None, None, shape.timeout, true);
    ProbeStep(Identify(fields), fields)
  }

  function Attempts(n: Notation, shape: Shape, place: Place, address: Target, port: nat, transport: Transport, k: nat): seq<ProbeStep> {
    if k == 0 then []
    else Attempts(n, shape, place, address, port, transport, k - 1) + [StepFor(n, shape, place, address, port, transport, k)]
  }

  function OverTransports(n: Notation, shape: Shape, place: Place, address: Target, port: nat, transports: seq<Transport>): seq<ProbeStep> {
    if transports == [] then []
    else
      OverTransports(n, shape, place, address, port, transports[..|transports| - 1])
      + Attempts(n, shape, place, address, port, transports[|transports| - 1], shape.repeats)
  }

  function OverPorts(n: Notation, shape: Shape, place: Place, address: Target, ports: seq<nat>): seq<ProbeStep> {
    if ports == [] then []
    else
      OverPorts(n, shape, place, address, ports[..|ports| - 1])
      + OverTransports(n, shape, place, address, ports[|ports| - 1], shape.transports)
  }

  /** `_compile_steps`: every place is normalised again before its steps are written. */
  function CompileSteps(n: Notation, shape: Shape, places: seq<Place>): (r: Result<seq<ProbeStep>, Failure>)
    ensures r.Err? ==> r.error == PolicyFailure
  {
    if places == [] then Ok([])
    else
      var before :- CompileSteps(n, shape, places[..|places| - 1]);
      var place := places[|places| - 1];
      var address := n.parse(place.address);
      :- Need(address.Some?, PolicyFailure);
      Ok(before + OverPorts(n, shape, place, address.value, shape.ports))
  }

  method Compile(n: Notation, shape: Shape, places: seq<Place>) returns (r: Result<seq<ProbeStep>, Failure>)
    ensures r == CompileSteps(n, shape, places)
  {
    var steps, i := [], 0;
    while i < |places|
      invariant 0 <= i <= |places| && CompileSteps(n, shape, places[..i]) == Ok(steps)
    {
      assert places[..i + 1][..i] == places[..i];
      var address := n.parse(places[i].address);
      if address.None? {
        PlaceRefused(n, shape, places, i + 1);
        return Err(PolicyFailure);
      }
      var added := PlaceSteps(n, shape, places[i], address.value);
      steps := steps + added;
      i := i + 1;
    }
    assert places[..i] == places;
    return Ok(steps);
  }

  method PlaceSteps(n: Notation, shape: Shape, place: Place, address: Target) returns (steps: seq<ProbeStep>)
    ensures steps == OverPorts(n, shape, place, address, shape.ports)
  {
    hide StepFor, OverTransports;
    steps := [];
    for p := 0 to |shape.ports|
      invariant steps == OverPorts(n, shape, place, address, shape.ports[..p])
    {
      assert shape.ports[..p + 1][..p] == shape.ports[..p];
      var added := PortSteps(n, shape, place, address, shape.ports[p]);
      steps := steps + added;
    }
    assert shape.ports[..|shape.ports|] == shape.ports;
  }

  method PortSteps(n: Notation, shape: Shape, place: Place, address: Target, port: nat) returns (steps: seq<ProbeStep>)
    ensures steps == OverTransports(n, shape, place, address, port, shape.transports)
  {
    hide StepFor;
    steps := [];
    for t := 0 to |shape.transports|
      invariant steps == OverTransports(n, shape, place, address, port, shape.transports[..t])
    {
      assert shape.transports[..t + 1][..t] == shape.transports[..t];
      var repeated: seq<ProbeStep> := [];
      for attempt := 1 to shape.repeats + 1
        invariant repeated == Attempts(n, shape, place, address, port, shape.transports[t], attempt - 1)
      {
        repeated := repeated + [StepFor(n, shape, place, address, port, shape.transports[t], attempt)];
      }
      steps := steps + repeated;
    }
    assert shape.transports[..|shape.transports|] == shape.transports;
  }

  lemma {:induction false} PlaceRefused(n: Notation, shape: Shape, places: seq<Place>, i: nat)
    requires i <= |places| && CompileSteps(n, shape, places[..i]).Err?
    ensures CompileSteps(n, shape, places) == Err(PolicyFailure)
  {
    if i < |places| {
      assert places[..|places| - 1][..i] == places[..i];
      PlaceRefused(n, shape, places[..|places| - 1], i);
    } else {
      assert places[..i] == places;
    }
  }

  // --- the preview -------------------------------------------------------------------------------------

  function HostResolutions(n: Notation, snaps: Snapshots, targets: seq<Target>, now: int): seq<Resolution>
    requires Covers(snaps, targets)
  {
    if targets == [] then []
    else
      HostResolutions(n, snaps, targets[..|targets| - 1], now)
      + match targets[|targets| - 1]
        case HostTarget(name) => [Resolution(name, Texts(n, snaps[name]), now)]
        case _ => []
  }

  function Confirmations(shape: Shape): seq<Confirmation> {
    (if |shape.ports| == 65_535 && shape.ports[0] == 1 && shape.ports[65_534] == 65_535 then
       (if Tcp in shape.transports then [FullTcp] else []) + (if Udp in shape.transports then [FullUdp] else [])
     else [])
    + (if shape.payload.sha256.Some? then [CustomUdp] else [])
  }

  function EstimateOf(shape: Shape, hosts: nat, steps: seq<ProbeStep>): Estimate {
    Estimate(
      hosts, |shape.ports|, |steps|, Datagrams(steps), ApplicationBytes(steps),
      if shape.limits.maxConcurrency <= |steps| then shape.limits.maxConcurrency else |steps|,
      shape.limits.maxDuration, |steps| + 5, |steps| * 512 + 4_096,
      shape.limits.maxGlobalRate, shape.limits.maxTargetRate, Packets(steps))
  }

  function Undated(resolutions: seq<Resolution>): seq<(string, seq<string>)> {
    seq(|resolutions|, i requires 0 <= i < |resolutions| => (resolutions[i].hostname, resolutions[i].addresses))
  }

  function Publish(shape: Shape, resolutions: seq<Resolution>, steps: seq<ProbeStep>, estimate: Estimate, now: int): Preview {
    var confirmations := Confirmations(shape);
    var draft := Draft(
      shape.profile, shape.targets, shape.ports, shape.transports, shape.repeats, shape.payload.length, shape.datagrams,
      steps, shape.grant, Undated(resolutions), shape.limits, estimate, confirmations);
    Preview(
      shape.profile, shape.targets, shape.ports, shape.transports, shape.repeats, shape.payload.length, shape.datagrams,
      steps, shape.grant, resolutions, shape.limits, estimate, confirmations, now, draft)
  }

  /** Everything after resolution. */
  function Build(n: Notation, shape: Shape, snaps: Snapshots, now: int): Result<Preview, Failure>
    requires Covers(snaps, shape.targets)
  {
    var hosts :- HostTotal(snaps, shape.targets);
    var attempts := Checked([hosts, |shape.ports|, |shape.transports|, shape.repeats], ABSOLUTE_CEILINGS.maxAttempts);
    :- Need(attempts.Some?, BudgetFailure);
    var steps :- CompileSteps(n, shape, Places(n, snaps, shape.targets));
    :- Need(|steps| == attempts.value, BudgetFailure);
    :- Need(Datagrams(steps) <= ABSOLUTE_CEILINGS.maxDatagrams
            && ApplicationBytes(steps) <= ABSOLUTE_CEILINGS.maxApplicationBytes, BudgetFailure);
    var estimate := EstimateOf(shape, hosts, steps);
    :- Need(EstimateWithin(estimate, shape.limits), BudgetFailure);
    :- Need(shape.payload.sha256.Some? ==> Udp in shape.transports, BudgetFailure);
    Ok(Publish(shape, HostResolutions(n, snaps, shape.targets, now), steps, estimate, now))
  }

  /** `preview_plan`. */
  function PreviewPlan(env: Environment, q: Request, resolver: Resolver, now: int): Result<Preview, Failure> {
    var shape :- ReadRequest(env, q, now);
    var snaps :- ResolveAll(env.notation, shape.grant, shape.targets, resolver, now);
    Build(env.notation, shape, snaps, now)
  }

  // --- the compiler as the loops it is ---------------------------------------------------------------------

  method ResolveEach(n: Notation, g: Grant, targets: seq<Target>, resolver: Resolver, now: int) returns (r: Result<Snapshots, Failure>)
    ensures r == ResolveAll(n, g, targets, resolver, now)
  {
    hide ResolveForPlan;
    var snaps: Snapshots, i := map[], 0;
    while i < |targets|
      invariant 0 <= i <= |targets| && ResolveAll(n, g, targets[..i], resolver, now) == Ok(snaps)
    {
      assert targets[..i + 1][..i] == targets[..i];
      if targets[i].HostTarget? {
        var resolved := ResolveForPlan(n, g, targets[i].name, resolver, now);
        if resolved.Err? {
          ResolveRefused(n, g, targets, i + 1, resolver, now);
          return Err(resolved.error);
        }
        snaps := snaps[targets[i].name := resolved.value];
      }
      i := i + 1;
    }
    assert targets[..i] == targets;
    return Ok(snaps);
  }

  lemma {:induction false} ResolveRefused(n: Notation, g: Grant, targets: seq<Target>, i: nat, resolver: Resolver, now: int)
    requires i <= |targets| && ResolveAll(n, g, targets[..i], resolver, now).Err?
    ensures ResolveAll(n, g, targets, resolver, now) == ResolveAll(n, g, targets[..i], resolver, now)
  {
    hide ResolveForPlan;
    if i < |targets| {
      assert targets[..|targets| - 1][..i] == targets[..i];
      ResolveRefused(n, g, targets[..|targets| - 1], i, resolver, now);
    } else {
      assert targets[..i] == targets;
    }
  }

  method CountHosts(snaps: Snapshots, targets: seq<Target>) returns (r: Result<nat, Failure>)
    requires Covers(snaps, targets)
    ensures r == HostTotal(snaps, targets)
  {
    hide Count;
    var total, i := 0, 0;
    while i < |targets|
      invariant 0 <= i <= |targets| && HostTotal(snaps, targets[..i]) == Ok(total)
    {
      assert targets[..i + 1][..i] == targets[..i];
      var count := Count(snaps, targets[i]);
      if count.Err? || total + count.value > ABSOLUTE_CEILINGS.maxHosts {
        CountRefused(snaps, targets, i + 1);
        return Err(if count.Err? then count.error else BudgetFailure);
      }
      total := total + count.value;
      i := i + 1;
    }
    assert targets[..i] == targets;
    return Ok(total);
  }

  lemma {:induction false} CountRefused(snaps: Snapshots, targets: seq<Target>, i: nat)
    requires Covers(snaps, targets) && i <= |targets| && HostTotal(snaps, targets[..i]).Err?
    ensures HostTotal(snaps, targets) == HostTotal(snaps, targets[..i])
  {
    hide Count;
    if i < |targets| {
      assert targets[..|targets| - 1][..i] == targets[..i];
      CountRefused(snaps, targets[..|targets| - 1], i);
    } else {
      assert targets[..i] == targets;
    }
  }

  /** `preview_plan` from its parts; each returns at its first refusal. */
  method CompilePlan(env: Environment, q: Request, resolver: Resolver, now: int) returns (r: Result<Preview, Failure>)
    ensures r == PreviewPlan(env, q, resolver, now)
  {
    hide ReadRequest, ResolveAll, HostTotal, Checked, CompileSteps, Places, EstimateWithin, EstimateOf, Publish, HostResolutions,
         Datagrams, ApplicationBytes;
    var read := ReadRequest(env, q, now);
    if read.Err? { return Err(read.error); }
    var n, shape := env.notation, read.value;
    var resolved := ResolveEach(n, shape.grant, shape.targets, resolver, now);
    if resolved.Err? { return Err(resolved.error); }
    var snaps := resolved.value;
    var hosts := CountHosts(snaps, shape.targets);
    if hosts.Err? { return Err(hosts.error); }
    var attempts := CheckedProduct([hosts.value, |shape.ports|, |shape.transports|, shape.repeats], ABSOLUTE_CEILINGS.maxAttempts);
    if attempts.Err? { return Err(attempts.error); }
    var compiled := Compile(n, shape, Places(n, snaps, shape.targets));
    if compiled.Err? { return Err(compiled.error); }
    var steps := compiled.value;
    if |steps| != attempts.value
      || Datagrams(steps) > ABSOLUTE_CEILINGS.maxDatagrams || ApplicationBytes(steps) > ABSOLUTE_CEILINGS.maxApplicationBytes
    {
      return Err(BudgetFailure);
    }
    var estimate := EstimateOf(shape, hosts.value, steps);
    if !EstimateWithin(estimate, shape.limits) || (shape.payload.sha256.Some? && Udp !in shape.transports) {
      return Err(BudgetFailure);
    }
    return Ok(Publish(shape, HostResolutions(n, snaps, shape.targets, now), steps, estimate, now));
  }
}
