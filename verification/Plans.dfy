/** Plan values: steps, costs, limits, grants and the immutable preview. */
module Plans {
  import opened Outcomes
  import opened Networks
  import opened Collections

  datatype ProbeKind =
    | LocalSnapshot | SystemDns | TcpConnect | UdpExchange | TlsHandshake
    | HttpExchange | NativePing | NativePath | NativePortScan

  datatype Transport = Tcp | Udp | Sctp

  datatype Failure = PolicyFailure | BudgetFailure | ConfirmationFailure

  datatype Payload = Payload(profile: string, length: nat, sha256: Option<string>)

  const NO_PAYLOAD: Payload := Payload("none-v1", 0, None)

  datatype StepCost = StepCost(
    datagrams: nat, applicationBytes: nat, packets: nat,
    maxObservations: nat, maxCapabilities: nat, maxConclusions: nat, maxErrors: nat, maxOutputBytes: nat)

  /** The fields of a step other than its identifier; also one sparse probe spec. */
  datatype StepFields = StepFields(
    kind: ProbeKind, target: string, address: Option<string>, scopeId: Option<string>,
    port: Option<nat>, transport: Option<Transport>, attempt: nat,
    sourceHostname: Option<string>, slot: Option<nat>,
    payload: Payload, cost: StepCost,
    serverName: Option<string>, httpScheme: Option<string>, maxHops: Option<nat>,
    timeout: real, required: bool)

  /** SHA-256 over canonical JSON is idealised as a free constructor over the hashed
      document. The two compilers hash documents with different key sets. */
  datatype StepId =
    | CartesianDigest(
        kind: ProbeKind, target: string, address: Option<string>, scopeId: Option<string>,
        port: Option<nat>, transport: Option<Transport>, attempt: nat,
        sourceHostname: Option<string>, slot: Option<nat>,
        payload: Payload, cost: StepCost, timeout: real)
    | SparseDigest(document: StepFields)

  datatype ProbeStep = ProbeStep(id: StepId, fields: StepFields)

  datatype Limits = Limits(
    maxHosts: nat, maxPorts: nat, maxAttempts: nat, maxDatagrams: nat, maxApplicationBytes: nat,
    maxGlobalRate: nat, maxTargetRate: nat, maxConcurrency: nat, maxDuration: nat,
    maxEvents: nat, maxOutputBytes: nat, maxPackets: nat)

  const ABSOLUTE_CEILINGS: Limits := Limits(
    1_024, 65_535, 100_000, 200_000, 67_108_864, 1_000, 100, 256, 3_600, 100_000, 67_108_864, 200_000)

  /** Every limit is a positive integer; `assert_within` adds the rest. */
  predicate LimitsPositive(l: Limits) {
    && l.maxHosts >= 1 && l.maxPorts >= 1 && l.maxAttempts >= 1 && l.maxDatagrams >= 1
    && l.maxApplicationBytes >= 1 && l.maxGlobalRate >= 1 && l.maxTargetRate >= 1
    && l.maxConcurrency >= 1 && l.maxDuration >= 1 && l.maxEvents >= 1
    && l.maxOutputBytes >= 1 && l.maxPackets >= 1
  }

  predicate LimitsWithin(l: Limits, ceiling: Limits) {
    && l.maxHosts <= ceiling.maxHosts && l.maxPorts <= ceiling.maxPorts
    && l.maxAttempts <= ceiling.maxAttempts && l.maxDatagrams <= ceiling.maxDatagrams
    && l.maxApplicationBytes <= ceiling.maxApplicationBytes
    && l.maxGlobalRate <= ceiling.maxGlobalRate && l.maxTargetRate <= ceiling.maxTargetRate
    && l.maxConcurrency <= ceiling.maxConcurrency && l.maxDuration <= ceiling.maxDuration
    && l.maxEvents <= ceiling.maxEvents && l.maxOutputBytes <= ceiling.maxOutputBytes
    && l.maxPackets <= ceiling.maxPackets
    && l.maxTargetRate <= l.maxGlobalRate && l.maxConcurrency <= l.maxAttempts
  }

  datatype Estimate = Estimate(
    hosts: nat, ports: nat, attempts: nat, datagrams: nat, applicationBytes: nat,
    concurrency: nat, duration: nat, events: nat, outputBytes: nat,
    globalRate: nat, targetRate: nat, packets: nat)

  /** `_assert_estimate_within`. */
  predicate EstimateWithin(e: Estimate, l: Limits) {
    && e.hosts <= l.maxHosts && e.ports <= l.maxPorts && e.attempts <= l.maxAttempts
    && e.datagrams <= l.maxDatagrams && e.packets <= l.maxPackets
    && e.applicationBytes <= l.maxApplicationBytes && e.concurrency <= l.maxConcurrency
    && e.duration <= l.maxDuration && e.events <= l.maxEvents && e.outputBytes <= l.maxOutputBytes
  }

  /** Sets stand for the sorted duplicate-free tuples of the original. */
  datatype Grant = Grant(
    networks: set<Network>, hostnames: set<string>, ports: set<nat>, transports: set<Transport>,
    kinds: set<ProbeKind>, attested: bool, purpose: string, expiresAt: Option<int>)

  datatype Resolution = Resolution(hostname: string, addresses: seq<string>, resolvedAt: int)

  datatype Confirmation = FullTcp | FullUdp | CustomUdp

  /** The hashed draft: the preview without its two kinds of timestamps. */
  datatype Draft = Draft(
    profile: string, targets: seq<Target>, ports: seq<nat>, transports: seq<Transport>,
    repeats: nat, payloadBytes: nat, datagramsPerAttempt: nat, steps: seq<ProbeStep>,
    scope: Grant, resolutions: seq<(string, seq<string>)>, limits: Limits, estimate: Estimate,
    confirmations: seq<Confirmation>)

  datatype Preview = Preview(
    profile: string, targets: seq<Target>, ports: seq<nat>, transports: seq<Transport>,
    repeats: nat, payloadBytes: nat, datagramsPerAttempt: nat, steps: seq<ProbeStep>,
    scope: Grant, resolutions: seq<Resolution>, limits: Limits, estimate: Estimate,
    confirmations: seq<Confirmation>, createdAt: int, digest: Draft)

  function Datagrams(steps: seq<ProbeStep>): nat {
    Sum(steps, (s: ProbeStep) => s.fields.cost.datagrams)
  }

  function ApplicationBytes(steps: seq<ProbeStep>): nat {
    Sum(steps, (s: ProbeStep) => s.fields.cost.applicationBytes)
  }

  function Packets(steps: seq<ProbeStep>): nat {
    Sum(steps, (s: ProbeStep) => s.fields.cost.packets)
  }

  function Observations(steps: seq<ProbeStep>): nat {
    Sum(steps, (s: ProbeStep) => s.fields.cost.maxObservations)
  }

  ghost predicate DistinctIds(steps: seq<ProbeStep>) {
    forall i, j :: 0 <= i < j < |steps| ==> steps[i].id != steps[j].id
  }

  /** What a compiled plan promises the task that runs it: distinct steps, an
      estimate that is the sum over all of them, and limits that hold it. */
  ghost predicate Reserved(p: Preview) {
    && p.steps != []
    && DistinctIds(p.steps)
    && p.estimate.attempts == |p.steps|
    && p.estimate.datagrams == Datagrams(p.steps)
    && p.estimate.applicationBytes == ApplicationBytes(p.steps)
    && p.estimate.packets == Packets(p.steps)
    && p.estimate.events >= |p.steps| + 5
    && LimitsPositive(p.limits)
    && EstimateWithin(p.estimate, p.limits)
  }

  /** The sparse compiler reserves one event per permitted observation. */
  ghost predicate EventsReserved(p: Preview) {
    p.estimate.events == Observations(p.steps) + 5
  }

  function StepIds(steps: seq<ProbeStep>): seq<StepId> {
    seq(|steps|, i requires 0 <= i < |steps| => steps[i].id)
  }
}
