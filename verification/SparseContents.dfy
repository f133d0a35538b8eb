/** Which lists of probes compile, and what the published plan shows of them; in
    particular the addresses that it keeps for each hostname. */
module SparseContents {
  import opened Outcomes
  import opened Collections
  import opened Networks
  import opened Plans
  import opened Policy
  import opened Cartesian
  import opened Sparse
  import PlanContents

  // --- slots ----------------------------------------------------------------------------------

  /** The probe reserves an address for a slot of a hostname. */
  predicate Reserves(spec: StepFields, name: string, index: nat, address: string) {
    spec.sourceHostname == Some(name) && spec.slot == Some(index) && spec.address == Some(address)
  }

  predicate SomeReserves(specs: seq<StepFields>, name: string, index: nat, address: string) {
    exists i :: 0 <= i < |specs| && Reserves(specs[i], name, index, address)
  }

  predicate Filled(specs: seq<StepFields>, name: string, index: nat) {
    exists i :: 0 <= i < |specs| && specs[i].address.Some? && Reserves(specs[i], name, index, specs[i].address.value)
  }

  /** The last probe gives no slot another address than the earlier ones did. */
  predicate AgreesLast(front: seq<StepFields>, last: StepFields) {
    last.sourceHostname.Some? && last.slot.Some? && last.address.Some? ==>
      forall i :: 0 <= i < |front| ==>
        (front[i].sourceHostname == last.sourceHostname && front[i].slot == last.slot && front[i].address.Some? ==>
           front[i].address == last.address)
  }

  /** No slot of a hostname has two addresses. */
  predicate Agreed(specs: seq<StepFields>) {
    forall i, j :: 0 <= i < j < |specs| && specs[i].sourceHostname.Some? && specs[i].sourceHostname == specs[j].sourceHostname
      && specs[i].slot.Some? && specs[i].slot == specs[j].slot && specs[i].address.Some? && specs[j].address.Some?
      ==> specs[i].address == specs[j].address
  }

  /** The slots below are filled by earlier probes. */
  predicate InOrder(front: seq<StepFields>, spec: StepFields) {
    spec.sourceHostname.Some? && spec.slot.Some? && spec.address.Some? ==>
      forall k: nat :: k < spec.slot.value ==> Filled(front, spec.sourceHostname.value, k)
  }

  /** Each hostname's slots first appear in the order 0, 1, 2 and so on. */
  predicate Ordered(specs: seq<StepFields>) {
    forall i :: 0 <= i < |specs| ==> InOrder(specs[..i], specs[i])
  }

  lemma FrontReserves(specs: seq<StepFields>, name: string, index: nat, address: string)
    requires specs != []
    ensures SomeReserves(specs, name, index, address)
            <==> SomeReserves(specs[..|specs| - 1], name, index, address) || Reserves(specs[|specs| - 1], name, index, address)
  {
    hide Reserves;
    var front := specs[..|specs| - 1];
    assert forall i :: 0 <= i < |front| ==> front[i] == specs[i];
  }

  lemma FilledExactly(specs: seq<StepFields>, name: string, index: nat)
    ensures Filled(specs, name, index) <==> exists address :: SomeReserves(specs, name, index, address)
  {
    if Filled(specs, name, index) {
      var i :| 0 <= i < |specs| && specs[i].address.Some? && Reserves(specs[i], name, index, specs[i].address.value);
      assert SomeReserves(specs, name, index, specs[i].address.value);
    }
  }

  /** What the compiler has remembered is exactly what the probes reserve. */
  lemma {:induction false} SlotsRemembered(n: Notation, g: Grant, specs: seq<StepFields>, now: int, name: string, slot: Slot)
    requires CompileSpecs(n, g, specs, now).Ok?
    ensures var slots := CompileSpecs(n, g, specs, now).value.slots;
            (name in slots && slot in slots[name]) <==> SomeReserves(specs, name, slot.index, slot.address)
  {
    hide Admissible, Reserves, SomeReserves;
    if specs == [] {
      assert !SomeReserves(specs, name, slot.index, slot.address) by { NoneReserve(specs, name, slot); }
    } else {
      var front, last := specs[..|specs| - 1], specs[|specs| - 1];
      SlotsRemembered(n, g, front, now, name, slot);
      FrontReserves(specs, name, slot.index, slot.address);
      PutRemembers(n, g, CompileSpecs(n, g, front, now).value, last, now, name, slot);
    }
  }

  lemma NoneReserve(specs: seq<StepFields>, name: string, slot: Slot)
    requires specs == []
    ensures !SomeReserves(specs, name, slot.index, slot.address)
  {
  }

  /** One turn of the loop adds what its probe reserves. */
  lemma PutRemembers(n: Notation, g: Grant, work: Draftwork, spec: StepFields, now: int, name: string, slot: Slot)
    requires CompileSpec(n, g, work, spec, now).Ok?
    ensures var slots := CompileSpec(n, g, work, spec, now).value.slots;
            (name in slots && slot in slots[name])
            <==> (name in work.slots && slot in work.slots[name]) || Reserves(spec, name, slot.index, slot.address)
  {
    hide Admissible;
    if Resolving(spec) {
      var known := if spec.sourceHostname.value in work.slots then work.slots[spec.sourceHostname.value] else [];
      var new_ := Slot(spec.slot.value, spec.address.value);
      PutExactly(known, new_, slot);
    }
  }

  lemma PutExactly(slots: seq<Slot>, added: Slot, slot: Slot)
    requires !SlotDisagrees(slots, added)
    ensures slot in PutSlot(slots, added) <==> slot in slots || slot == added
  {
    if HasSlot(slots, added.index) {
      var i :| 0 <= i < |slots| && slots[i].index == added.index;
      assert slots[i] == added;
    }
  }

  lemma {:induction false} DisagreesExactly(n: Notation, g: Grant, front: seq<StepFields>, last: StepFields, now: int)
    requires CompileSpecs(n, g, front, now).Ok? && Resolving(last)
    ensures var slots, name := CompileSpecs(n, g, front, now).value.slots, last.sourceHostname.value;
            SlotDisagrees(if name in slots then slots[name] else [], Slot(last.slot.value, last.address.value))
            <==> !AgreesLast(front, last)
  {
    hide CompileSpecs;
    var slots, name := CompileSpecs(n, g, front, now).value.slots, last.sourceHostname.value;
    var known := if name in slots then slots[name] else [];
    if !AgreesLast(front, last) {
      var i :| 0 <= i < |front| && front[i].sourceHostname == last.sourceHostname && front[i].slot == last.slot
               && front[i].address.Some? && front[i].address != last.address;
      var slot := Slot(last.slot.value, front[i].address.value);
      assert Reserves(front[i], name, slot.index, slot.address);
      SlotsRemembered(n, g, front, now, name, slot);
    }
    if SlotDisagrees(known, Slot(last.slot.value, last.address.value)) {
      var k :| 0 <= k < |known| && known[k].index == last.slot.value && known[k].address != last.address.value;
      assert known[k] in known;
      SlotsRemembered(n, g, front, now, name, known[k]);
      var i :| 0 <= i < |front| && Reserves(front[i], name, known[k].index, known[k].address);
    }
  }

  // --- which lists compile ----------------------------------------------------------------------

  /** The probe may be sent: an active one only to a target that is loopback or in the
      attested scope, and so its address; anything off loopback needs its kind in the grant,
      with its port and transport when the kind has them and with neither when it does not. */
  predicate SpecPermitted(n: Notation, g: Grant, spec: StepFields, now: int) {
    && n.parse(spec.target).Some?
    && var target := n.parse(spec.target).value;
       && (spec.kind != LocalSnapshot ==> Lawful(g, target, now))
       && (spec.address.Some? ==> n.parse(spec.address.value).Some? && Lawful(g, n.parse(spec.address.value).value, now))
       && (LoopbackTarget(target)
           || (spec.kind in g.kinds
               && if spec.kind in {TcpConnect, UdpExchange, TlsHandshake, HttpExchange, NativePortScan}
                  then spec.port.Some? && spec.transport.Some? && spec.port.value in g.ports && spec.transport.value in g.transports
                  else spec.port.None? && spec.transport.None?))
  }

  predicate Lawful(g: Grant, t: Target, now: int) {
    (g.expiresAt.None? || now < g.expiresAt.value) && (LoopbackTarget(t) || (g.attested && InScope(g, t)))
  }

  lemma AdmissibleExactly(n: Notation, g: Grant, spec: StepFields, now: int)
    ensures Admissible(n, g, spec, now).Pass? <==> SpecPermitted(n, g, spec, now)
  {
    hide LoopbackTarget, InScope;
  }

  /** The loop succeeds exactly for probes that are all permitted and agree on their slots. */
  lemma {:induction false} CompilesExactly(n: Notation, g: Grant, specs: seq<StepFields>, now: int)
    ensures CompileSpecs(n, g, specs, now).Ok?
            <==> (forall i :: 0 <= i < |specs| ==> SpecPermitted(n, g, specs[i], now)) && Agreed(specs)
  {
    hide Admissible, SpecPermitted, PutSlot, SlotDisagrees, Agreed, AgreesLast;
    if specs == [] {
      assert Agreed(specs) by { EmptyAgrees(specs); }
    } else {
      var front, last := specs[..|specs| - 1], specs[|specs| - 1];
      CompilesExactly(n, g, front, now);
      AdmissibleExactly(n, g, last, now);
      AgreedLast(specs);
      assert forall i :: 0 <= i < |front| ==> front[i] == specs[i];
      if CompileSpecs(n, g, front, now).Ok? {
        if Resolving(last) {
          DisagreesExactly(n, g, front, last, now);
        } else {
          AgreesPlainly(front, last);
        }
      }
    }
  }

  lemma EmptyAgrees(specs: seq<StepFields>)
    requires specs == []
    ensures Agreed(specs)
  {
  }

  lemma AgreesPlainly(front: seq<StepFields>, last: StepFields)
    requires !Resolving(last)
    ensures AgreesLast(front, last)
  {
  }

  lemma AgreedLast(specs: seq<StepFields>)
    requires specs != []
    ensures Agreed(specs) <==> Agreed(specs[..|specs| - 1]) && AgreesLast(specs[..|specs| - 1], specs[|specs| - 1])
  {
    var front, last := specs[..|specs| - 1], specs[|specs| - 1];
    assert forall i :: 0 <= i < |front| ==> front[i] == specs[i];
  }

  // --- contiguous slots -------------------------------------------------------------------------

  predicate Contiguous(slots: map<string, seq<Slot>>) {
    forall name :: name in slots ==> ContiguousSlots(slots[name])
  }

  /** The remembered slots are contiguous exactly when they appeared in order. */
  lemma {:induction false} ContiguousExactly(n: Notation, g: Grant, specs: seq<StepFields>, now: int)
    requires CompileSpecs(n, g, specs, now).Ok?
    ensures Contiguous(CompileSpecs(n, g, specs, now).value.slots) <==> Ordered(specs)
  {
    hide Admissible, Contiguous, Ordered, InOrder, CompileSpec;
    if specs == [] {
      NothingOrdered(specs);
    } else {
      var front, last := specs[..|specs| - 1], specs[|specs| - 1];
      ContiguousExactly(n, g, front, now);
      OrderedLast(specs);
      ContiguousLast(n, g, front, last, now);
      assert specs == front + [last];
    }
  }

  lemma NothingOrdered(specs: seq<StepFields>)
    requires specs == []
    ensures Ordered(specs) && Contiguous(map[])
  {
  }

  lemma OrderedLast(specs: seq<StepFields>)
    requires specs != []
    ensures Ordered(specs) <==> Ordered(specs[..|specs| - 1]) && InOrder(specs[..|specs| - 1], specs[|specs| - 1])
  {
    hide InOrder;
    var front := specs[..|specs| - 1];
    forall i | 0 <= i < |front| ensures front[i] == specs[i] && front[..i] == specs[..i] {
    }
  }

  lemma {:induction false} ContiguousLast(n: Notation, g: Grant, front: seq<StepFields>, last: StepFields, now: int)
    requires CompileSpecs(n, g, front, now).Ok?
    requires CompileSpec(n, g, CompileSpecs(n, g, front, now).value, last, now).Ok?
    ensures var work := CompileSpecs(n, g, front, now).value;
            Contiguous(CompileSpec(n, g, work, last, now).value.slots)
            <==> Contiguous(work.slots) && InOrder(front, last)
  {
    hide CompileSpecs, Admissible, Filled;
    var work := CompileSpecs(n, g, front, now).value;
    if Resolving(last) {
      var name, slot := last.sourceHostname.value, Slot(last.slot.value, last.address.value);
      var known := if name in work.slots then work.slots[name] else [];
      PutContiguous(known, slot);
      forall k: nat ensures Filled(front, name, k) <==> HasSlot(known, k) {
        SlotFilled(n, g, front, now, name, k);
      }
      PutOneName(work.slots, name, PutSlot(known, slot));
    }
  }

  lemma PutOneName(slots: map<string, seq<Slot>>, name: string, after: seq<Slot>)
    requires ContiguousSlots(after) ==> name !in slots || ContiguousSlots(slots[name])
    ensures Contiguous(slots[name := after])
            <==> ContiguousSlots(after) && forall other :: other in slots && other != name ==> ContiguousSlots(slots[other])
    ensures Contiguous(slots[name := after]) ==> Contiguous(slots)
  {
    hide ContiguousSlots;
    if Contiguous(slots[name := after]) {
      assert slots[name := after][name] == after;
      forall other | other in slots && other != name ensures ContiguousSlots(slots[other]) {
        assert slots[name := after][other] == slots[other];
      }
    }
  }

  lemma {:induction false} SlotFilled(n: Notation, g: Grant, specs: seq<StepFields>, now: int, name: string, k: nat)
    requires CompileSpecs(n, g, specs, now).Ok?
    ensures var slots := CompileSpecs(n, g, specs, now).value.slots;
            Filled(specs, name, k) <==> HasSlot(if name in slots then slots[name] else [], k)
  {
    hide CompileSpecs, Filled, SomeReserves;
    var slots := CompileSpecs(n, g, specs, now).value.slots;
    var known := if name in slots then slots[name] else [];
    FilledExactly(specs, name, k);
    if Filled(specs, name, k) {
      var address :| SomeReserves(specs, name, k, address);
      SlotsRemembered(n, g, specs, now, name, Slot(k, address));
    }
    if HasSlot(known, k) {
      var i :| 0 <= i < |known| && known[i].index == k;
      assert known[i] in known;
      SlotsRemembered(n, g, specs, now, name, known[i]);
    }
  }

  lemma PutContiguous(slots: seq<Slot>, added: Slot)
    ensures ContiguousSlots(PutSlot(slots, added))
            <==> ContiguousSlots(slots) && forall k: nat :: k < added.index ==> HasSlot(slots, k)
  {
    var after := PutSlot(slots, added);
    if ContiguousSlots(after) {
      assert forall i :: 0 <= i < |slots| ==> after[i] == slots[i];
      forall k: nat | k < added.index ensures HasSlot(slots, k) {
        if HasSlot(slots, added.index) {
          assert slots[k].index == k;
        } else {
          assert after[|slots|] == added;
          assert slots[k].index == k;
        }
      }
    }
    if ContiguousSlots(slots) && forall k: nat :: k < added.index ==> HasSlot(slots, k) {
      assert added.index < |slots| ==> slots[added.index].index == added.index;
      assert |slots| < added.index ==> HasSlot(slots, |slots|);
    }
  }

  // --- the published plan ---------------------------------------------------------------------------

  /** For each hostname of the probes, in text order, the addresses of its slots. */
  predicate ShowsSlots(specs: seq<StepFields>, resolutions: seq<Resolution>, now: int) {
    && (forall i, j :: 0 <= i < j < |resolutions| ==> TextLess(resolutions[i].hostname, resolutions[j].hostname))
    && (forall k :: 0 <= k < |resolutions| ==> resolutions[k].resolvedAt == now && resolutions[k].addresses != [])
    && (forall k, j :: 0 <= k < |resolutions| && 0 <= j < |resolutions[k].addresses| ==>
          SomeReserves(specs, resolutions[k].hostname, j, resolutions[k].addresses[j]))
    && (forall i :: 0 <= i < |specs| && Resolving(specs[i]) ==>
          Holds(resolutions, specs[i].sourceHostname.value, specs[i].slot.value, specs[i].address.value))
  }

  predicate Holds(resolutions: seq<Resolution>, name: string, index: nat, address: string) {
    exists k :: 0 <= k < |resolutions| && resolutions[k].hostname == name
                && index < |resolutions[k].addresses| && resolutions[k].addresses[index] == address
  }

  lemma {:induction false} SlotsShown(n: Notation, g: Grant, specs: seq<StepFields>, now: int)
    requires CompileSpecs(n, g, specs, now).Ok? && Contiguous(CompileSpecs(n, g, specs, now).value.slots)
    requires forall name :: name in Canonical(TextLess, Hostnames(specs)) ==> name in CompileSpecs(n, g, specs, now).value.slots
    ensures ShowsSlots(specs, SlotResolutions(CompileSpecs(n, g, specs, now).value.slots, Canonical(TextLess, Hostnames(specs)), now), now)
  {
    hide CompileSpecs, TextLess, Canonical, Hostnames, Reserves, SomeReserves, StrictOrder;
    var slots, names := CompileSpecs(n, g, specs, now).value.slots, Canonical(TextLess, Hostnames(specs));
    var shown := SlotResolutions(slots, names, now);
    TextOrder();
    CanonicalAscends(TextLess, Hostnames(specs));
    CompiledSlots(n, g, specs, now);
    forall k | 0 <= k < |shown| ensures shown[k].addresses != [] {
      HostnameReserved(n, g, specs, now, names[k]);
    }
    forall k, j | 0 <= k < |shown| && 0 <= j < |shown[k].addresses|
      ensures SomeReserves(specs, shown[k].hostname, j, shown[k].addresses[j])
    {
      var slot := slots[names[k]][j];
      assert slot in slots[names[k]];
      SlotsRemembered(n, g, specs, now, names[k], slot);
    }
    forall i | 0 <= i < |specs| && Resolving(specs[i])
      ensures Holds(shown, specs[i].sourceHostname.value, specs[i].slot.value, specs[i].address.value)
    {
      ReservedShown(n, g, specs, now, i);
      var name := specs[i].sourceHostname.value;
      HostnamesExact(specs, name);
      assert name in Elements(Hostnames(specs));
      assert name in Elements(names);
      var k :| 0 <= k < |names| && names[k] == name;
      assert shown[k].hostname == name;
    }
  }

  lemma {:induction false} HostnameReserved(n: Notation, g: Grant, specs: seq<StepFields>, now: int, name: string)
    requires CompileSpecs(n, g, specs, now).Ok? && name in Elements(Canonical(TextLess, Hostnames(specs)))
    ensures name in CompileSpecs(n, g, specs, now).value.slots && CompileSpecs(n, g, specs, now).value.slots[name] != []
  {
    hide CompileSpecs, TextLess, Canonical, Hostnames;
    NamesKnown(specs);
    CompiledSlots(n, g, specs, now);
    HostnamesExact(specs, name);
    var i :| 0 <= i < |specs| && Resolving(specs[i]) && specs[i].sourceHostname == Some(name);
    ReservedShown(n, g, specs, now, i);
  }

  lemma {:induction false} ReservedShown(n: Notation, g: Grant, specs: seq<StepFields>, now: int, i: nat)
    requires CompileSpecs(n, g, specs, now).Ok? && i < |specs| && Resolving(specs[i])
    ensures var slots, name := CompileSpecs(n, g, specs, now).value.slots, specs[i].sourceHostname.value;
            && name in slots && Slot(specs[i].slot.value, specs[i].address.value) in slots[name]
            && (ContiguousSlots(slots[name]) ==>
                  specs[i].slot.value < |slots[name]| && slots[name][specs[i].slot.value].address == specs[i].address.value)
  {
    hide CompileSpecs;
    var name, slot := specs[i].sourceHostname.value, Slot(specs[i].slot.value, specs[i].address.value);
    assert Reserves(specs[i], name, slot.index, slot.address);
    SlotsRemembered(n, g, specs, now, name, slot);
  }

  function StepsOf(specs: seq<StepFields>): seq<ProbeStep> {
    seq(|specs|, i requires 0 <= i < |specs| => ProbeStep(SparseDigest(specs[i]), specs[i]))
  }

  function Ports(specs: seq<StepFields>): set<nat> {
    set spec | spec in specs && spec.port.Some? :: spec.port.value
  }

  /** The work of the probes, with five events and an envelope for the task itself, fits. */
  predicate WorkFits(env: Environment, g: Grant, specs: seq<StepFields>, l: Limits) {
    var steps := StepsOf(specs);
    && |Destinations(specs)| <= l.maxHosts && |Ports(specs)| <= l.maxPorts && |specs| <= l.maxAttempts
    && Datagrams(steps) <= l.maxDatagrams && Packets(steps) <= l.maxPackets && ApplicationBytes(steps) <= l.maxApplicationBytes
    && Observations(steps) + 5 <= l.maxEvents
    && Sum(steps, (s: ProbeStep) => s.fields.cost.maxOutputBytes) + env.envelope(steps, g) <= l.maxOutputBytes
  }

  predicate ListAcceptable(env: Environment, specs: seq<StepFields>, g: Grant, profile: string, limits: Limits, now: int) {
    && 1 <= |profile| <= 128 && LimitsWithin(limits, ABSOLUTE_CEILINGS) && specs != []
    && (forall i :: 0 <= i < |specs| ==> SpecPermitted(env.notation, g, specs[i], now))
    && Agreed(specs) && Ordered(specs)
    && (forall i, j :: 0 <= i < j < |specs| ==> specs[i] != specs[j])
    && (forall i :: 0 <= i < |specs| && specs[i].kind != LocalSnapshot ==> specs[i].cost.packets > 0)
    && (forall i, j :: 0 <= i < j < |specs| && specs[i].kind == UdpExchange && specs[j].kind == UdpExchange ==>
          specs[i].payload == specs[j].payload)
    && WorkFits(env, g, specs, limits)
  }

  // --- what is published --------------------------------------------------------------------------

  /** The plan shows exactly the listed probes, in their order, and what they use. */
  ghost predicate AsListed(env: Environment, specs: seq<StepFields>, g: Grant, profile: string, limits: Limits, now: int, p: Preview) {
    && p.profile == profile && p.scope == g && p.limits == limits && p.createdAt == now && p.confirmations == []
    && |p.steps| == |specs| && (forall i :: 0 <= i < |specs| ==> p.steps[i].fields == specs[i])
    && (forall i, j :: 0 <= i < j < |p.ports| ==> p.ports[i] < p.ports[j])
    && (forall port :: port in p.ports <==> exists i :: 0 <= i < |specs| && specs[i].port == Some(port))
    && (forall transport :: transport in p.transports <==> exists i :: 0 <= i < |specs| && specs[i].transport == Some(transport))
    && (forall t :: t in p.targets <==> exists i :: 0 <= i < |specs| && env.notation.parse(specs[i].target) == Some(t))
    && (forall i :: 0 <= i < |specs| ==> specs[i].attempt <= p.repeats)
    && (forall i :: 0 <= i < |specs| && specs[i].kind == UdpExchange ==> p.payloadBytes == specs[i].payload.length)
    && ShowsSlots(specs, p.resolutions, now)
    && p.datagramsPerAttempt == 1
    && p.digest == Draft(p.profile, p.targets, p.ports, p.transports, p.repeats, p.payloadBytes, 1, p.steps, p.scope,
                         Undated(p.resolutions), p.limits, p.estimate, [])
  }

  lemma {:induction false} PortsUsed(specs: seq<StepFields>, port: nat)
    ensures port in PortNumbers(specs) <==> exists i :: 0 <= i < |specs| && specs[i].port == Some(port)
  {
    if specs != [] {
      var front, last := specs[..|specs| - 1], specs[|specs| - 1];
      PortsUsed(front, port);
      assert forall i :: 0 <= i < |front| ==> front[i] == specs[i];
    }
  }

  lemma PortIsUsed(specs: seq<StepFields>, port: nat)
    ensures port in Ports(specs) <==> exists i :: 0 <= i < |specs| && specs[i].port == Some(port)
  {
    if port in Ports(specs) {
      var spec :| spec in specs && spec.port == Some(port);
    }
    if i :| 0 <= i < |specs| && specs[i].port == Some(port) {
      assert specs[i] in specs;
    }
  }

  /** The sorted ports are as many as the ports in use. */
  lemma {:induction false} PortsSorted(specs: seq<StepFields>)
    ensures var ports := Canonical(PortLess, PortNumbers(specs));
            && |ports| == |Ports(specs)| && Elements(ports) == Ports(specs)
            && forall i, j :: 0 <= i < j < |ports| ==> ports[i] < ports[j]
  {
    var all := PortNumbers(specs);
    assert StrictOrder(PortLess);
    CanonicalAscends(PortLess, all);
    forall port: nat ensures port in Elements(all) <==> port in Ports(specs) {
      PortsUsed(specs, port);
      PortIsUsed(specs, port);
    }
    assert Elements(all) == Ports(specs);
    DistinctCount(Canonical(PortLess, all));
    hide Canonical, PortNumbers;
  }

  lemma SameSteps(specs: seq<StepFields>, steps: seq<ProbeStep>)
    requires SameIds(specs, steps)
    ensures steps == StepsOf(specs)
  {
  }

  /** Step identifiers are digests of the probes: they differ exactly when the probes do. */
  lemma IdsDifferExactly(specs: seq<StepFields>)
    ensures |set s | s in StepsOf(specs) :: s.id| == |StepsOf(specs)|
            <==> forall i, j :: 0 <= i < j < |specs| ==> specs[i] != specs[j]
  {
    var steps := StepsOf(specs);
    if |set s | s in steps :: s.id| == |steps| {
      DistinctFromCount(steps);
      forall i, j | 0 <= i < j < |specs| ensures specs[i] != specs[j] {
        assert steps[i].id != steps[j].id;
      }
    }
    if forall i, j :: 0 <= i < j < |specs| ==> specs[i] != specs[j] {
      var ids := seq(|steps|, i requires 0 <= i < |steps| => steps[i].id);
      assert Distinct(ids);
      DistinctCount(ids);
      forall id ensures id in Elements(ids) <==> id in set s | s in steps :: s.id {
        if id in Elements(ids) {
          var i :| 0 <= i < |ids| && ids[i] == id;
          assert steps[i] in steps;
        }
        if s :| s in steps && s.id == id {
          var i :| 0 <= i < |steps| && steps[i] == s;
          assert ids[i] == id;
        }
      }
      assert Elements(ids) == set s | s in steps :: s.id;
    }
  }

  lemma AtMostOne<T>(s: set<T>)
    ensures |s| <= 1 <==> forall x, y :: x in s && y in s ==> x == y
  {
    if s != {} {
      var x :| x in s;
      assert s == {x} + (s - {x});
      if |s| <= 1 {
        assert |s - {x}| == 0;
      }
      if forall a, b :: a in s && b in s ==> a == b {
        assert s == {x};
      }
    }
  }

  lemma OnePayload(specs: seq<StepFields>)
    ensures |UdpPayloads(specs)| <= 1
            <==> forall i, j :: 0 <= i < j < |specs| && specs[i].kind == UdpExchange && specs[j].kind == UdpExchange ==>
                   specs[i].payload == specs[j].payload
  {
    AtMostOne(UdpPayloads(specs));
    if |UdpPayloads(specs)| <= 1 {
      forall i, j | 0 <= i < j < |specs| && specs[i].kind == UdpExchange && specs[j].kind == UdpExchange
        ensures specs[i].payload == specs[j].payload
      {
        assert specs[i] in specs && specs[j] in specs;
        assert specs[i].payload in UdpPayloads(specs) && specs[j].payload in UdpPayloads(specs);
      }
    }
  }

  lemma {:induction false} WorkFitsExactly(env: Environment, g: Grant, specs: seq<StepFields>, limits: Limits)
    requires specs != []
    ensures EstimateWithin(Sparse.EstimateOf(env, g, specs, StepsOf(specs), Canonical(PortLess, PortNumbers(specs)), limits), limits)
            <==> WorkFits(env, g, specs, limits)
  {
    PortsSorted(specs);
    SomeDestination(specs);
    hide Canonical, PortNumbers, Datagrams, Packets, ApplicationBytes, Observations, Destinations, Ports, Sum;
  }

  lemma SomeDestination(specs: seq<StepFields>)
    requires specs != []
    ensures Destinations(specs) != {}
  {
    assert specs[0] in specs;
    assert (if specs[0].address.Some? then specs[0].address.value else specs[0].target) in Destinations(specs);
  }

  lemma {:induction false} ContiguousNames(specs: seq<StepFields>, slots: map<string, seq<Slot>>)
    requires slots.Keys == Elements(Hostnames(specs))
    ensures (forall name :: name in Canonical(TextLess, Hostnames(specs)) ==> name in slots && ContiguousSlots(slots[name]))
            <==> Contiguous(slots)
  {
    hide Canonical, TextLess, Hostnames, ContiguousSlots;
    NamesKnown(specs);
    assert forall name :: name in slots <==> name in Elements(Canonical(TextLess, Hostnames(specs)));
  }

  lemma TargetsParse(n: Notation, g: Grant, specs: seq<StepFields>, now: int)
    requires Faithful(n) && specs != [] && forall i :: 0 <= i < |specs| ==> SpecPermitted(n, g, specs[i], now)
    ensures NormalizeTargets(n, SpecTargets(specs)).Ok?
    ensures forall t :: t in NormalizeTargets(n, SpecTargets(specs)).value
                        <==> exists i :: 0 <= i < |specs| && n.parse(specs[i].target) == Some(t)
  {
    hide Faithful, NormalizeTargets, LoopbackTarget, Lawful;
    var texts := SpecTargets(specs);
    forall v | v in texts ensures n.parse(v).Some? {
      var i :| 0 <= i < |texts| && texts[i] == v;
      assert SpecPermitted(n, g, specs[i], now);
    }
    forall t ensures NormalizeTargets(n, texts).Ok?
      && (t in NormalizeTargets(n, texts).value <==> exists i :: 0 <= i < |specs| && n.parse(specs[i].target) == Some(t))
    {
      PlanContents.NormalizedExactly(n, texts, t);
      TextOf(n, specs, t);
    }
    PlanContents.NormalizedExactly(n, texts, HostTarget(""));
  }

  lemma TextOf(n: Notation, specs: seq<StepFields>, t: Target)
    ensures (exists v :: v in SpecTargets(specs) && n.parse(v) == Some(t))
            <==> exists i :: 0 <= i < |specs| && n.parse(specs[i].target) == Some(t)
  {
    var texts := SpecTargets(specs);
    if v :| v in texts && n.parse(v) == Some(t) {
      var i :| 0 <= i < |texts| && texts[i] == v;
      assert n.parse(specs[i].target) == Some(t);
    }
    if i :| 0 <= i < |specs| && n.parse(specs[i].target) == Some(t) {
      assert texts[i] in texts;
    }
  }

  lemma {:induction false} FinishExactly(
    env: Environment, specs: seq<StepFields>, g: Grant, profile: string, limits: Limits, now: int, work: Draftwork)
    requires work.slots.Keys == Elements(Hostnames(specs))
    ensures Finish(env, specs, g, profile, limits, now, work).Ok?
            <==> |set s | s in work.steps :: s.id| == |work.steps| && Contiguous(work.slots)
                 && NormalizeTargets(env.notation, SpecTargets(specs)).Ok? && !Silent(specs) && |UdpPayloads(specs)| <= 1
                 && EstimateWithin(Sparse.EstimateOf(env, g, specs, work.steps, Canonical(PortLess, PortNumbers(specs)), limits), limits)
  {
    ContiguousNames(specs, work.slots);
    hide Canonical, TextLess, Hostnames, ContiguousSlots, Contiguous, NormalizeTargets, SpecTargets, Silent, UdpPayloads, EstimateWithin,
         Sparse.EstimateOf, PortNumbers, SlotResolutions, Sparse.Publish;
  }

  /** A list of probes is published exactly when it is acceptable. */
  lemma {:induction false} PublishedExactly(
    env: Environment, specs: seq<StepFields>, g: Grant, profile: string, limits: Limits, now: int)
    requires Faithful(env.notation)
    ensures PreviewProbePlan(env, specs, g, profile, limits, now).Ok? <==> ListAcceptable(env, specs, g, profile, limits, now)
  {
    hide Faithful, LimitsWithin, Finish, CompileSpecs, SpecPermitted, Agreed, Ordered, Contiguous, WorkFits, Silent, UdpPayloads,
         NormalizeTargets, SpecTargets, EstimateWithin, Sparse.EstimateOf, Canonical, PortNumbers, StepsOf, SameIds, Hostnames;
    if specs != [] {
      CompilesExactly(env.notation, g, specs, now);
      if CompileSpecs(env.notation, g, specs, now).Ok? {
        var work := CompileSpecs(env.notation, g, specs, now).value;
        CompiledSteps(env.notation, g, specs, now);
        CompiledSlots(env.notation, g, specs, now);
        ContiguousExactly(env.notation, g, specs, now);
        SameSteps(specs, work.steps);
        IdsDifferExactly(specs);
        OnePayload(specs);
        WorkFitsExactly(env, g, specs, limits);
        TargetsParse(env.notation, g, specs, now);
        SilentExactly(specs);
        FinishExactly(env, specs, g, profile, limits, now, work);
      }
    }
  }

  lemma SilentExactly(specs: seq<StepFields>)
    ensures !Silent(specs) <==> forall i :: 0 <= i < |specs| && specs[i].kind != LocalSnapshot ==> specs[i].cost.packets > 0
  {
  }

  /** And what is published is the list. */
  lemma {:induction false} PublishedAsListed(
    env: Environment, specs: seq<StepFields>, g: Grant, profile: string, limits: Limits, now: int)
    requires Faithful(env.notation) && PreviewProbePlan(env, specs, g, profile, limits, now).Ok?
    ensures AsListed(env, specs, g, profile, limits, now, PreviewProbePlan(env, specs, g, profile, limits, now).value)
  {
    hide Faithful, LimitsWithin, Finish, CompileSpecs, SpecPermitted, Agreed, Ordered, Contiguous, WorkFits, ShowsSlots, AsListed,
         NormalizeTargets, SpecTargets, Canonical, Hostnames, SlotResolutions, SameIds;
    var n := env.notation;
    PublishedExactly(env, specs, g, profile, limits, now);
    CompilesExactly(n, g, specs, now);
    ContiguousExactly(n, g, specs, now);
    CompiledSteps(n, g, specs, now);
    CompiledSlots(n, g, specs, now);
    NamesKnown(specs);
    SlotsShown(n, g, specs, now);
    TargetsParse(n, g, specs, now);
    OnePayload(specs);
    FinishListed(env, specs, g, profile, limits, now, CompileSpecs(n, g, specs, now).value);
  }

  lemma {:induction false} MostAttempts(specs: seq<StepFields>)
    ensures forall i :: 0 <= i < |specs| ==> specs[i].attempt <= MaxAttempt(specs)
  {
    if specs != [] {
      MostAttempts(specs[..|specs| - 1]);
      assert forall i :: 0 <= i < |specs| - 1 ==> specs[..|specs| - 1][i] == specs[i];
    }
  }

  lemma {:induction false} SummaryIsUsed(specs: seq<StepFields>, i: nat)
    requires i < |specs| && specs[i].kind == UdpExchange
    ensures exists j :: 0 <= j < |specs| && specs[j].kind == UdpExchange && SummaryPayload(specs) == specs[j].payload
  {
    var n := |specs| - 1;
    if !specs[n].kind.UdpExchange? {
      assert specs[..n][i] == specs[i];
      SummaryIsUsed(specs[..n], i);
      var j :| 0 <= j < n && specs[..n][j].kind == UdpExchange && SummaryPayload(specs[..n]) == specs[..n][j].payload;
      assert specs[j].kind == UdpExchange && SummaryPayload(specs) == specs[j].payload;
    }
  }

  lemma {:induction false} SummaryExactly(specs: seq<StepFields>)
    requires |UdpPayloads(specs)| <= 1
    ensures forall i :: 0 <= i < |specs| && specs[i].kind == UdpExchange ==> SummaryPayload(specs) == specs[i].payload
  {
    OnePayload(specs);
    hide UdpPayloads, SummaryPayload;
    forall i | 0 <= i < |specs| && specs[i].kind == UdpExchange ensures SummaryPayload(specs) == specs[i].payload {
      SummaryIsUsed(specs, i);
    }
  }

  lemma TransportsUsed(specs: seq<StepFields>, transport: Transport)
    ensures transport in InTextOrder(UsedTransports(specs))
            <==> exists i :: 0 <= i < |specs| && specs[i].transport == Some(transport)
  {
    assert transport == Sctp || transport == Tcp || transport == Udp;
    assert transport in InTextOrder(UsedTransports(specs)) <==> transport in UsedTransports(specs);
    if transport in UsedTransports(specs) {
      var spec :| spec in specs && spec.transport == Some(transport);
    }
    if i :| 0 <= i < |specs| && specs[i].transport == Some(transport) {
      assert specs[i] in specs;
    }
  }

  lemma {:induction false} PortUsed(specs: seq<StepFields>, port: nat)
    ensures port in Canonical(PortLess, PortNumbers(specs)) <==> exists i :: 0 <= i < |specs| && specs[i].port == Some(port)
  {
    hide Canonical, PortNumbers;
    PortsSorted(specs);
    PortIsUsed(specs, port);
    assert port in Canonical(PortLess, PortNumbers(specs)) <==> port in Elements(Canonical(PortLess, PortNumbers(specs)));
  }

  /** The published values, by the names of the functions that compute them. */
  lemma {:induction false} FinishShows(
    env: Environment, specs: seq<StepFields>, g: Grant, profile: string, limits: Limits, now: int, work: Draftwork)
    requires Finish(env, specs, g, profile, limits, now, work).Ok?
    requires forall name :: name in Canonical(TextLess, Hostnames(specs)) ==> name in work.slots
    ensures var p := Finish(env, specs, g, profile, limits, now, work).value;
            && p.profile == profile && p.scope == g && p.limits == limits && p.createdAt == now && p.confirmations == []
            && p.steps == work.steps && p.ports == Canonical(PortLess, PortNumbers(specs))
            && p.transports == InTextOrder(UsedTransports(specs)) && Ok(p.targets) == NormalizeTargets(env.notation, SpecTargets(specs))
            && p.repeats == MaxAttempt(specs) && p.payloadBytes == SummaryPayload(specs).length
            && p.resolutions == SlotResolutions(work.slots, Canonical(TextLess, Hostnames(specs)), now)
            && p.datagramsPerAttempt == 1
            && p.digest == Draft(p.profile, p.targets, p.ports, p.transports, p.repeats, p.payloadBytes, 1, p.steps, p.scope,
                                 Undated(p.resolutions), p.limits, p.estimate, [])
  {
    hide Canonical, TextLess, PortLess, Hostnames, ContiguousSlots, NormalizeTargets, SpecTargets, Silent, UdpPayloads, EstimateWithin,
         Sparse.EstimateOf, PortNumbers, SlotResolutions, InTextOrder, UsedTransports, SummaryPayload, MaxAttempt, Undated;
  }

  lemma {:induction false} FinishListed(
    env: Environment, specs: seq<StepFields>, g: Grant, profile: string, limits: Limits, now: int, work: Draftwork)
    requires Finish(env, specs, g, profile, limits, now, work).Ok? && SameIds(specs, work.steps) && |UdpPayloads(specs)| <= 1
    requires forall name :: name in Canonical(TextLess, Hostnames(specs)) ==> name in work.slots
    requires ShowsSlots(specs, SlotResolutions(work.slots, Canonical(TextLess, Hostnames(specs)), now), now)
    requires NormalizeTargets(env.notation, SpecTargets(specs)).Ok?
    requires forall t :: t in NormalizeTargets(env.notation, SpecTargets(specs)).value
                         <==> exists i :: 0 <= i < |specs| && env.notation.parse(specs[i].target) == Some(t)
    ensures AsListed(env, specs, g, profile, limits, now, Finish(env, specs, g, profile, limits, now, work).value)
  {
    hide Finish, Canonical, TextLess, PortLess, Hostnames, NormalizeTargets, SpecTargets, UdpPayloads, PortNumbers, SlotResolutions,
         ShowsSlots, InTextOrder, UsedTransports, SummaryPayload, MaxAttempt, Ports, Elements, Undated;
    FinishShows(env, specs, g, profile, limits, now, work);
    SummaryExactly(specs);
    MostAttempts(specs);
    PortsSorted(specs);
    forall port: nat
      ensures port in Canonical(PortLess, PortNumbers(specs)) <==> exists i :: 0 <= i < |specs| && specs[i].port == Some(port)
    {
      PortUsed(specs, port);
    }
    forall transport: Transport
      ensures transport in InTextOrder(UsedTransports(specs)) <==> exists i :: 0 <= i < |specs| && specs[i].transport == Some(transport)
    {
      TransportsUsed(specs, transport);
    }
  }

  /** The estimate is what the steps and limits give. */
  lemma {:induction false} PublishedEstimate(
    env: Environment, specs: seq<StepFields>, g: Grant, profile: string, limits: Limits, now: int)
    requires PreviewProbePlan(env, specs, g, profile, limits, now).Ok?
    ensures var p := PreviewProbePlan(env, specs, g, profile, limits, now).value;
            p.estimate == Estimate(
              |Destinations(specs)|, |p.ports|, |p.steps|, Datagrams(p.steps), ApplicationBytes(p.steps),
              Least(limits.maxConcurrency, |p.steps|), limits.maxDuration, Observations(p.steps) + 5,
              Sum(p.steps, (s: ProbeStep) => s.fields.cost.maxOutputBytes) + env.envelope(p.steps, g),
              limits.maxGlobalRate, limits.maxTargetRate, Packets(p.steps))
  {
    FinishParts(env, specs, g, profile, limits, now);
    hide PreviewProbePlan, Datagrams, ApplicationBytes, Packets, Observations, Destinations, Sum, CompileSpecs, SlotResolutions,
         Canonical, Hostnames, EstimateWithin, SameIds;
    SomeDestination(specs);
  }
}
