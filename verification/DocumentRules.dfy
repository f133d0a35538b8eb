/** Which documents the result codec accepts: exactly those that have every member and no
    other, down to the last nested object, and spell a result within all its bounds. */
module DocumentRules {
  import opened Outcomes
  import opened Codec

  /** A text for an instant, of at most 64 characters. */
  predicate SpellsInstant(t: Tables, v: Py, instant: int) {
    v.Str? && |v.text| <= 64 && t.read(v.text) == Some(instant)
  }

  predicate SpellsNumber(v: Py, value: real) {
    v == Float(value) || (v.Int? && v.number as real == value)
  }

  predicate SpellsTexts(v: Py, texts: seq<string>) {
    v.ListOf? && |v.items| == |texts| && forall i :: 0 <= i < |texts| ==> v.items[i] == Str(texts[i])
  }

  /** A dictionary that freezes to the value. */
  predicate SpellsObject(v: Py, frozen: Py) {
    v.Dict? && Freeze(v, 0) == Some(frozen)
  }

  predicate SpellsObservation(t: Tables, v: Py, o: Observation) {
    && v.Dict?
    && v.entries.Keys == {Id, Probe, DispositionKey, EvidenceKind, DirectionKey, Target, StartedAt, EndedAt, DurationMs, AttemptKey,
                          Source, Detail}
    && (var m := v.entries;
        && m[Id] == Str(o.id) && m[Probe] == Str(o.probe) && m[DispositionKey] == Str(o.disposition)
        && m[EvidenceKind] == Str(o.kind) && m[DirectionKey] == Str(o.direction) && m[Target] == Str(o.target)
        && SpellsInstant(t, m[StartedAt], o.started) && SpellsInstant(t, m[EndedAt], o.ended)
        && SpellsNumber(m[DurationMs], o.duration) && m[AttemptKey] == Int(o.attempt) && m[Source] == Str(o.source)
        && SpellsObject(m[Detail], o.detail))
    && TextFits(o.id, 128) && TextFits(o.probe, 128) && TextFits(o.target, 1_024) && TextFits(o.source, 256)
    && o.kind in t.kinds && o.direction in t.directions && o.disposition in t.dispositions && o.disposition in t.allowed(o.kind)
    && o.started <= o.ended && 0.0 <= o.duration <= 86_400_000.0 && 1 <= o.attempt <= 100_000
  }

  predicate SpellsConclusion(t: Tables, v: Py, c: Conclusion) {
    && v.Dict?
    && v.entries.Keys == {Id, Title, Summary, HealthKey, ConfidenceKey, ObservationIds, Alternatives, Limitations}
    && (var m := v.entries;
        && m[Id] == Str(c.id) && m[Title] == Str(c.title) && m[Summary] == Str(c.summary)
        && m[HealthKey] == Str(c.health) && m[ConfidenceKey] == Str(c.confidence)
        && SpellsTexts(m[ObservationIds], c.observations) && SpellsTexts(m[Alternatives], c.alternatives)
        && SpellsTexts(m[Limitations], c.limitations))
    && TextFits(c.id, 128) && TextFits(c.title, 512) && TextFits(c.summary, 8_192)
    && c.health in t.healths && c.confidence in t.confidences
    && 1 <= |c.observations| <= 256 && |c.alternatives| <= 256 && |c.limitations| <= 256
    && AllFit(c.observations, 4_096) && AllFit(c.alternatives, 4_096) && AllFit(c.limitations, 4_096)
    && forall i, j :: 0 <= i < j < |c.observations| ==> c.observations[i] != c.observations[j]
  }

  predicate SpellsCapability(t: Tables, v: Py, c: Capability) {
    && v.Dict? && v.entries.Keys == {NameKey, StateKey, Source, Detail}
    && v.entries[NameKey] == Str(c.name) && v.entries[StateKey] == Str(c.state)
    && v.entries[Source] == Str(c.source) && v.entries[Detail] == Str(c.detail)
    && TextFits(c.name, 128) && c.state in t.capabilityStates && TextFits(c.source, 256)
    && |c.detail| <= 4_096 && '\0' !in c.detail
  }

  predicate SpellsProgress(v: Py, p: Progress) {
    && v.Dict? && v.entries.Keys == {Admitted, Completed, TotalKey}
    && v.entries[Admitted] == Int(p.admitted) && v.entries[Completed] == Int(p.completed) && v.entries[TotalKey] == Int(p.total)
    && 0 <= p.completed <= p.admitted <= p.total
  }

  predicate SpellsConfig(v: Py, e: Effective) {
    && v.Dict? && v.entries.Keys == {Profile, Targets, Authorized, PolicyDigest, Budget, Warnings}
    && (var m := v.entries;
        && m[Profile] == Str(e.profile) && SpellsTexts(m[Targets], e.targets) && m[Authorized] == Bool(e.authorized)
        && m[PolicyDigest] == Str(e.digest) && SpellsObject(m[Budget], e.budget) && SpellsTexts(m[Warnings], e.warnings))
    && TextFits(e.profile, 128) && TextFits(e.digest, 256)
    && |e.targets| <= 4_096 && AllFit(e.targets, 1_024) && |e.warnings| <= 256 && AllFit(e.warnings, 4_096)
  }

  /** The members, in a document that has these and no other. */
  predicate SpellsMembers(t: Tables, v: Py, r: TaskResult) {
    && v.Dict?
    && v.entries.Keys == {
         SchemaVersion, TaskId, TaskKind, DirectionKey, Target, StateKey, StartedAt, EndedAt, RequestedConfig, EffectiveConfigKey,
         ProgressKey, Observations, Conclusions, Capabilities, Errors}
    && (var m := v.entries;
        && m[SchemaVersion] == Str(r.version) && m[TaskId] == Str(r.taskId) && m[TaskKind] == Str(r.taskKind)
        && m[DirectionKey] == Str(r.direction) && m[Target] == Str(r.target) && m[StateKey] == Str(r.state)
        && SpellsInstant(t, m[StartedAt], r.started) && SpellsInstant(t, m[EndedAt], r.ended)
        && SpellsObject(m[RequestedConfig], r.requested) && SpellsConfig(m[EffectiveConfigKey], r.config)
        && SpellsProgress(m[ProgressKey], r.progress) && SpellsTexts(m[Errors], r.errors)
        && SpellsEach((x: Py, o: Observation) => SpellsObservation(t, x, o), m[Observations], r.observations)
        && SpellsEach((x: Py, c: Conclusion) => SpellsConclusion(t, x, c), m[Conclusions], r.conclusions)
        && SpellsEach((x: Py, c: Capability) => SpellsCapability(t, x, c), m[Capabilities], r.capabilities))
  }

  predicate SpellsEach<T>(spells: (Py, T) -> bool, v: Py, xs: seq<T>) {
    v.ListOf? && |v.items| == |xs| && forall i :: 0 <= i < |xs| ==> spells(v.items[i], xs[i])
  }

  /** What binds the members together: bounds, known words, identifiers that differ, and
      conclusions that cite observations of this result. */
  predicate Coherent(t: Tables, r: TaskResult) {
    && TextFits(r.taskId, 128) && TextFits(r.taskKind, 128) && TextFits(r.target, 1_024) && TextFits(r.version, 32)
    && r.version in t.versions && r.direction in t.directions && r.state in t.finalStates && r.started <= r.ended
    && |r.observations| <= 100_000 && |r.conclusions| <= 100_000 && |r.capabilities| <= 4_096
    && |r.errors| <= 256 && AllFit(r.errors, 4_096)
    && (forall i :: 0 <= i < |r.observations| ==> r.observations[i].kind in t.schemaKinds(r.version))
    && IdsDiffer(r) && CitesKnown(r)
  }

  predicate IdsDiffer(r: TaskResult) {
    && (forall i, j :: 0 <= i < j < |r.observations| ==> r.observations[i].id != r.observations[j].id)
    && (forall i, j :: 0 <= i < j < |r.conclusions| ==> r.conclusions[i].id != r.conclusions[j].id)
  }

  /** The conclusions cite observations of the result. */
  predicate CitesKnown(r: TaskResult) {
    forall i, id :: 0 <= i < |r.conclusions| && id in r.conclusions[i].observations ==> Observed(r.observations, id)
  }

  predicate Observed(observations: seq<Observation>, id: string) {
    exists j :: 0 <= j < |observations| && observations[j].id == id
  }

  /** At most this many levels of lists and objects, the value itself counted, with free keys
      of at most 256 characters. */
  predicate Nested(v: Py, levels: int) {
    && levels >= 1
    && match v
       case ListOf(items) => forall i :: 0 <= i < |items| ==> Nested(items[i], levels - 1)
       case Tuple(items) => forall i :: 0 <= i < |items| ==> Nested(items[i], levels - 1)
       case Dict(entries) => forall k :: k in entries ==> (k.Free? ==> |k.text| <= 256) && Nested(entries[k], levels - 1)
       case Proxy(entries) => forall k :: k in entries ==> (k.Free? ==> |k.text| <= 256) && Nested(entries[k], levels - 1)
       case _ => true
  }

  lemma {:induction false} ItemsFreeze(v: Py, depth: nat)
    requires (v.ListOf? || v.Tuple?) && depth <= 32
    requires forall i :: 0 <= i < |v.items| ==> (Freeze(v.items[i], depth + 1).Some? <==> Nested(v.items[i], 32 - depth))
    ensures Freeze(v, depth).Some? <==> Nested(v, 33 - depth)
  {
  }

  lemma {:induction false} EntriesFreeze(v: Py, depth: nat)
    requires (v.Dict? || v.Proxy?) && depth <= 32
    requires forall k :: k in v.entries ==> (Freeze(v.entries[k], depth + 1).Some? <==> Nested(v.entries[k], 32 - depth))
    ensures Freeze(v, depth).Some? <==> Nested(v, 33 - depth)
  {
  }

  /** A value freezes exactly if it has at most 33 levels, less those above it. */
  lemma {:induction false} FreezesExactly(v: Py, depth: nat)
    ensures Freeze(v, depth).Some? <==> Nested(v, 33 - depth)
    decreases v
  {
    hide Freeze, Nested;
    if depth <= 32 && (v.ListOf? || v.Tuple?) {
      forall i | 0 <= i < |v.items| ensures Freeze(v.items[i], depth + 1).Some? <==> Nested(v.items[i], 32 - depth) {
        FreezesExactly(v.items[i], depth + 1);
      }
      ItemsFreeze(v, depth);
    } else if depth <= 32 && (v.Dict? || v.Proxy?) {
      forall k | k in v.entries ensures Freeze(v.entries[k], depth + 1).Some? <==> Nested(v.entries[k], 32 - depth) {
        FreezesExactly(v.entries[k], depth + 1);
      }
      EntriesFreeze(v, depth);
    } else {
      ScalarFreezes(v, depth);
    }
  }

  lemma {:induction false} ScalarFreezes(v: Py, depth: nat)
    requires depth > 32 || !(v.ListOf? || v.Tuple? || v.Dict? || v.Proxy?)
    ensures Freeze(v, depth).Some? <==> Nested(v, 33 - depth)
  {
  }

  // --- the decoders, one object at a time ---------------------------------------------------------

  lemma {:induction false} TextsExactly(v: Py, texts: seq<string>, maximum: nat)
    ensures Decode(Text, v, maximum) == Some(texts) <==> SpellsTexts(v, texts) && |texts| <= maximum
  {
    if Decode(Text, v, maximum) == Some(texts) {
      forall i | 0 <= i < |texts| ensures v.items[i] == Str(texts[i]) {
        assert texts[i] == Decode(Text, v, maximum).value[i];
      }
    }
    if SpellsTexts(v, texts) && |texts| <= maximum {
      assert Decode(Text, v, maximum).Some?;
      assert Decode(Text, v, maximum).value == texts;
    }
  }

  /** The same for lists of objects. */
  lemma {:induction false} EachExactly<T>(f: Py -> Option<T>, spells: (Py, T) -> bool, v: Py, xs: seq<T>, maximum: nat)
    requires forall x, y :: f(x) == Some(y) <==> spells(x, y)
    ensures Decode(f, v, maximum) == Some(xs) <==> SpellsEach(spells, v, xs) && |xs| <= maximum
  {
    if Decode(f, v, maximum) == Some(xs) {
      forall i | 0 <= i < |xs| ensures spells(v.items[i], xs[i]) {
        assert xs[i] == Decode(f, v, maximum).value[i];
      }
    }
    if SpellsEach(spells, v, xs) && |xs| <= maximum {
      forall i | 0 <= i < |xs| ensures f(v.items[i]) == Some(xs[i]) {
        assert spells(v.items[i], xs[i]);
      }
      assert Decode(f, v, maximum).Some?;
      assert Decode(f, v, maximum).value == xs;
    }
  }

  lemma {:induction false} FrozenSpelled(v: Py, frozen: Py)
    ensures FreezeObject(v) == Some(frozen) <==> SpellsObject(v, frozen)
    ensures SpellsObject(v, frozen) ==> FrozenObject(frozen)
  {
    if SpellsObject(v, frozen) {
      ThawUndoesFreeze(v, 0);
    }
  }

  lemma {:induction false} ObservationExactly(t: Tables, v: Py, o: Observation)
    ensures ObservationFromWire(t, v) == Some(o) <==> SpellsObservation(t, v, o)
  {
    if v.Dict? && Detail in v.entries {
      FrozenSpelled(v.entries[Detail], o.detail);
    }
    hide TextFits, FreezeObject, SpellsObject, FrozenObject;
  }

  lemma {:induction false} ConclusionExactly(t: Tables, v: Py, c: Conclusion)
    ensures ConclusionFromWire(t, v) == Some(c) <==> SpellsConclusion(t, v, c)
  {
    if HasFields(v, {Id, Title, Summary, HealthKey, ConfidenceKey, ObservationIds, Alternatives, Limitations}) {
      TextsExactly(v.entries[ObservationIds], c.observations, 100_000);
      TextsExactly(v.entries[Alternatives], c.alternatives, 256);
      TextsExactly(v.entries[Limitations], c.limitations, 256);
    }
    hide TextFits, AllFit, Decode, SpellsTexts;
  }

  lemma {:induction false} CapabilityExactly(t: Tables, v: Py, c: Capability)
    ensures CapabilityFromWire(t, v) == Some(c) <==> SpellsCapability(t, v, c)
  {
    hide TextFits;
  }

  lemma {:induction false} ProgressExactly(v: Py, p: Progress)
    ensures ProgressFromWire(v) == Some(p) <==> SpellsProgress(v, p)
  {
  }

  lemma {:induction false} ConfigExactly(v: Py, e: Effective)
    ensures EffectiveFromWire(v) == Some(e) <==> SpellsConfig(v, e)
  {
    if HasFields(v, {Profile, Targets, Authorized, PolicyDigest, Budget, Warnings}) {
      TextsExactly(v.entries[Targets], e.targets, 4_096);
      TextsExactly(v.entries[Warnings], e.warnings, 256);
      FrozenSpelled(v.entries[Budget], e.budget);
    }
    hide TextFits, AllFit, Decode, SpellsTexts, FreezeObject, SpellsObject, FrozenObject;
  }

  // --- the document -----------------------------------------------------------------------------------

  lemma {:induction false} ListsExactly(t: Tables, v: Py, w: Py, u: Py, r: TaskResult)
    ensures Decode((x: Py) => ObservationFromWire(t, x), v, 100_000) == Some(r.observations)
            <==> SpellsEach((x: Py, o: Observation) => SpellsObservation(t, x, o), v, r.observations) && |r.observations| <= 100_000
    ensures Decode((x: Py) => ConclusionFromWire(t, x), w, 100_000) == Some(r.conclusions)
            <==> SpellsEach((x: Py, c: Conclusion) => SpellsConclusion(t, x, c), w, r.conclusions) && |r.conclusions| <= 100_000
    ensures Decode((x: Py) => CapabilityFromWire(t, x), u, 4096) == Some(r.capabilities)
            <==> SpellsEach((x: Py, c: Capability) => SpellsCapability(t, x, c), u, r.capabilities) && |r.capabilities| <= 4_096
  {
    hide ObservationFromWire, ConclusionFromWire, CapabilityFromWire, SpellsObservation, SpellsConclusion, SpellsCapability, Decode,
         SpellsEach;
    forall x, o ensures ObservationFromWire(t, x) == Some(o) <==> SpellsObservation(t, x, o) {
      ObservationExactly(t, x, o);
    }
    forall x, c ensures ConclusionFromWire(t, x) == Some(c) <==> SpellsConclusion(t, x, c) {
      ConclusionExactly(t, x, c);
    }
    forall x, c ensures CapabilityFromWire(t, x) == Some(c) <==> SpellsCapability(t, x, c) {
      CapabilityExactly(t, x, c);
    }
    EachExactly((x: Py) => ObservationFromWire(t, x), (x: Py, o: Observation) => SpellsObservation(t, x, o), v, r.observations, 100_000);
    EachExactly((x: Py) => ConclusionFromWire(t, x), (x: Py, c: Conclusion) => SpellsConclusion(t, x, c), w, r.conclusions, 100_000);
    EachExactly((x: Py) => CapabilityFromWire(t, x), (x: Py, c: Capability) => SpellsCapability(t, x, c), u, r.capabilities, 4096);
  }

  lemma {:induction false} LinkedExactly(r: TaskResult)
    ensures Linked(r) <==> IdsDiffer(r) && CitesKnown(r)
  {
    if IdsDiffer(r) && CitesKnown(r) {
      forall i, k | 0 <= i < |r.conclusions| && 0 <= k < |r.conclusions[i].observations|
        ensures Includes(r.observations, r.conclusions[i].observations[k])
      {
        assert r.conclusions[i].observations[k] in r.conclusions[i].observations;
        assert Observed(r.observations, r.conclusions[i].observations[k]);
      }
    }
    if Linked(r) {
      forall i, id | 0 <= i < |r.conclusions| && id in r.conclusions[i].observations ensures Observed(r.observations, id) {
        var k :| 0 <= k < |r.conclusions[i].observations| && r.conclusions[i].observations[k] == id;
        assert Includes(r.observations, r.conclusions[i].observations[k]);
      }
    }
  }

  lemma {:induction false} CoherentExactly(t: Tables, r: TaskResult)
    requires FrozenObject(r.requested)
    ensures EnvelopeOk(t, r) <==> Coherent(t, r)
  {
    hide TextFits, AllFit, FrozenObject, CitesKnown, IdsDiffer, Linked;
    LinkedExactly(r);
  }

  /** A document decodes to a result exactly when it spells that result, and the result holds
      together. So a member that is missing or unknown, anywhere, is refused. */
  lemma {:induction false} DecodesExactly(t: Tables, v: Py, r: TaskResult)
    ensures ResultFromWire(t, v) == Some(r) <==> SpellsMembers(t, v, r) && Coherent(t, r)
  {
    hide TextFits, AllFit, Decode, SpellsTexts, FreezeObject, SpellsObject, FrozenObject, ObservationFromWire, ConclusionFromWire,
         CapabilityFromWire, EffectiveFromWire, ProgressFromWire, SpellsEach, SpellsConfig, SpellsProgress, EnvelopeOk, Coherent,
         SpellsObservation, SpellsConclusion, SpellsCapability;
    if HasFields(v, RESULT_KEYS) {
      var m := v.entries;
      ListsExactly(t, m[Observations], m[Conclusions], m[Capabilities], r);
      TextsExactly(m[Errors], r.errors, 256);
      FrozenSpelled(m[RequestedConfig], r.requested);
      ConfigExactly(m[EffectiveConfigKey], r.config);
      ProgressExactly(m[ProgressKey], r.progress);
      if FrozenObject(r.requested) {
        CoherentExactly(t, r);
      }
      CoherentBounds(t, r);
    }
  }

  lemma {:induction false} CoherentBounds(t: Tables, r: TaskResult)
    ensures Coherent(t, r) ==>
              |r.observations| <= 100_000 && |r.conclusions| <= 100_000 && |r.capabilities| <= 4_096 && |r.errors| <= 256
  {
  }
}
