/** The strict codec of task results: freezing and thawing of nested JSON values, and the
    wire form of a result with the checks of decoder and model constructors. */
module Codec {
  import opened Outcomes
  import opened Collections
  import opened WireTimes

  /** Field names of the fixed documents, and the free keys of nested objects. */
  datatype Key =
    | Free(text: string)
    | Id | Probe | DispositionKey | EvidenceKind | DirectionKey | Target | StartedAt | EndedAt | DurationMs | AttemptKey
    | Source | Detail | Title | Summary | HealthKey | ConfidenceKey | ObservationIds | Alternatives | Limitations
    | NameKey | StateKey | Admitted | Completed | TotalKey | Profile | Targets | Authorized | PolicyDigest | Budget | Warnings
    | SchemaVersion | TaskId | TaskKind | RequestedConfig | EffectiveConfigKey | ProgressKey | Observations | Conclusions
    | Capabilities | Errors

  /** JSON-like values: plain lists and dictionaries on the wire, tuples and read-only
      mappings in the model. Numbers are exact. */
  datatype Py =
    | Null
    | Bool(flag: bool)
    | Int(number: int)
    | Float(value: real)
    | Str(text: string)
    | ListOf(items: seq<Py>)
    | Tuple(items: seq<Py>)
    | Dict(entries: map<Key, Py>)
    | Proxy(entries: map<Key, Py>)

  // --- freezing and thawing ---------------------------------------------------------

  const MAX_DEPTH: nat := 32

  predicate KeyFits(key: Key) {
    key.Free? ==> |key.text| <= 256
  }

  function Thaw(v: Py): Py {
    match v
    case Tuple(items) => ListOf(seq(|items|, i requires 0 <= i < |items| => Thaw(items[i])))
    case ListOf(items) => ListOf(seq(|items|, i requires 0 <= i < |items| => Thaw(items[i])))
    case Proxy(entries) => Dict(map k | k in entries :: Thaw(entries[k]))
    case Dict(entries) => Dict(map k | k in entries :: Thaw(entries[k]))
    case _ => v
  }

  /** `freeze_json`. */
  function Freeze(v: Py, depth: nat): Option<Py> {
    if depth > MAX_DEPTH then None
    else if v.ListOf? || v.Tuple? then
      if exists i :: 0 <= i < |v.items| && Freeze(v.items[i], depth + 1).None? then None
      else Some(Tuple(seq(|v.items|, i requires 0 <= i < |v.items| => Freeze(v.items[i], depth + 1).value)))
    else if v.Dict? || v.Proxy? then
      if exists k :: k in v.entries && (!KeyFits(k) || Freeze(v.entries[k], depth + 1).None?) then None
      else Some(Proxy(map k | k in v.entries :: Freeze(v.entries[k], depth + 1).value))
    else Some(v)
  }

  /** What freezing produces: no list, no dictionary, bounded depth and keys. */
  predicate Frozen(v: Py, depth: nat) {
    && depth <= MAX_DEPTH
    && match v
       case ListOf(_) => false
       case Dict(_) => false
       case Tuple(items) => forall i :: 0 <= i < |items| ==> Frozen(items[i], depth + 1)
       case Proxy(entries) => forall k :: k in entries ==> KeyFits(k) && Frozen(entries[k], depth + 1)
       case _ => true
  }

  /** What arrives from a JSON reader: neither tuples nor read-only mappings. */
  predicate Plain(v: Py) {
    match v
    case Tuple(_) => false
    case Proxy(_) => false
    case ListOf(items) => forall i :: 0 <= i < |items| ==> Plain(items[i])
    case Dict(entries) => forall k :: k in entries ==> Plain(entries[k])
    case _ => true
  }

  /** Freezing undoes thawing, exactly on frozen values. */
  lemma {:induction false} FreezeUndoesThaw(v: Py, depth: nat)
    ensures Freeze(Thaw(v), depth) == Some(v) <==> Frozen(v, depth)
    decreases v
  {
    if depth <= MAX_DEPTH {
      if v.Tuple? {
        forall i | 0 <= i < |v.items| ensures Freeze(Thaw(v.items[i]), depth + 1) == Some(v.items[i]) <==> Frozen(v.items[i], depth + 1) {
          FreezeUndoesThaw(v.items[i], depth + 1);
        }
        FreezeTuple(v.items, Thaw(v).items, depth);
      } else if v.Proxy? {
        forall k | k in v.entries
          ensures Freeze(Thaw(v.entries[k]), depth + 1) == Some(v.entries[k]) <==> Frozen(v.entries[k], depth + 1)
        {
          FreezeUndoesThaw(v.entries[k], depth + 1);
        }
        FreezeProxy(v.entries, Thaw(v).entries, depth);
      }
    }
  }

  lemma {:induction false} FreezeProxy(entries: map<Key, Py>, thawed: map<Key, Py>, depth: nat)
    requires depth <= MAX_DEPTH && thawed.Keys == entries.Keys
    ensures Freeze(Dict(thawed), depth) == Some(Proxy(entries))
            <==> forall k :: k in entries ==> KeyFits(k) && Freeze(thawed[k], depth + 1) == Some(entries[k])
  {
    var f := Freeze(Dict(thawed), depth);
    if forall k :: k in entries ==> KeyFits(k) && Freeze(thawed[k], depth + 1) == Some(entries[k]) {
      assert f.Some? && f.value.entries == entries;
    }
  }

  lemma {:induction false} FreezeTuple(items: seq<Py>, thawed: seq<Py>, depth: nat)
    requires depth <= MAX_DEPTH && |thawed| == |items|
    ensures Freeze(ListOf(thawed), depth) == Some(Tuple(items))
            <==> forall i :: 0 <= i < |items| ==> Freeze(thawed[i], depth + 1) == Some(items[i])
  {
    var f := Freeze(ListOf(thawed), depth);
    if forall i :: 0 <= i < |items| ==> Freeze(thawed[i], depth + 1) == Some(items[i]) {
      assert f.Some? && f.value.items == items;
    } else if f == Some(Tuple(items)) {
      forall i | 0 <= i < |items| ensures Freeze(thawed[i], depth + 1) == Some(items[i]) {
        assert f.value.items[i] == items[i];
      }
    }
  }

  /** And thawing undoes freezing on plain values; what freezing gives is frozen. */
  lemma {:induction false} ThawUndoesFreeze(v: Py, depth: nat)
    requires Freeze(v, depth).Some?
    ensures Frozen(Freeze(v, depth).value, depth)
    ensures Plain(v) ==> Thaw(Freeze(v, depth).value) == v
  {
    var f := Freeze(v, depth).value;
    if v.ListOf? || v.Tuple? {
      forall i | 0 <= i < |v.items|
        ensures Frozen(f.items[i], depth + 1) && (Plain(v) ==> Thaw(f.items[i]) == v.items[i])
      {
        ThawUndoesFreeze(v.items[i], depth + 1);
      }
    } else if v.Dict? || v.Proxy? {
      forall k | k in v.entries
        ensures KeyFits(k) && Frozen(f.entries[k], depth + 1) && (Plain(v) ==> Thaw(f.entries[k]) == v.entries[k])
      {
        ThawUndoesFreeze(v.entries[k], depth + 1);
      }
    }
  }

  // --- the model ------------------------------------------------------------------------

  /** The closed vocabularies, and ISO-8601 text for instants in microseconds. */
  datatype Tables = Tables(
    directions: set<string>, dispositions: set<string>, kinds: set<string>, healths: set<string>, confidences: set<string>,
    capabilityStates: set<string>, finalStates: set<string>, openStates: set<string>, versions: set<string>,
    allowed: string -> set<string>, schemaKinds: string -> set<string>,
    spell: int -> Option<string>, read: string -> Option<int>)

  /** The microseconds of the years 1 to 9999 in UTC. A local time with an offset may denote
      an instant up to one day outside. */
  predicate InCalendar(instant: int) {
    0 <= instant < 315_537_897_600_000_000
  }

  /** Exactly the instants of the UTC calendar have a text, which is short and reads back.
      Other texts may read as any instant. */
  ghost predicate Faithful(t: Tables) {
    forall instant ::
      && (t.spell(instant).Some? <==> InCalendar(instant))
      && (InCalendar(instant) ==> |t.spell(instant).value| <= 64 && t.read(t.spell(instant).value) == Some(instant))
  }

  datatype Observation = Observation(
    id: string, probe: string, disposition: string, kind: string, direction: string, target: string,
    started: int, ended: int, duration: real, attempt: int, source: string, detail: Py)

  datatype Conclusion = Conclusion(
    id: string, title: string, summary: string, health: string, confidence: string,
    observations: seq<string>, alternatives: seq<string>, limitations: seq<string>)

  datatype Capability = Capability(name: string, state: string, source: string, detail: string)

  datatype Progress = Progress(admitted: int, completed: int, total: int)

  datatype Effective = Effective(
    profile: string, targets: seq<string>, authorized: bool, digest: string, budget: Py, warnings: seq<string>)

  datatype TaskResult = TaskResult(
    version: string, taskId: string, taskKind: string, direction: string, target: string, state: string,
    started: int, ended: int, requested: Py, config: Effective, progress: Progress,
    observations: seq<Observation>, conclusions: seq<Conclusion>, capabilities: seq<Capability>, errors: seq<string>)

  /** What `str.strip()` removes. */
  predicate Blank(c: char) {
    var k := c as int;
    || 9 <= k <= 13 || 28 <= k <= 32 || k == 0x85 || k == 0xA0 || k == 0x1680 || 0x2000 <= k <= 0x200A
    || k == 0x2028 || k == 0x2029 || k == 0x202F || k == 0x205F || k == 0x3000
  }

  /** `_validate_text`: not blank, bounded, without NUL. */
  predicate TextFits(s: string, maximum: nat) {
    |s| <= maximum && '\0' !in s && exists i :: 0 <= i < |s| && !Blank(s[i])
  }

  predicate AllFit(texts: seq<string>, maximum: nat) {
    forall i :: 0 <= i < |texts| ==> TextFits(texts[i], maximum)
  }

  predicate FrozenObject(v: Py) {
    v.Proxy? && Frozen(v, 0)
  }

  predicate ObservationOk(t: Tables, o: Observation) {
    && TextFits(o.id, 128) && TextFits(o.probe, 128) && TextFits(o.target, 1024) && TextFits(o.source, 256)
    && o.disposition in t.dispositions && o.kind in t.kinds && o.direction in t.directions
    && o.started <= o.ended && 0.0 <= o.duration <= 86_400_000.0 && 1 <= o.attempt <= 100_000
    && o.disposition in t.allowed(o.kind) && FrozenObject(o.detail)
  }

  predicate ConclusionOk(t: Tables, c: Conclusion) {
    && TextFits(c.id, 128) && TextFits(c.title, 512) && TextFits(c.summary, 8192)
    && c.health in t.healths && c.confidence in t.confidences
    && c.observations != [] && (forall i, j :: 0 <= i < j < |c.observations| ==> c.observations[i] != c.observations[j])
    && |c.observations| <= 256 && |c.alternatives| <= 256 && |c.limitations| <= 256
    && AllFit(c.observations, 4096) && AllFit(c.alternatives, 4096) && AllFit(c.limitations, 4096)
  }

  predicate CapabilityOk(t: Tables, c: Capability) {
    && TextFits(c.name, 128) && c.state in t.capabilityStates && TextFits(c.source, 256)
    && |c.detail| <= 4096 && '\0' !in c.detail
  }

  predicate ProgressOk(p: Progress) {
    0 <= p.completed <= p.admitted <= p.total
  }

  /** The number of warnings is not bounded here. */
  predicate EffectiveOk(e: Effective) {
    && TextFits(e.profile, 128) && TextFits(e.digest, 256) && |e.targets| <= 4096
    && AllFit(e.targets, 1024) && FrozenObject(e.budget) && AllFit(e.warnings, 4096)
  }

  predicate Linked(r: TaskResult) {
    && (forall i, j :: 0 <= i < j < |r.observations| ==> r.observations[i].id != r.observations[j].id)
    && (forall i, j :: 0 <= i < j < |r.conclusions| ==> r.conclusions[i].id != r.conclusions[j].id)
    && (forall i, k :: 0 <= i < |r.conclusions| && 0 <= k < |r.conclusions[i].observations| ==>
          Includes(r.observations, r.conclusions[i].observations[k]))
  }

  predicate Includes(observations: seq<Observation>, id: string) {
    exists j :: 0 <= j < |observations| && observations[j].id == id
  }

  /** The checks of the result constructor itself. */
  predicate EnvelopeOk(t: Tables, r: TaskResult) {
    && TextFits(r.taskId, 128) && TextFits(r.taskKind, 128) && TextFits(r.target, 1024) && TextFits(r.version, 32)
    && r.version in t.versions && r.direction in t.directions && r.state in t.finalStates && r.started <= r.ended
    && |r.observations| <= 100_000 && |r.conclusions| <= 100_000 && |r.capabilities| <= 4096 && |r.errors| <= 256
    && (forall i :: 0 <= i < |r.observations| ==> r.observations[i].kind in t.schemaKinds(r.version))
    && FrozenObject(r.requested) && AllFit(r.errors, 4096) && Linked(r)
  }

  /** Results that can exist: every part passed its constructor. */
  predicate ResultOk(t: Tables, r: TaskResult) {
    && EnvelopeOk(t, r) && EffectiveOk(r.config) && ProgressOk(r.progress)
    && (forall i :: 0 <= i < |r.observations| ==> ObservationOk(t, r.observations[i]))
    && (forall i :: 0 <= i < |r.conclusions| ==> ConclusionOk(t, r.conclusions[i]))
    && (forall i :: 0 <= i < |r.capabilities| ==> CapabilityOk(t, r.capabilities[i]))
  }

  // --- encoding --------------------------------------------------------------------------

  function Each<T>(f: T -> Py, xs: seq<T>): Py {
    ListOf(seq(|xs|, i requires 0 <= i < |xs| => f(xs[i])))
  }

  /** The same for items whose encoding may raise. */
  function EachOrNone<T>(f: T -> Option<Py>, xs: seq<T>): Option<Py> {
    if exists i :: 0 <= i < |xs| && f(xs[i]).None? then None
    else Some(ListOf(seq(|xs|, i requires 0 <= i < |xs| => f(xs[i]).value)))
  }

  function Texts(texts: seq<string>): Py {
    Each((s: string) => Str(s), texts)
  }

  /** `None` where `astimezone(utc)` raises. */
  function ObservationToWire(t: Tables, o: Observation): Option<Py> {
    var started, ended := t.spell(o.started), t.spell(o.ended);
    if started.None? || ended.None? then None
    else
      Some(Dict(map[
        Id := Str(o.id), Probe := Str(o.probe), DispositionKey := Str(o.disposition), EvidenceKind := Str(o.kind),
        DirectionKey := Str(o.direction), Target := Str(o.target), StartedAt := Str(started.value),
        EndedAt := Str(ended.value), DurationMs := Float(o.duration), AttemptKey := Int(o.attempt),
        Source := Str(o.source), Detail := Thaw(o.detail)]))
  }

  function ConclusionToWire(c: Conclusion): Py {
    Dict(map[
      Id := Str(c.id), Title := Str(c.title), Summary := Str(c.summary), HealthKey := Str(c.health),
      ConfidenceKey := Str(c.confidence), ObservationIds := Texts(c.observations),
      Alternatives := Texts(c.alternatives), Limitations := Texts(c.limitations)])
  }

  function CapabilityToWire(c: Capability): Py {
    Dict(map[NameKey := Str(c.name), StateKey := Str(c.state), Source := Str(c.source), Detail := Str(c.detail)])
  }

  function ProgressToWire(p: Progress): Py {
    Dict(map[Admitted := Int(p.admitted), Completed := Int(p.completed), TotalKey := Int(p.total)])
  }

  function EffectiveToWire(e: Effective): Py {
    Dict(map[
      Profile := Str(e.profile), Targets := Texts(e.targets), Authorized := Bool(e.authorized),
      PolicyDigest := Str(e.digest), Budget := Thaw(e.budget), Warnings := Texts(e.warnings)])
  }

  function EvidenceToWire(t: Tables, r: TaskResult): Option<Py> {
    EachOrNone((o: Observation) => ObservationToWire(t, o), r.observations)
  }

  function ResultDocument(r: TaskResult, started: string, ended: string, observations: Py): Py {
    Dict(map[
      SchemaVersion := Str(r.version), TaskId := Str(r.taskId), TaskKind := Str(r.taskKind), DirectionKey := Str(r.direction),
      Target := Str(r.target), StateKey := Str(r.state), StartedAt := Str(started), EndedAt := Str(ended),
      RequestedConfig := Thaw(r.requested), EffectiveConfigKey := EffectiveToWire(r.config), ProgressKey := ProgressToWire(r.progress),
      Observations := observations,
      Conclusions := Each((c: Conclusion) => ConclusionToWire(c), r.conclusions),
      Capabilities := Each((c: Capability) => CapabilityToWire(c), r.capabilities),
      Errors := Texts(r.errors)])
  }

  /** `result_to_wire`. */
  function ResultToWire(t: Tables, r: TaskResult): Option<Py> {
    var started, ended, observations := t.spell(r.started), t.spell(r.ended), EvidenceToWire(t, r);
    if started.None? || ended.None? || observations.None? then None
    else Some(ResultDocument(r, started.value, ended.value, observations.value))
  }

  // --- decoding ---------------------------------------------------------------------------

  /** `_expect_fields`: no field missing, none unknown. */
  predicate HasFields(v: Py, fields: set<Key>) {
    v.Dict? && v.entries.Keys == fields
  }

  function Time(t: Tables, v: Py): Option<int> {
    if v.Str? && |v.text| <= 64 then t.read(v.text) else None
  }

  /** An array of at most `maximum` items, each decoded; one bad item fails it. */
  function Decode<T>(f: Py -> Option<T>, v: Py, maximum: nat): Option<seq<T>> {
    if !v.ListOf? || |v.items| > maximum || exists i :: 0 <= i < |v.items| && f(v.items[i]).None? then None
    else Some(seq(|v.items|, i requires 0 <= i < |v.items| => f(v.items[i]).value))
  }

  function Text(v: Py): Option<string> {
    if v.Str? then Some(v.text) else None
  }

  /** `_number`: an integer counts, a boolean does not. */
  function Number(v: Py): Option<real> {
    match v
    case Float(value) => Some(value)
    case Int(number) => Some(number as real)
    case _ => None
  }

  /** `_object` followed by freezing. */
  function FreezeObject(v: Py): Option<Py> {
    if v.Dict? then Freeze(v, 0) else None
  }

  function ObservationFromWire(t: Tables, v: Py): Option<Observation> {
    if !HasFields(v, {Id, Probe, DispositionKey, EvidenceKind, DirectionKey, Target, StartedAt, EndedAt, DurationMs,
                      AttemptKey, Source, Detail}) then None
    else
      var m := v.entries;
      var started, ended, detail := Time(t, m[StartedAt]), Time(t, m[EndedAt]), FreezeObject(m[Detail]);
      if m[Id].Str? && m[Probe].Str? && m[DispositionKey].Str? && m[EvidenceKind].Str? && m[DirectionKey].Str? && m[Target].Str?
        && Number(m[DurationMs]).Some? && m[AttemptKey].Int? && m[Source].Str? && started.Some? && ended.Some? && detail.Some?
      then
        var o := Observation(
          m[Id].text, m[Probe].text, m[DispositionKey].text, m[EvidenceKind].text, m[DirectionKey].text, m[Target].text,
          started.value, ended.value, Number(m[DurationMs]).value, m[AttemptKey].number, m[Source].text, detail.value);
        if ObservationOk(t, o) then Some(o) else None
      else None
  }

  function ConclusionFromWire(t: Tables, v: Py): Option<Conclusion> {
    if !HasFields(v, {Id, Title, Summary, HealthKey, ConfidenceKey, ObservationIds, Alternatives, Limitations}) then None
    else
      var m := v.entries;
      var ids := Decode(Text, m[ObservationIds], 100_000);
      var alternatives, limitations := Decode(Text, m[Alternatives], 256), Decode(Text, m[Limitations], 256);
      if m[Id].Str? && m[Title].Str? && m[Summary].Str? && m[HealthKey].Str? && m[ConfidenceKey].Str?
        && ids.Some? && alternatives.Some? && limitations.Some?
      then
        var c := Conclusion(m[Id].text, m[Title].text, m[Summary].text, m[HealthKey].text, m[ConfidenceKey].text,
                            ids.value, alternatives.value, limitations.value);
        if ConclusionOk(t, c) then Some(c) else None
      else None
  }

  function CapabilityFromWire(t: Tables, v: Py): Option<Capability> {
    if !HasFields(v, {NameKey, StateKey, Source, Detail}) then None
    else
      var m := v.entries;
      if m[NameKey].Str? && m[StateKey].Str? && m[Source].Str? && m[Detail].Str? then
        var c := Capability(m[NameKey].text, m[StateKey].text, m[Source].text, m[Detail].text);
        if CapabilityOk(t, c) then Some(c) else None
      else None
  }

  function ProgressFromWire(v: Py): Option<Progress> {
    if !HasFields(v, {Admitted, Completed, TotalKey}) then None
    else
      var m := v.entries;
      if m[Admitted].Int? && m[Completed].Int? && m[TotalKey].Int? then
        var p := Progress(m[Admitted].number, m[Completed].number, m[TotalKey].number);
        if ProgressOk(p) then Some(p) else None
      else None
  }

  function EffectiveFromWire(v: Py): Option<Effective> {
    if !HasFields(v, {Profile, Targets, Authorized, PolicyDigest, Budget, Warnings}) then None
    else
      var m := v.entries;
      var targets, warnings, budget := Decode(Text, m[Targets], 4096), Decode(Text, m[Warnings], 256), FreezeObject(m[Budget]);
      if m[Profile].Str? && m[Authorized].Bool? && m[PolicyDigest].Str? && targets.Some? && warnings.Some? && budget.Some? then
        var e := Effective(m[Profile].text, targets.value, m[Authorized].flag, m[PolicyDigest].text, budget.value, warnings.value);
        if EffectiveOk(e) then Some(e) else None
      else None
  }

  const RESULT_KEYS: set<Key> := {
    SchemaVersion, TaskId, TaskKind, DirectionKey, Target, StateKey, StartedAt, EndedAt, RequestedConfig, EffectiveConfigKey,
    ProgressKey, Observations, Conclusions, Capabilities, Errors}

  /** `result_from_wire`. */
  function ResultFromWire(t: Tables, v: Py): Option<TaskResult> {
    if !HasFields(v, RESULT_KEYS) then None
    else
      var m := v.entries;
      var started, ended, requested := Time(t, m[StartedAt]), Time(t, m[EndedAt]), FreezeObject(m[RequestedConfig]);
      var config, progress := EffectiveFromWire(m[EffectiveConfigKey]), ProgressFromWire(m[ProgressKey]);
      var observations := Decode((x: Py) => ObservationFromWire(t, x), m[Observations], 100_000);
      var conclusions := Decode((x: Py) => ConclusionFromWire(t, x), m[Conclusions], 100_000);
      var capabilities := Decode((x: Py) => CapabilityFromWire(t, x), m[Capabilities], 4096);
      var errors := Decode(Text, m[Errors], 256);
      if m[SchemaVersion].Str? && m[TaskId].Str? && m[TaskKind].Str? && m[DirectionKey].Str? && m[Target].Str? && m[StateKey].Str?
        && started.Some? && ended.Some? && requested.Some? && config.Some? && progress.Some? && observations.Some?
        && conclusions.Some? && capabilities.Some? && errors.Some?
      then
        var r := TaskResult(
          m[SchemaVersion].text, m[TaskId].text, m[TaskKind].text, m[DirectionKey].text, m[Target].text, m[StateKey].text,
          started.value, ended.value, requested.value, config.value, progress.value, observations.value, conclusions.value,
          capabilities.value, errors.value);
        if EnvelopeOk(t, r) then Some(r) else None
      else None
  }

  // --- round trips ----------------------------------------------------------------------------

  lemma DecodeEach<T>(f: Py -> Option<T>, g: T -> Py, xs: seq<T>, maximum: nat)
    requires forall i :: 0 <= i < |xs| ==> f(g(xs[i])) == Some(xs[i])
    ensures Decode(f, Each(g, xs), maximum) == if |xs| <= maximum then Some(xs) else None
  {
    var items := Each(g, xs).items;
    assert forall i :: 0 <= i < |items| ==> f(items[i]) == Some(xs[i]);
    if |xs| <= maximum {
      assert Decode(f, Each(g, xs), maximum).value == xs;
    }
  }

  lemma DecodeTexts(texts: seq<string>, maximum: nat)
    ensures Decode(Text, Texts(texts), maximum) == if |texts| <= maximum then Some(texts) else None
  {
    DecodeEach(Text, (s: string) => Str(s), texts, maximum);
  }

  lemma {:induction false} ObjectRoundTrip(v: Py)
    requires FrozenObject(v)
    ensures FreezeObject(Thaw(v)) == Some(v)
  {
    FreezeUndoesThaw(v, 0);
  }

  predicate ObservationInCalendar(o: Observation) {
    InCalendar(o.started) && InCalendar(o.ended)
  }

  lemma ObservationRoundTrip(t: Tables, o: Observation)
    requires Faithful(t) && ObservationOk(t, o) && ObservationInCalendar(o)
    ensures ObservationToWire(t, o).Some? && ObservationFromWire(t, ObservationToWire(t, o).value) == Some(o)
  {
    hide Freeze, Thaw, Frozen, TextFits, FreezeObject, ObservationToWire;
    ObjectRoundTrip(o.detail);
    ObservationFields(t, o);
  }

  lemma ObservationFields(t: Tables, o: Observation)
    requires t.spell(o.started).Some? && t.spell(o.ended).Some?
    ensures ObservationToWire(t, o).Some? &&
            var w := ObservationToWire(t, o).value;
            HasFields(w, {Id, Probe, DispositionKey, EvidenceKind, DirectionKey, Target, StartedAt, EndedAt, DurationMs,
                          AttemptKey, Source, Detail}) &&
            var m := w.entries;
            && m[Id] == Str(o.id) && m[Probe] == Str(o.probe) && m[DispositionKey] == Str(o.disposition)
            && m[EvidenceKind] == Str(o.kind) && m[DirectionKey] == Str(o.direction) && m[Target] == Str(o.target)
            && m[StartedAt] == Str(t.spell(o.started).value) && m[EndedAt] == Str(t.spell(o.ended).value)
            && m[DurationMs] == Float(o.duration) && m[AttemptKey] == Int(o.attempt) && m[Source] == Str(o.source)
            && m[Detail] == Thaw(o.detail)
  {
    hide Thaw;
  }

  lemma ConclusionRoundTrip(t: Tables, c: Conclusion)
    requires ConclusionOk(t, c)
    ensures ConclusionFromWire(t, ConclusionToWire(c)) == Some(c)
  {
    DecodeTexts(c.observations, 100_000);
    DecodeTexts(c.alternatives, 256);
    DecodeTexts(c.limitations, 256);
    hide Decode, Texts, TextFits, AllFit;
  }

  lemma CapabilityRoundTrip(t: Tables, c: Capability)
    requires CapabilityOk(t, c)
    ensures CapabilityFromWire(t, CapabilityToWire(c)) == Some(c)
  {
    hide TextFits;
  }

  lemma ProgressRoundTrip(p: Progress)
    requires ProgressOk(p)
    ensures ProgressFromWire(ProgressToWire(p)) == Some(p)
  {
  }

  /** The decoder bounds the warnings, the model does not. */
  lemma EffectiveRoundTrip(e: Effective)
    requires EffectiveOk(e)
    ensures EffectiveFromWire(EffectiveToWire(e)) == if |e.warnings| <= 256 then Some(e) else None
  {
    DecodeTexts(e.targets, 4096);
    DecodeTexts(e.warnings, 256);
    ObjectRoundTrip(e.budget);
    hide Decode, Texts, TextFits, AllFit, Freeze, Thaw, Frozen, FreezeObject;
  }

  /** The instants that encoding has to write. */
  predicate InstantsInCalendar(r: TaskResult) {
    && InCalendar(r.started) && InCalendar(r.ended)
    && forall i :: 0 <= i < |r.observations| ==> ObservationInCalendar(r.observations[i])
  }

  /** A result encodes exactly when each of its instants is in the UTC calendar. */
  lemma {:induction false} EncodesExactly(t: Tables, r: TaskResult)
    requires Faithful(t)
    ensures ResultToWire(t, r).Some? <==> InstantsInCalendar(r)
  {
    forall i | 0 <= i < |r.observations|
      ensures ObservationToWire(t, r.observations[i]).None? <==> !ObservationInCalendar(r.observations[i])
    {
      ObservationEncodes(t, r.observations[i]);
    }
    hide ObservationToWire, ObservationInCalendar, InCalendar, EffectiveToWire, ProgressToWire, Texts, Each, Thaw;
  }

  lemma ObservationEncodes(t: Tables, o: Observation)
    requires Faithful(t)
    ensures ObservationToWire(t, o).Some? <==> ObservationInCalendar(o)
  {
    hide Thaw, InCalendar;
  }

  lemma DecodeEachOrNone<T>(f: Py -> Option<T>, g: T -> Option<Py>, xs: seq<T>, maximum: nat)
    requires forall i :: 0 <= i < |xs| ==> g(xs[i]).Some? && f(g(xs[i]).value) == Some(xs[i])
    ensures EachOrNone(g, xs).Some?
    ensures Decode(f, EachOrNone(g, xs).value, maximum) == if |xs| <= maximum then Some(xs) else None
  {
    var items := EachOrNone(g, xs).value.items;
    assert forall i :: 0 <= i < |items| ==> f(items[i]) == Some(xs[i]);
    if |xs| <= maximum {
      assert Decode(f, EachOrNone(g, xs).value, maximum).value == xs;
    }
  }

  lemma EvidenceRoundTrip(t: Tables, r: TaskResult)
    requires Faithful(t) && ResultOk(t, r) && InstantsInCalendar(r)
    ensures EvidenceToWire(t, r).Some?
    ensures Decode((x: Py) => ObservationFromWire(t, x), EvidenceToWire(t, r).value, 100_000) == Some(r.observations)
  {
    hide ObservationFromWire, ObservationToWire, Linked, TextFits, AllFit, EffectiveOk, FrozenObject, ObservationOk, ConclusionOk,
         ObservationInCalendar, Decode, EachOrNone;
    forall i | 0 <= i < |r.observations|
      ensures ObservationToWire(t, r.observations[i]).Some?
      ensures ObservationFromWire(t, ObservationToWire(t, r.observations[i]).value) == Some(r.observations[i])
    {
      ObservationRoundTrip(t, r.observations[i]);
    }
    DecodeEachOrNone((x: Py) => ObservationFromWire(t, x), (o: Observation) => ObservationToWire(t, o), r.observations, 100_000);
  }

  lemma ClaimsRoundTrip(t: Tables, r: TaskResult)
    requires ResultOk(t, r)
    ensures Decode((x: Py) => ConclusionFromWire(t, x), Each((c: Conclusion) => ConclusionToWire(c), r.conclusions), 100_000)
         == Some(r.conclusions)
    ensures Decode((x: Py) => CapabilityFromWire(t, x), Each((c: Capability) => CapabilityToWire(c), r.capabilities), 4096)
         == Some(r.capabilities)
  {
    hide ConclusionFromWire, ConclusionToWire, CapabilityFromWire, CapabilityToWire, Linked, TextFits, AllFit, EffectiveOk,
         FrozenObject, ConclusionOk, CapabilityOk;
    forall i | 0 <= i < |r.conclusions| ensures ConclusionFromWire(t, ConclusionToWire(r.conclusions[i])) == Some(r.conclusions[i]) {
      ConclusionRoundTrip(t, r.conclusions[i]);
    }
    forall i | 0 <= i < |r.capabilities|
      ensures CapabilityFromWire(t, CapabilityToWire(r.capabilities[i])) == Some(r.capabilities[i])
    {
      CapabilityRoundTrip(t, r.capabilities[i]);
    }
    DecodeEach((x: Py) => ConclusionFromWire(t, x), (c: Conclusion) => ConclusionToWire(c), r.conclusions, 100_000);
    DecodeEach((x: Py) => CapabilityFromWire(t, x), (c: Capability) => CapabilityToWire(c), r.capabilities, 4096);
  }

  /** A document with the result's members, its two instants and its evidence in any
      spelling that reads as them. */
  predicate Spells(t: Tables, v: Py, r: TaskResult) {
    HasFields(v, RESULT_KEYS) &&
    var m := v.entries;
    && m[SchemaVersion] == Str(r.version) && m[TaskId] == Str(r.taskId) && m[TaskKind] == Str(r.taskKind)
    && m[DirectionKey] == Str(r.direction) && m[Target] == Str(r.target) && m[StateKey] == Str(r.state)
    && Time(t, m[StartedAt]) == Some(r.started) && Time(t, m[EndedAt]) == Some(r.ended)
    && m[RequestedConfig] == Thaw(r.requested) && m[EffectiveConfigKey] == EffectiveToWire(r.config)
    && m[ProgressKey] == ProgressToWire(r.progress) && m[Errors] == Texts(r.errors)
    && Decode((x: Py) => ObservationFromWire(t, x), m[Observations], 100_000) == Some(r.observations)
    && m[Conclusions] == Each((c: Conclusion) => ConclusionToWire(c), r.conclusions)
    && m[Capabilities] == Each((c: Capability) => CapabilityToWire(c), r.capabilities)
  }

  /** Such a document decodes to a result that can exist, unless the warnings are too many. */
  lemma SpelledDecodes(t: Tables, v: Py, r: TaskResult)
    requires ResultOk(t, r) && Spells(t, v, r)
    ensures ResultFromWire(t, v) == if |r.config.warnings| <= 256 then Some(r) else None
  {
    hide EffectiveFromWire, EffectiveToWire, ProgressFromWire, ProgressToWire, FreezeObject, Thaw, TextFits, AllFit, ObservationOk,
         ConclusionOk, CapabilityOk, EffectiveOk, Texts, Decode, Each, Linked, Frozen, Time;
    EffectiveRoundTrip(r.config);
    ProgressRoundTrip(r.progress);
    ObjectRoundTrip(r.requested);
    DecodeTexts(r.errors, 256);
    ClaimsRoundTrip(t, r);
    hide EnvelopeOk;
  }

  lemma EncodedSpells(t: Tables, r: TaskResult)
    requires Faithful(t) && ResultOk(t, r) && InstantsInCalendar(r)
    ensures ResultToWire(t, r).Some? && Spells(t, ResultToWire(t, r).value, r)
  {
    hide ResultOk, ResultDocument, EffectiveToWire, ProgressToWire, Thaw, Texts, Decode, Each, EvidenceToWire;
    EvidenceRoundTrip(t, r);
    var started, ended, observations := t.spell(r.started).value, t.spell(r.ended).value, EvidenceToWire(t, r).value;
    ResultKeys(r, started, ended, observations);
    ResultWords(r, started, ended, observations);
    ResultParts(r, started, ended, observations);
  }

  /** The round trip gives the result back. */
  predicate RoundTrips(t: Tables, r: TaskResult) {
    ResultToWire(t, r).Some? && ResultFromWire(t, ResultToWire(t, r).value) == Some(r)
  }

  /** A result that can exist survives the wire exactly when its instants are in the UTC
      calendar and its configuration has at most 256 warnings. With an instant outside it
      does not encode; with more warnings it encodes but is refused on the way back. */
  lemma {:induction false} ResultRoundTrip(t: Tables, r: TaskResult)
    requires Faithful(t) && ResultOk(t, r)
    ensures RoundTrips(t, r) <==> InstantsInCalendar(r) && |r.config.warnings| <= 256
    ensures ResultToWire(t, r).Some? <==> InstantsInCalendar(r)
    ensures InstantsInCalendar(r) && |r.config.warnings| > 256 ==> ResultFromWire(t, ResultToWire(t, r).value).None?
  {
    hide Faithful, ResultOk, ResultToWire, ResultFromWire, Spells, InstantsInCalendar;
    EncodesExactly(t, r);
    if InstantsInCalendar(r) {
      EncodedSpells(t, r);
      SpelledDecodes(t, ResultToWire(t, r).value, r);
    }
  }

  lemma ResultKeys(r: TaskResult, started: string, ended: string, observations: Py)
    ensures HasFields(ResultDocument(r, started, ended, observations), RESULT_KEYS)
  {
    hide EffectiveToWire, ProgressToWire, Thaw, Texts, Each;
  }

  lemma ResultWords(r: TaskResult, started: string, ended: string, observations: Py)
    requires HasFields(ResultDocument(r, started, ended, observations), RESULT_KEYS)
    ensures var m := ResultDocument(r, started, ended, observations).entries;
            && m[SchemaVersion] == Str(r.version) && m[TaskId] == Str(r.taskId) && m[TaskKind] == Str(r.taskKind)
            && m[DirectionKey] == Str(r.direction) && m[Target] == Str(r.target) && m[StateKey] == Str(r.state)
            && m[StartedAt] == Str(started) && m[EndedAt] == Str(ended)
  {
    hide EffectiveToWire, ProgressToWire, Thaw, Texts, Each;
  }

  lemma ResultParts(r: TaskResult, started: string, ended: string, observations: Py)
    requires HasFields(ResultDocument(r, started, ended, observations), RESULT_KEYS)
    ensures var m := ResultDocument(r, started, ended, observations).entries;
            && m[RequestedConfig] == Thaw(r.requested) && m[EffectiveConfigKey] == EffectiveToWire(r.config)
            && m[ProgressKey] == ProgressToWire(r.progress) && m[Errors] == Texts(r.errors)
            && m[Observations] == observations
            && m[Conclusions] == Each((c: Conclusion) => ConclusionToWire(c), r.conclusions)
            && m[Capabilities] == Each((c: Capability) => CapabilityToWire(c), r.capabilities)
  {
    hide EffectiveToWire, ProgressToWire, Thaw, Texts, Each;
  }

  lemma DecodedParts(t: Tables, v: Py)
    requires ResultFromWire(t, v).Some?
    ensures var r := ResultFromWire(t, v).value; ResultOk(t, r) && |r.config.warnings| <= 256
  {
    hide FreezeObject, TextFits, AllFit, ObservationOk, ConclusionOk, CapabilityOk, EffectiveOk, Linked, Frozen,
         ObservationFromWire, ConclusionFromWire, CapabilityFromWire, EffectiveFromWire, ProgressFromWire, EnvelopeOk;
    var m, r := v.entries, ResultFromWire(t, v).value;
    forall i | 0 <= i < |r.observations| ensures ObservationOk(t, r.observations[i]) {
      ObservationDecoded(t, m[Observations].items[i]);
    }
    forall i | 0 <= i < |r.conclusions| ensures ConclusionOk(t, r.conclusions[i]) {
      ConclusionDecoded(t, m[Conclusions].items[i]);
    }
    forall i | 0 <= i < |r.capabilities| ensures CapabilityOk(t, r.capabilities[i]) {
      CapabilityDecoded(t, m[Capabilities].items[i]);
    }
    ConfigDecoded(m[EffectiveConfigKey], m[ProgressKey]);
  }

  lemma ObservationDecoded(t: Tables, v: Py)
    ensures ObservationFromWire(t, v).Some? ==> ObservationOk(t, ObservationFromWire(t, v).value)
  {
    hide ObservationOk, FreezeObject;
  }

  lemma ConclusionDecoded(t: Tables, v: Py)
    ensures ConclusionFromWire(t, v).Some? ==> ConclusionOk(t, ConclusionFromWire(t, v).value)
  {
    hide ConclusionOk, Decode;
  }

  lemma CapabilityDecoded(t: Tables, v: Py)
    ensures CapabilityFromWire(t, v).Some? ==> CapabilityOk(t, CapabilityFromWire(t, v).value)
  {
    hide CapabilityOk;
  }

  lemma ConfigDecoded(v: Py, w: Py)
    ensures EffectiveFromWire(v).Some? ==> EffectiveOk(EffectiveFromWire(v).value) && |EffectiveFromWire(v).value.warnings| <= 256
    ensures ProgressFromWire(w).Some? ==> ProgressOk(ProgressFromWire(w).value)
  {
    hide EffectiveOk, FreezeObject;
  }

  /** What the decoder accepts is a result that can exist; it encodes again exactly when its
      instants are in the UTC calendar, and decoding that gives the same one. */
  lemma {:induction false} DecodedIsValid(t: Tables, v: Py)
    requires Faithful(t) && ResultFromWire(t, v).Some?
    ensures var r := ResultFromWire(t, v).value;
            && ResultOk(t, r) && |r.config.warnings| <= 256
            && (ResultToWire(t, r).Some? <==> InstantsInCalendar(r)) && (RoundTrips(t, r) <==> InstantsInCalendar(r))
  {
    var r := ResultFromWire(t, v).value;
    DecodedParts(t, v);
    hide ResultFromWire, ResultToWire, ResultOk, RoundTrips, InstantsInCalendar;
    ResultRoundTrip(t, r);
  }

  // --- results that do not survive the wire ------------------------------------------------

  function DigitsValue(s: string): int {
    if s == "" then 0 else DigitsValue(s[..|s| - 1]) * 10 + (s[|s| - 1] as int - '0' as int)
  }

  lemma {:induction false} PaddedDigitsRead(n: nat, width: nat)
    requires n < Ten(width)
    ensures |Pad(n, width)| == width && DigitsValue(Pad(n, width)) == n
  {
    if width > 0 {
      PaddedDigitsRead(n / 10, width - 1);
      var digits := Pad(n, width);
      assert digits[..width - 1] == Pad(n / 10, width - 1);
    }
  }

  /** Local time by eighteen digits, in UTC or followed by a sign and hours of offset. */
  function ReadPlain(s: string): Option<int> {
    if |s| == 18 then if InCalendar(DigitsValue(s)) then Some(DigitsValue(s)) else None
    else if |s| == 21 && (s[18] == '+' || s[18] == '-') then
      var local, hours := DigitsValue(s[..18]), DigitsValue(s[19..]);
      if InCalendar(local) && 0 <= hours < 24 then
        Some(if s[18] == '+' then local - hours * 3_600_000_000 else local + hours * 3_600_000_000)
      else None
    else None
  }

  /** That notation, and one word for each vocabulary. */
  function PlainTables(): Tables {
    Tables({"x"}, {"x"}, {"x"}, {"x"}, {"x"}, {"x"}, {"x"}, {"x"}, {"x"}, (kind: string) => {"x"}, (version: string) => {"x"},
           (instant: int) => if InCalendar(instant) then Some(Pad(instant, 18)) else None, ReadPlain)
  }

  lemma PlainTablesFaithful()
    ensures Faithful(PlainTables())
  {
    forall instant | InCalendar(instant) ensures |Pad(instant, 18)| == 18 && ReadPlain(Pad(instant, 18)) == Some(instant) {
      assert Ten(9) == 1_000_000_000;
      assert Ten(18) == Ten(9) * 1_000_000_000;
      PaddedDigitsRead(instant, 18);
    }
  }

  /** A finished task without evidence, whose configuration has the given warnings. */
  function Bare(warnings: nat): TaskResult {
    TaskResult("x", "x", "x", "x", "x", "x", 0, 0, Proxy(map[]),
               Effective("x", [], true, "x", Proxy(map[]), seq(warnings, i => "x")), Progress(0, 0, 0), [], [], [], [])
  }

  lemma BareOk(warnings: nat)
    ensures ResultOk(PlainTables(), Bare(warnings))
  {
    assert TextFits("x", 32) && TextFits("x", 128) && TextFits("x", 256) && TextFits("x", 1024) && TextFits("x", 4096) by {
      assert !Blank("x"[0]);
    }
    assert AllFit(Bare(warnings).config.warnings, 4096);
  }

  /** The tables can be faithful, and one warning more than 256 makes the difference. */
  lemma ManyWarningsLost()
    ensures Faithful(PlainTables()) && ResultOk(PlainTables(), Bare(256)) && ResultOk(PlainTables(), Bare(257))
    ensures RoundTrips(PlainTables(), Bare(256))
    ensures ResultToWire(PlainTables(), Bare(257)).Some?
            && ResultFromWire(PlainTables(), ResultToWire(PlainTables(), Bare(257)).value).None?
  {
    PlainTablesFaithful();
    BareOk(256);
    BareOk(257);
    hide PlainTables, Faithful, ResultOk, ResultFromWire, ResultToWire, RoundTrips;
    ResultRoundTrip(PlainTables(), Bare(256));
    ResultRoundTrip(PlainTables(), Bare(257));
  }

  /** The first moment of the calendar, five hours east of Greenwich. */
  function EarlyText(): string {
    Pad(0, 18) + "+05"
  }

  lemma EarlyReads()
    ensures |EarlyText()| == 21 && ReadPlain(EarlyText()) == Some(-18_000_000_000)
  {
    assert Ten(9) == 1_000_000_000;
    assert Ten(18) == Ten(9) * 1_000_000_000;
    PaddedDigitsRead(0, 18);
    var s := EarlyText();
    assert s[..18] == Pad(0, 18) && s[18] == '+' && s[19..] == "05";
    assert DigitsValue("0") == 0 && "05"[..1] == "0";
  }

  /** Another text for the start of the task, and the result that it denotes. */
  lemma RespelledStart(t: Tables, v: Py, r: TaskResult, text: string, started: int)
    requires Spells(t, v, r) && |text| <= 64 && t.read(text) == Some(started)
    ensures Spells(t, Dict(v.entries[StartedAt := Str(text)]), r.(started := started))
  {
    hide Decode, Each, EffectiveToWire, ProgressToWire, Texts, Thaw;
  }

  lemma EarlyOk()
    ensures ResultOk(PlainTables(), Bare(0)) && ResultOk(PlainTables(), Bare(0).(started := -18_000_000_000))
  {
    BareOk(0);
    hide TextFits, AllFit, FrozenObject, Linked;
  }

  /** A document that says so for the start of its task decodes to a result that can exist,
      and that result does not encode. */
  lemma EarlyResultLost() returns (v: Py)
    ensures ResultFromWire(PlainTables(), v).Some?
    ensures ResultOk(PlainTables(), ResultFromWire(PlainTables(), v).value)
    ensures ResultToWire(PlainTables(), ResultFromWire(PlainTables(), v).value).None?
  {
    var t, early := PlainTables(), Bare(0).(started := -18_000_000_000);
    PlainTablesFaithful();
    EarlyOk();
    EarlyReads();
    hide ResultOk, ResultFromWire, ResultToWire, Spells, EarlyText, ReadPlain, Faithful;
    EncodedSpells(t, Bare(0));
    v := Dict(ResultToWire(t, Bare(0)).value.entries[StartedAt := Str(EarlyText())]);
    RespelledStart(t, ResultToWire(t, Bare(0)).value, Bare(0), EarlyText(), early.started);
    SpelledDecodes(t, v, early);
    EncodesExactly(t, early);
  }
}
