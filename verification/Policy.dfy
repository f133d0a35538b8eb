/** Target normalisation, authorisation against a grant, and the canonical form of a
    resolver's answer. Every refusal here is a policy error. */
module Policy {
  import opened Outcomes
  import opened Collections
  import opened JsonText
  import opened Networks
  import opened Plans

  // --- targets -----------------------------------------------------------------------

  /** Parsed targets by canonical text, later ones replacing earlier ones. */
  function ByName(n: Notation, values: seq<string>): Option<map<string, Target>> {
    if values == [] then Some(map[])
    else
      var front, parsed := ByName(n, values[..|values| - 1]), n.parse(values[|values| - 1]);
      if front.None? || parsed.None? then None
      else Some(front.value[n.spell(parsed.value) := parsed.value])
  }

  function Names(n: Notation, values: seq<string>): seq<string> {
    if values == [] then []
    else
      var parsed := n.parse(values[|values| - 1]);
      Names(n, values[..|values| - 1]) + (if parsed.Some? then [n.spell(parsed.value)] else [])
  }

  /** `sorted(d)` of a dictionary whose keys arrived as `keys`. */
  function InOrder<T>(d: map<string, T>, keys: seq<string>): seq<T>
    requires forall k :: k in keys ==> k in d
  {
    seq(|keys|, i requires 0 <= i < |keys| => d[keys[i]])
  }

  lemma {:induction false} NamesAreKeys(n: Notation, values: seq<string>)
    requires ByName(n, values).Some?
    ensures ByName(n, values).value.Keys == Elements(Names(n, values))
    ensures Elements(Canonical(TextLess, Names(n, values))) == Elements(Names(n, values))
  {
    TextOrder();
    CanonicalAscends(TextLess, Names(n, values));
    if values != [] {
      NamesAreKeys(n, values[..|values| - 1]);
    }
  }

  /** `normalize_targets`. */
  function NormalizeTargets(n: Notation, values: seq<string>): Result<seq<Target>, Failure> {
    var targets := ByName(n, values);
    if targets.None? || targets.value == map[] then Err(PolicyFailure)
    else
      NamesAreKeys(n, values);
      var keys := Canonical(TextLess, Names(n, values));
      assert forall k :: k in keys ==> k in Elements(keys);
      Ok(InOrder(targets.value, keys))
  }

  method Normalize(n: Notation, values: seq<string>) returns (r: Result<seq<Target>, Failure>)
    ensures r == NormalizeTargets(n, values)
  {
    var targets: map<string, Target>, keys: seq<string>, i := map[], [], 0;
    while i < |values|
      invariant 0 <= i <= |values|
      invariant ByName(n, values[..i]) == Some(targets) && keys == Names(n, values[..i])
    {
      assert values[..i + 1][..i] == values[..i];
      var parsed := n.parse(values[i]);
      if parsed.None? {
        Unparsed(n, values, i);
        return Err(PolicyFailure);
      }
      targets := targets[n.spell(parsed.value) := parsed.value];
      keys := keys + [n.spell(parsed.value)];
      i := i + 1;
    }
    assert values[..i] == values;
    if targets == map[] { return Err(PolicyFailure); }
    NamesAreKeys(n, values);
    keys := Canonical(TextLess, keys);
    assert forall k :: k in keys ==> k in Elements(keys);
    return Ok(InOrder(targets, keys));
  }

  lemma {:induction false} Unparsed(n: Notation, values: seq<string>, i: nat)
    requires i < |values| && n.parse(values[i]).None?
    ensures ByName(n, values).None?
  {
    if i < |values| - 1 {
      Unparsed(n, values[..|values| - 1], i);
    }
  }

  lemma {:induction false} ByNameFaithful(n: Notation, values: seq<string>, key: string)
    requires Faithful(n) && ByName(n, values).Some? && key in ByName(n, values).value
    ensures var t := ByName(n, values).value[key];
            n.spell(t) == key && n.parse(key) == Some(t) && DestinationAllowed(t)
  {
    var front, last := values[..|values| - 1], values[|values| - 1];
    if key != n.spell(n.parse(last).value) {
      ByNameFaithful(n, front, key);
    }
  }

  /** Normalised targets are allowed destinations in strictly ascending order of their
      canonical texts, which parse back to them. */
  lemma NormalizedTargets(n: Notation, values: seq<string>)
    requires Faithful(n) && NormalizeTargets(n, values).Ok?
    ensures var ts := NormalizeTargets(n, values).value;
            && ts != [] && Distinct(ts)
            && Ascending(TextLess, Spelled(n, ts))
            && (forall i :: 0 <= i < |ts| ==> DestinationAllowed(ts[i]) && n.parse(n.spell(ts[i])) == Some(ts[i]))
  {
    hide StrictOrder, TextLess, Canonical, Names, ByName, Faithful, DestinationAllowed;
    var ts := NormalizeTargets(n, values).value;
    var d, keys := ByName(n, values).value, Canonical(TextLess, Names(n, values));
    TextOrder();
    NamesAreKeys(n, values);
    CanonicalAscends(TextLess, Names(n, values));
    forall i | 0 <= i < |ts| ensures n.spell(ts[i]) == keys[i] && n.parse(keys[i]) == Some(ts[i]) && DestinationAllowed(ts[i]) {
      assert keys[i] in Elements(keys);
      ByNameFaithful(n, values, keys[i]);
    }
    assert Spelled(n, ts) == keys;
    var some :| some in d;
    assert some in Elements(keys);
  }

  function Spelled(n: Notation, ts: seq<Target>): seq<string> {
    seq(|ts|, i requires 0 <= i < |ts| => n.spell(ts[i]))
  }

  /** Normalising the canonical texts of targets in order gives the targets back. */
  lemma NormalizeSpelled(n: Notation, ts: seq<Target>)
    requires ts != [] && Ascending(TextLess, Spelled(n, ts))
    requires forall i :: 0 <= i < |ts| ==> n.parse(n.spell(ts[i])) == Some(ts[i])
    ensures NormalizeTargets(n, Spelled(n, ts)) == Ok(ts)
  {
    hide StrictOrder, TextLess, Canonical, Names, ByName;
    var names := Spelled(n, ts);
    SpelledByName(n, ts);
    TextOrder();
    NamesAreKeys(n, names);
    CanonicalAscends(TextLess, names);
    AscendingUnique(TextLess, names, Canonical(TextLess, names));
    assert names[0] in ByName(n, names).value;
    assert InOrder(ByName(n, names).value, names) == ts;
  }

  lemma {:induction false} SpelledByName(n: Notation, ts: seq<Target>)
    requires Ascending(TextLess, Spelled(n, ts))
    requires forall i :: 0 <= i < |ts| ==> n.parse(n.spell(ts[i])) == Some(ts[i])
    ensures var d := ByName(n, Spelled(n, ts));
            d.Some? && forall i :: 0 <= i < |ts| ==> n.spell(ts[i]) in d.value && d.value[n.spell(ts[i])] == ts[i]
    ensures Names(n, Spelled(n, ts)) == Spelled(n, ts)
  {
    hide TextLess;
    if ts != [] {
      var front, last := ts[..|ts| - 1], ts[|ts| - 1];
      var names := Spelled(n, ts);
      assert names[..|ts| - 1] == Spelled(n, front);
      SpelledByName(n, front);
      forall i | 0 <= i < |ts| - 1 ensures n.spell(ts[i]) != n.spell(last) {
        assert TextLess(names[i], names[|ts| - 1]);
        TextOrderAt(names[i], names[i], names[i]);
      }
      assert ByName(n, names) == Some(ByName(n, Spelled(n, front)).value[n.spell(last) := last]);
      assert Names(n, names) == Names(n, Spelled(n, front)) + [n.spell(last)];
      assert names == Spelled(n, front) + [n.spell(last)];
    }
  }

  /** A single text: what `normalize_targets((value,))[0]` is. */
  lemma NormalizeOne(n: Notation, value: string)
    ensures NormalizeTargets(n, [value]) == if n.parse(value).Some? then Ok([n.parse(value).value]) else Err(PolicyFailure)
  {
    hide TextLess;
    assert [value][..0] == [];
    var before, parsed := ByName(n, []), n.parse(value);
    assert ByName(n, [value]) == if parsed.None? then None else Some(before.value[n.spell(parsed.value) := parsed.value]);
    if parsed.Some? {
      var name := n.spell(parsed.value);
      assert Names(n, [value]) == [name];
      OneKey(name);
      assert name in ByName(n, [value]).value;
      assert InOrder(ByName(n, [value]).value, [name]) == [parsed.value];
    }
  }

  lemma OneKey(name: string)
    ensures Canonical(TextLess, [name]) == [name]
  {
    hide TextLess;
    assert [name][..0] == [];
  }

  // --- authorisation -----------------------------------------------------------------

  /** `assert_current`. */
  predicate Current(g: Grant, now: int) {
    g.expiresAt.None? || now < g.expiresAt.value
  }

  /** What the constructor of a grant checks. */
  predicate GrantValid(g: Grant) {
    forall network :: network in g.networks ==> NetworkAllowed(network)
  }

  predicate PermitsAddress(g: Grant, a: Address) {
    exists network :: network in g.networks && Contains(network, a)
  }

  predicate PermitsStep(g: Grant, port: nat, transport: Transport) {
    port in g.ports && transport in g.transports
  }

  predicate Ported(kind: ProbeKind) {
    kind in {TcpConnect, UdpExchange, TlsHandshake, HttpExchange, NativePortScan}
  }

  predicate PermitsProbe(g: Grant, kind: ProbeKind, port: Option<nat>, transport: Option<Transport>) {
    && kind in g.kinds
    && if Ported(kind) then port.Some? && transport.Some? && PermitsStep(g, port.value, transport.value)
       else port.None? && transport.None?
  }

  predicate InScope(g: Grant, t: Target) {
    match t
    case AddressTarget(a, _) => PermitsAddress(g, a)
    case NetworkTarget(n) => exists network :: network in g.networks && SubnetOf(n, network)
    case HostTarget(name) => name in g.hostnames
  }

  /** `authorize_targets` on one target. */
  predicate Authorized(g: Grant, t: Target, now: int) {
    Current(g, now) && (LoopbackTarget(t) || (g.attested && InScope(g, t)))
  }

  predicate AllAuthorized(g: Grant, ts: seq<Target>, now: int) {
    Current(g, now) && forall i :: 0 <= i < |ts| ==> Authorized(g, ts[i], now)
  }

  /** Where an active probe may send: loopback, or a grant network. */
  predicate Reachable(g: Grant, a: Address) {
    Loopback(a) || PermitsAddress(g, a)
  }

  // --- resolution --------------------------------------------------------------------

  /** One element of a resolver's answer: bare text, or the socket address of a
      `getaddrinfo` tuple, whose scope number is appended when the text has none. */
  datatype Answer = Literal(text: string) | Socket(host: string, scope: nat) | Unsupported

  datatype Endpoint = Endpoint(address: Address, scope: Option<string>)

  function AsTarget(e: Endpoint): Target {
    AddressTarget(e.address, e.scope)
  }

  function Candidate(a: Answer): Option<string> {
    match a
    case Literal(text) => Some(text)
    case Socket(host, scope) => Some(if '%' !in host && scope > 0 then host + "%" + Decimal(scope) else host)
    case Unsupported => None
  }

  function ToEndpoint(n: Notation, a: Answer): Option<Endpoint> {
    var text := Candidate(a);
    if text.None? then None
    else
      match n.parse(text.value)
      case Some(AddressTarget(address, scope)) => Some(Endpoint(address, scope))
      case _ => None
  }

  /** A socket address reads as its host, with its scope number spelled after it when there is
      one and the host names none itself. */
  lemma SocketRead(n: Notation, host: string, scope: nat)
    ensures ToEndpoint(n, Socket(host, scope))
         == ToEndpoint(n, Literal(if scope == 0 || '%' in host then host else host + "%" + Decimal(scope)))
    ensures ToEndpoint(n, Unsupported) == None
    ensures var t := n.parse(host);
            ToEndpoint(n, Literal(host))
            == if t.Some? && t.value.AddressTarget? then Some(Endpoint(t.value.address, t.value.scope)) else None
  {
  }

  /** The endpoints of an answer; `None` when one element is not a private address. */
  function Endpoints(n: Notation, answers: seq<Answer>): Option<seq<Endpoint>> {
    if answers == [] then Some([])
    else
      var front, last := Endpoints(n, answers[..|answers| - 1]), ToEndpoint(n, answers[|answers| - 1]);
      if front.None? || last.None? then None else Some(front.value + [last.value])
  }

  function Rank(v: Version): nat {
    if v.V4? then 4 else 6
  }

  predicate ScopeLess(a: Option<string>, b: Option<string>) {
    b.Some? && (a.None? || TextLess(a.value, b.value))
  }

  /** The sort key: version, integer value, scope. */
  predicate EndpointLess(a: Endpoint, b: Endpoint) {
    || Rank(a.address.version) < Rank(b.address.version)
    || (a.address.version == b.address.version
        && (a.address.value < b.address.value
            || (a.address.value == b.address.value && ScopeLess(a.scope, b.scope))))
  }

  lemma EndpointOrderAt(a: Endpoint, b: Endpoint, c: Endpoint)
    ensures !EndpointLess(a, a)
    ensures EndpointLess(a, b) && EndpointLess(b, c) ==> EndpointLess(a, c)
    ensures a != b ==> EndpointLess(a, b) || EndpointLess(b, a)
  {
    hide TextLess;
    var x, y, z := a.scope, b.scope, c.scope;
    TextOrderAt(
      if x.Some? then x.value else "", if y.Some? then y.value else "", if z.Some? then z.value else "");
  }

  lemma EndpointOrder()
    ensures StrictOrder(EndpointLess)
  {
    forall a, b, c
      ensures !EndpointLess(a, a)
      ensures EndpointLess(a, b) && EndpointLess(b, c) ==> EndpointLess(a, c)
      ensures a != b ==> EndpointLess(a, b) || EndpointLess(b, a)
    {
      EndpointOrderAt(a, b, c);
    }
  }

  function Texts(n: Notation, endpoints: seq<Endpoint>): seq<string> {
    seq(|endpoints|, i requires 0 <= i < |endpoints| => n.spell(AsTarget(endpoints[i])))
  }

  /** The canonical endpoints of an answer: `_addresses_from_resolution` before spelling. */
  function Resolved(n: Notation, answers: seq<Answer>): Result<seq<Endpoint>, Failure> {
    var endpoints := Endpoints(n, answers);
    if endpoints.None? || endpoints.value == [] then Err(PolicyFailure)
    else Ok(Canonical(EndpointLess, endpoints.value))
  }

  method AddressesFromResolution(n: Notation, answers: seq<Answer>) returns (r: Result<seq<Endpoint>, Failure>)
    ensures r == Resolved(n, answers)
  {
    var endpoints: seq<Endpoint>, i := [], 0;
    while i < |answers|
      invariant 0 <= i <= |answers| && Endpoints(n, answers[..i]) == Some(endpoints)
    {
      assert answers[..i + 1][..i] == answers[..i];
      var next := ToEndpoint(n, answers[i]);
      if next.None? {
        Unresolvable(n, answers, i);
        return Err(PolicyFailure);
      }
      endpoints := endpoints + [next.value];
      i := i + 1;
    }
    assert answers[..i] == answers;
    if endpoints == [] { return Err(PolicyFailure); }
    return Ok(Canonical(EndpointLess, endpoints));
  }

  lemma {:induction false} Unresolvable(n: Notation, answers: seq<Answer>, i: nat)
    requires i < |answers| && ToEndpoint(n, answers[i]).None?
    ensures Endpoints(n, answers).None?
  {
    if i < |answers| - 1 {
      Unresolvable(n, answers[..|answers| - 1], i);
    }
  }

  /** Order and multiplicity of the answer never show: equal sets of endpoints
      give the same canonical list. */
  lemma {:induction false} ResolutionDependsOnSet(n: Notation, a: seq<Answer>, b: seq<Answer>)
    requires Endpoints(n, a).Some? && Endpoints(n, b).Some?
    requires Elements(Endpoints(n, a).value) == Elements(Endpoints(n, b).value)
    ensures Resolved(n, a) == Resolved(n, b)
  {
    EndpointOrder();
    var x, y := Endpoints(n, a).value, Endpoints(n, b).value;
    CanonicalDependsOnSet(EndpointLess, x, y);
    assert x != [] ==> x[0] in Elements(x);
    assert y != [] ==> y[0] in Elements(y);
  }

  lemma {:induction false} EndpointsParsed(n: Notation, answers: seq<Answer>, e: Endpoint)
    requires Faithful(n) && Endpoints(n, answers).Some? && e in Endpoints(n, answers).value
    ensures n.parse(n.spell(AsTarget(e))) == Some(AsTarget(e)) && DestinationAllowed(AsTarget(e))
    ensures exists a :: a in answers && ToEndpoint(n, a) == Some(e)
  {
    var front, last := answers[..|answers| - 1], answers[|answers| - 1];
    if ToEndpoint(n, last) == Some(e) {
      assert last in answers;
    } else {
      EndpointsParsed(n, front, e);
    }
  }

  /** Canonical endpoints are allowed destinations, parse back from their text, are
      distinct, and are exactly the ones that were answered. */
  lemma {:induction false} ResolvedEndpoints(n: Notation, answers: seq<Answer>)
    requires Faithful(n) && Resolved(n, answers).Ok?
    ensures var es := Resolved(n, answers).value;
            && es != [] && Ascending(EndpointLess, es) && Distinct(es)
            && Elements(es) == Elements(Endpoints(n, answers).value)
            && (forall i :: 0 <= i < |es| ==>
                  && n.parse(n.spell(AsTarget(es[i]))) == Some(AsTarget(es[i])) && DestinationAllowed(AsTarget(es[i]))
                  && exists a :: a in answers && ToEndpoint(n, a) == Some(es[i]))
  {
    var all, es := Endpoints(n, answers).value, Resolved(n, answers).value;
    EndpointOrder();
    CanonicalAscends(EndpointLess, all);
    CanonicalFixpoint(EndpointLess, all);
    assert all[0] in Elements(es);
    forall i | 0 <= i < |es|
      ensures n.parse(n.spell(AsTarget(es[i]))) == Some(AsTarget(es[i])) && DestinationAllowed(AsTarget(es[i]))
      ensures exists a :: a in answers && ToEndpoint(n, a) == Some(es[i])
    {
      assert es[i] in Elements(es);
      EndpointsParsed(n, answers, es[i]);
    }
  }

  function Literals(texts: seq<string>): seq<Answer> {
    seq(|texts|, i requires 0 <= i < |texts| => Literal(texts[i]))
  }

  /** A resolver that replays canonical texts resolves to the same endpoints. */
  lemma ReplayResolved(n: Notation, es: seq<Endpoint>)
    requires es != [] && Ascending(EndpointLess, es)
    requires forall i :: 0 <= i < |es| ==> n.parse(n.spell(AsTarget(es[i]))) == Some(AsTarget(es[i]))
    ensures Resolved(n, Literals(Texts(n, es))) == Ok(es)
  {
    ReplayEndpoints(n, es);
    EndpointOrder();
    CanonicalAscends(EndpointLess, es);
    AscendingUnique(EndpointLess, es, Canonical(EndpointLess, es));
  }

  lemma {:induction false} ReplayEndpoints(n: Notation, es: seq<Endpoint>)
    requires forall i :: 0 <= i < |es| ==> n.parse(n.spell(AsTarget(es[i]))) == Some(AsTarget(es[i]))
    ensures Endpoints(n, Literals(Texts(n, es))) == Some(es)
  {
    if es != [] {
      var front, last := es[..|es| - 1], es[|es| - 1];
      var answers := Literals(Texts(n, es));
      assert answers[..|es| - 1] == Literals(Texts(n, front));
      ReplayEndpoints(n, front);
      assert ToEndpoint(n, answers[|es| - 1]) == Some(last);
      assert es == front + [last];
    }
  }

  type Resolver = string -> seq<Answer>

  /** The check both resolutions share: loopback answers count only for `localhost`. */
  predicate AnswersPermitted(g: Grant, name: string, es: seq<Endpoint>) {
    forall i :: 0 <= i < |es| ==> (name == "localhost" && Loopback(es[i].address)) || PermitsAddress(g, es[i].address)
  }

  /** `resolve_for_plan`. */
  function ResolveForPlan(n: Notation, g: Grant, name: string, resolver: Resolver, now: int): Result<seq<Endpoint>, Failure> {
    if !Authorized(g, HostTarget(name), now) then Err(PolicyFailure)
    else
      var es :- Resolved(n, resolver(name));
      :- Need(AnswersPermitted(g, name, es), PolicyFailure);
      Ok(es)
  }

  /** `recheck_resolution`. */
  function RecheckResolution(n: Notation, g: Grant, name: string, resolver: Resolver, now: int): Result<seq<Endpoint>, Failure> {
    if !Current(g, now) || !(name == "localhost" || name in g.hostnames) then Err(PolicyFailure)
    else
      var es :- Resolved(n, resolver(name));
      :- Need(AnswersPermitted(g, name, es), PolicyFailure);
      Ok(es)
  }

  /** The addresses of the two loopback networks, by number. */
  predicate LoopbackNumber(a: Address) {
    match a.version
    case V4 => 0x7F00_0000 <= a.value <= 0x7FFF_FFFF
    case V6 => a.value == 1
  }

  /** An answer counts if it lies in a grant network; a loopback one also for `localhost`,
      and for no other name. */
  predicate Answerable(g: Grant, name: string, a: Address) {
    (name == "localhost" && LoopbackNumber(a)) || exists network :: network in g.networks && Contains(network, a)
  }

  lemma LoopbackExactly(a: Address)
    ensures Loopback(a) <==> LoopbackNumber(a)
  {
    assert Pow2(6) == 64;
    assert Pow2(12) == 4096;
    assert Pow2(18) == 0x4_0000;
    assert Pow2(24) == 0x100_0000;
  }

  /** Planning resolves a host exactly when the grant is current and the host is `localhost`
      or an attested name of the grant, and every answered endpoint counts. */
  lemma ResolvesExactly(n: Notation, g: Grant, name: string, resolver: Resolver, now: int)
    ensures var answered := Resolved(n, resolver(name));
            && (ResolveForPlan(n, g, name, resolver, now).Ok? <==>
                  && (g.expiresAt.None? || now < g.expiresAt.value)
                  && (name == "localhost" || (g.attested && name in g.hostnames))
                  && answered.Ok? && forall e :: e in answered.value ==> Answerable(g, name, e.address))
            && (ResolveForPlan(n, g, name, resolver, now).Ok? ==> ResolveForPlan(n, g, name, resolver, now) == answered)
  {
    hide Resolved;
    AnswersExactly(g, name, if Resolved(n, resolver(name)).Ok? then Resolved(n, resolver(name)).value else []);
    hide AnswersPermitted, Answerable;
  }

  /** And preflight resolves it again under the same conditions, attestation apart. */
  lemma RechecksExactly(n: Notation, g: Grant, name: string, resolver: Resolver, now: int)
    ensures var answered := Resolved(n, resolver(name));
            && (RecheckResolution(n, g, name, resolver, now).Ok? <==>
                  && (g.expiresAt.None? || now < g.expiresAt.value) && (name == "localhost" || name in g.hostnames)
                  && answered.Ok? && forall e :: e in answered.value ==> Answerable(g, name, e.address))
            && (RecheckResolution(n, g, name, resolver, now).Ok? ==> RecheckResolution(n, g, name, resolver, now) == answered)
  {
    hide Resolved;
    AnswersExactly(g, name, if Resolved(n, resolver(name)).Ok? then Resolved(n, resolver(name)).value else []);
    hide AnswersPermitted, Answerable;
  }

  lemma AnswersExactly(g: Grant, name: string, es: seq<Endpoint>)
    ensures AnswersPermitted(g, name, es) <==> forall e :: e in es ==> Answerable(g, name, e.address)
  {
    forall i | 0 <= i < |es| ensures Loopback(es[i].address) <==> LoopbackNumber(es[i].address) {
      LoopbackExactly(es[i].address);
    }
    hide Loopback, LoopbackNumber;
    if AnswersPermitted(g, name, es) {
      forall e | e in es ensures Answerable(g, name, e.address) {
        var i :| 0 <= i < |es| && es[i] == e;
        assert PermitsAddress(g, es[i].address) || name == "localhost";
      }
    }
    if forall e :: e in es ==> Answerable(g, name, e.address) {
      forall i | 0 <= i < |es|
        ensures (name == "localhost" && Loopback(es[i].address)) || PermitsAddress(g, es[i].address)
      {
        assert Answerable(g, name, es[i].address);
      }
    }
  }

  // --- what stays uninterpreted --------------------------------------------------------

  /** Target notation, SHA-256 over payload octets, and the size of a result envelope
      around given steps and scope. */
  datatype Environment = Environment(
    notation: Notation, sha256: seq<bv8> -> string, envelope: (seq<ProbeStep>, Grant) -> nat)

  predicate Hex64(s: string) {
    |s| == 64 && forall i :: 0 <= i < |s| ==> '0' <= s[i] <= '9' || 'a' <= s[i] <= 'f'
  }

  ghost predicate Sound(env: Environment) {
    Faithful(env.notation) && forall octets :: Hex64(env.sha256(octets))
  }
}
