/** Addresses and networks as version, base integer and prefix length, with the
    destination policy: which of them an active probe may ever name. */
module Networks {
  import opened Outcomes

  datatype Version = V4 | V6

  datatype Address = Address(version: Version, value: nat)

  datatype Block = Block(version: Version, base: nat, prefix: nat)

  type Network = b: Block | b.prefix <= Bits(b.version) witness Block(V4, 0, 32)

  function Bits(version: Version): nat {
    if version.V4? then 32 else 128
  }

  function Pow2(n: nat): (r: nat)
    ensures r >= 1
    ensures n >= 2 ==> r >= 4
  {
    if n == 0 then 1 else 2 * Pow2(n - 1)
  }

  function Size(n: Network): (r: nat)
    ensures r >= 1
    ensures n.prefix + 2 <= Bits(n.version) ==> r >= 4
  {
    Pow2(Bits(n.version) - n.prefix)
  }

  function Last(n: Network): int {
    n.base + Size(n) - 1
  }

  predicate Contains(n: Network, a: Address) {
    a.version == n.version && n.base <= a.value <= Last(n)
  }

  predicate SubnetOf(inner: Network, outer: Network) {
    inner.version == outer.version && outer.base <= inner.base && Last(inner) <= Last(outer)
  }

  predicate Overlaps(m: Network, n: Network) {
    m.version == n.version && m.base <= Last(n) && n.base <= Last(m)
  }

  const LOOPBACK4: Network := Block(V4, 0x7F00_0000, 8)
  const INTERNAL4: seq<Network> := [
    Block(V4, 0x0A00_0000, 8), Block(V4, 0xAC10_0000, 12), Block(V4, 0xC0A8_0000, 16), Block(V4, 0x6440_0000, 10)]
  const LOOPBACK6: Network := Block(V6, 1, 128)
  const ULA6: Network := Block(V6, 0xFC00_0000_0000_0000_0000_0000_0000_0000, 7)
  const LINK6: Network := Block(V6, 0xFE80_0000_0000_0000_0000_0000_0000_0000, 10)
  const MULTICAST4: Network := Block(V4, 0xE000_0000, 4)
  const MULTICAST6: Network := Block(V6, 0xFF00_0000_0000_0000_0000_0000_0000_0000, 8)
  const LIMITED_BROADCAST: Address := Address(V4, 0xFFFF_FFFF)

  function Multicast(version: Version): Network {
    if version.V4? then MULTICAST4 else MULTICAST6
  }

  predicate Loopback(a: Address) {
    Contains(if a.version.V4? then LOOPBACK4 else LOOPBACK6, a)
  }

  /** An address of one of the private ranges; link-local counts for IPv6. */
  predicate Internal(a: Address) {
    if a.version.V4? then
      Contains(LOOPBACK4, a) || exists i :: 0 <= i < |INTERNAL4| && Contains(INTERNAL4[i], a)
    else
      Contains(LOOPBACK6, a) || Contains(ULA6, a) || Contains(LINK6, a)
  }

  /** `_assert_destination_address`. */
  predicate AddressAllowed(a: Address, scoped: bool) {
    && a.value != 0
    && !Contains(Multicast(a.version), a)
    && a != LIMITED_BROADCAST
    && Internal(a)
    && (a.version.V6? && !Contains(LOOPBACK6, a) && !Contains(ULA6, a) ==> scoped)
  }

  predicate InternalBlock(n: Network) {
    if n.version.V4? then
      SubnetOf(n, LOOPBACK4) || exists i :: 0 <= i < |INTERNAL4| && SubnetOf(n, INTERNAL4[i])
    else
      SubnetOf(n, LOOPBACK6) || SubnetOf(n, ULA6) || SubnetOf(n, LINK6)
  }

  /** `_assert_destination_network`. */
  predicate NetworkAllowed(n: Network) {
    && !Overlaps(n, Multicast(n.version))
    && !Contains(n, Address(n.version, 0))
    && !(n.version.V4? && Contains(n, LIMITED_BROADCAST))
    && InternalBlock(n)
  }

  /** Every address of an allowed network is internal, and for IPv4 it may be
      named on its own as well. */
  lemma AllowedNetworkMembers(n: Network, a: Address)
    requires NetworkAllowed(n) && Contains(n, a)
    ensures Internal(a)
    ensures n.version.V4? ==> AddressAllowed(a, false)
    ensures SubnetOf(n, if n.version.V4? then LOOPBACK4 else LOOPBACK6) ==> Loopback(a)
  {
    if n.version.V4? && !SubnetOf(n, LOOPBACK4) {
      var i :| 0 <= i < |INTERNAL4| && SubnetOf(n, INTERNAL4[i]);
      assert Contains(INTERNAL4[i], a);
    }
  }

  // --- the same by number ----------------------------------------------------------

  lemma PowStep(n: nat)
    ensures Pow2(n + 1) == 2 * Pow2(n) && Pow2(0) == 1
  {
  }

  lemma Doubled(x: nat, y: nat)
    ensures (2 * x) * y == 2 * (x * y)
  {
  }

  lemma {:induction false} PowSum(a: nat, b: nat)
    ensures Pow2(a + b) == Pow2(a) * Pow2(b)
  {
    hide Pow2;
    if a == 0 {
      PowStep(0);
    } else {
      PowSum(a - 1, b);
      PowStep(a - 1);
      PowStep(a - 1 + b);
      Doubled(Pow2(a - 1), Pow2(b));
    }
  }

  lemma SmallPowers()
    ensures Pow2(16) == 0x1_0000 && Pow2(20) == 0x10_0000 && Pow2(22) == 0x40_0000 && Pow2(24) == 0x100_0000
    ensures Pow2(28) == 0x1000_0000 && Pow2(32) == 0x1_0000_0000
  {
    assert Pow2(4) == 16 && Pow2(2) == 4;
    hide Pow2;
    PowSum(4, 4);
    PowSum(8, 8);
    PowSum(16, 4);
    PowSum(20, 2);
    PowSum(20, 4);
    PowSum(24, 4);
    PowSum(16, 16);
  }

  lemma LargePowers()
    ensures Pow2(118) == 0x40_0000_0000_0000_0000_0000_0000_0000
    ensures Pow2(120) == 0x100_0000_0000_0000_0000_0000_0000_0000 && Pow2(121) == 0x200_0000_0000_0000_0000_0000_0000_0000
  {
    assert Pow2(2) == 4 && Pow2(1) == 2;
    hide Pow2;
    SmallPowers();
    PowSum(32, 32);
    PowSum(64, 32);
    PowSum(96, 22);
    PowSum(118, 2);
    PowSum(120, 1);
  }

  /** The octets first to last of one private range: 127/8, 10/8, 172.16/12, 192.168/16 and
      100.64/10; the address ::1, fc00::/7, and fe80::/10. */
  predicate PrivateRange(version: Version, first: nat, last: nat) {
    match version
    case V4 =>
      || (0x7F00_0000 <= first && last <= 0x7FFF_FFFF) || (0x0A00_0000 <= first && last <= 0x0AFF_FFFF)
      || (0xAC10_0000 <= first && last <= 0xAC1F_FFFF) || (0xC0A8_0000 <= first && last <= 0xC0A8_FFFF)
      || (0x6440_0000 <= first && last <= 0x647F_FFFF)
    case V6 =>
      || first == last == 1 || LinkLocalRange(first, last)
      || (0xFC00_0000_0000_0000_0000_0000_0000_0000 <= first && last <= 0xFDFF_FFFF_FFFF_FFFF_FFFF_FFFF_FFFF_FFFF)
  }

  predicate LinkLocalRange(first: nat, last: nat) {
    0xFE80_0000_0000_0000_0000_0000_0000_0000 <= first && last <= 0xFEBF_FFFF_FFFF_FFFF_FFFF_FFFF_FFFF_FFFF
  }

  /** An address may be named exactly when it lies in a private range; a link-local one needs
      a scope. */
  lemma AllowedExactly(a: Address, scoped: bool)
    ensures AddressAllowed(a, scoped) <==>
              PrivateRange(a.version, a.value, a.value) && (a.version == V6 && LinkLocalRange(a.value, a.value) ==> scoped)
  {
    RangesExactly();
    hide Pow2;
    if a.version.V4? {
      assert Internal(a) <==> PrivateRange(V4, a.value, a.value) by { InternalByNumber(a); }
    }
  }

  lemma RangesExactly()
    ensures Last(LOOPBACK4) == 0x7FFF_FFFF && Last(MULTICAST4) == 0xEFFF_FFFF && Last(LOOPBACK6) == 1
    ensures Last(INTERNAL4[0]) == 0x0AFF_FFFF && Last(INTERNAL4[1]) == 0xAC1F_FFFF
    ensures Last(INTERNAL4[2]) == 0xC0A8_FFFF && Last(INTERNAL4[3]) == 0x647F_FFFF
    ensures Last(ULA6) == 0xFDFF_FFFF_FFFF_FFFF_FFFF_FFFF_FFFF_FFFF && Last(LINK6) == 0xFEBF_FFFF_FFFF_FFFF_FFFF_FFFF_FFFF_FFFF
    ensures Last(MULTICAST6) == 0xFFFF_FFFF_FFFF_FFFF_FFFF_FFFF_FFFF_FFFF
  {
    assert Pow2(0) == 1;
    hide Pow2;
    SmallPowers();
    LargePowers();
  }

  lemma InternalByNumber(a: Address)
    requires a.version.V4?
    ensures Internal(a) <==> PrivateRange(V4, a.value, a.value)
  {
    RangesExactly();
    hide Pow2, Size, Last;
    assert Contains(INTERNAL4[0], a) <==> 0x0A00_0000 <= a.value <= 0x0AFF_FFFF;
    assert Contains(INTERNAL4[1], a) <==> 0xAC10_0000 <= a.value <= 0xAC1F_FFFF;
    assert Contains(INTERNAL4[2], a) <==> 0xC0A8_0000 <= a.value <= 0xC0A8_FFFF;
    assert Contains(INTERNAL4[3], a) <==> 0x6440_0000 <= a.value <= 0x647F_FFFF;
  }

  /** A network may be granted exactly when all of it lies in one private range. */
  lemma GrantableExactly(n: Network)
    ensures NetworkAllowed(n) <==> Last(n) >= 0 && PrivateRange(n.version, n.base, Last(n))
  {
    RangesExactly();
    hide Pow2, Size;
    assert Last(n) >= n.base;
    hide Last;
    assert n.version.V4? ==>
      && (SubnetOf(n, INTERNAL4[0]) <==> 0x0A00_0000 <= n.base && Last(n) <= 0x0AFF_FFFF)
      && (SubnetOf(n, INTERNAL4[1]) <==> 0xAC10_0000 <= n.base && Last(n) <= 0xAC1F_FFFF)
      && (SubnetOf(n, INTERNAL4[2]) <==> 0xC0A8_0000 <= n.base && Last(n) <= 0xC0A8_FFFF)
      && (SubnetOf(n, INTERNAL4[3]) <==> 0x6440_0000 <= n.base && Last(n) <= 0x647F_FFFF);
  }

  // --- targets ------------------------------------------------------------------

  datatype Target =
    | AddressTarget(address: Address, scope: Option<string>)
    | NetworkTarget(network: Network)
    | HostTarget(name: string)

  predicate DestinationAllowed(t: Target) {
    match t
    case AddressTarget(a, scope) =>
      AddressAllowed(a, scope.Some?) && (scope.Some? ==> Contains(LINK6, a))
    case NetworkTarget(n) => NetworkAllowed(n)
    case HostTarget(_) => true
  }

  predicate LoopbackTarget(t: Target) {
    match t
    case AddressTarget(a, _) => Loopback(a)
    case NetworkTarget(n) => SubnetOf(n, if n.version.V4? then LOOPBACK4 else LOOPBACK6)
    case HostTarget(name) => name == "localhost"
  }

  /** The addresses that `hosts()` enumerates. */
  function Hosts(n: Network): (hosts: seq<Address>)
    ensures forall i :: 0 <= i < |hosts| ==> Contains(n, hosts[i])
    ensures forall i, j :: 0 <= i < j < |hosts| ==> hosts[i] != hosts[j]
  {
    var bits := Bits(n.version);
    if n.prefix + 2 <= bits then
      var skipLast := if n.version.V4? then 1 else 0;
      seq(Size(n) - 1 - skipLast, i requires 0 <= i => Address(n.version, n.base + 1 + i))
    else
      seq(Size(n), i requires 0 <= i => Address(n.version, n.base + i))
  }

  /** The hosts of a network are all its addresses, in one of two or fewer; a larger one
      leaves out its first address and, for IPv4, its last. */
  lemma HostsExactly(n: Network, a: Address)
    ensures a in Hosts(n) <==>
              Contains(n, a) && (Size(n) > 2 ==> a.value != n.base && (n.version == V4 ==> a.value != Last(n)))
  {
    var hosts := Hosts(n);
    SizeByPrefix(n);
    hide Pow2;
    if Contains(n, a) && (Size(n) > 2 ==> a.value != n.base && (n.version == V4 ==> a.value != Last(n))) {
      var i := if Size(n) > 2 then a.value - n.base - 1 else a.value - n.base;
      assert hosts[i] == a;
    }
  }

  lemma SizeByPrefix(n: Network)
    ensures Size(n) > 2 <==> n.prefix + 2 <= Bits(n.version)
  {
    if n.prefix + 2 > Bits(n.version) {
      assert Pow2(0) == 1 && Pow2(1) == 2;
    }
  }

  /** `Target.host_count`: refused for an IPv6 range. */
  function HostCount(n: Network): Option<nat> {
    if n.version.V6? && n.prefix < 128 then None
    else if n.version.V4? && n.prefix < 31 then Some(Size(n) - 2)
    else Some(Size(n))
  }

  lemma HostCountMatchesHosts(n: Network)
    ensures HostCount(n).Some? ==> HostCount(n).value == |Hosts(n)|
  {
  }

  // --- text -----------------------------------------------------------------------

  /** How targets are spelled. Parsing of addresses, CIDR blocks and internationalised
      names is left uninterpreted; `Faithful` is what the model assumes of it. */
  datatype Notation = Notation(spell: Target -> string, parse: string -> Option<Target>)

  /** Parsing refuses disallowed destinations; a parsed target prints to its
      canonical text, which parses back; a plain address is parsed exactly when it
      is an allowed destination. */
  ghost predicate Faithful(n: Notation) {
    && (forall s :: n.parse(s).Some? ==>
          DestinationAllowed(n.parse(s).value) && n.parse(n.spell(n.parse(s).value)) == n.parse(s))
    && (forall a :: var t := AddressTarget(a, None);
          n.parse(n.spell(t)) == if DestinationAllowed(t) then Some(t) else None)
  }
}
