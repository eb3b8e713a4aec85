/** The check that a POST comes from the hosting service: the requester's address must
    lie in one of the hook network blocks (`ipaddress.ip_address(ip) in
    ipaddress.ip_network(block)`). Addresses and networks are taken already parsed. */
module AllowList {

  datatype Family = IPv4 | IPv6

  /** Number of bits in an address of the family. */
  function Width(f: Family): nat
  {
    match f
    case IPv4 => 32
    case IPv6 => 128
  }

  function Pow2(n: nat): (r: nat)
    ensures r > 0
  {
    if n == 0 then 1 else 2 * Pow2(n - 1)
  }

  /** An address, as the integer its bits spell. */
  datatype Address = Address(family: Family, value: nat)

  /** A network block `base/prefix`; `base` is the network address. */
  datatype Network = Network(family: Family, base: nat, prefix: nat)

  predicate WellFormedAddress(a: Address)
  {
    a.value < Pow2(Width(a.family))
  }

  /** `ip in net`: always false across families; otherwise the leading `prefix`
      bits of the address are those of the network address. */
  predicate Contains(net: Network, ip: Address)
  {
    ip.family == net.family && net.prefix <= Width(net.family) &&
    ip.value / Pow2(Width(net.family) - net.prefix) == net.base / Pow2(Width(net.family) - net.prefix)
  }

  /** A block of prefix length 0 holds every address of its family. */
  lemma WholeSpace(net: Network, ip: Address)
    requires net.prefix == 0 && ip.family == net.family
    requires WellFormedAddress(ip) && net.base < Pow2(Width(net.family))
    ensures Contains(net, ip)
  {
    var d := Pow2(Width(net.family));
    SmallQuotient(ip.value, d);
    SmallQuotient(net.base, d);
  }

  lemma SmallQuotient(x: nat, d: nat)
    requires x < d
    ensures x / d == 0
  {
  }

  /** A block of full prefix length holds its own address and no other. */
  lemma HostRoute(net: Network, ip: Address)
    requires net.prefix == Width(net.family)
    ensures Contains(net, ip) <==> ip.family == net.family && ip.value == net.base
  {
  }

  /** Number of addresses in a block. */
  function BlockSize(net: Network): (s: nat)
    requires net.prefix <= Width(net.family)
    ensures s > 0
  {
    Pow2(Width(net.family) - net.prefix)
  }

  /** For every prefix length, a block holds exactly the addresses of its family that
      lie between its network address `lo` (the base with its host bits cleared) and
      its broadcast address `lo + BlockSize(net) - 1`. */
  lemma ContainsIsRange(net: Network, ip: Address, lo: nat)
    requires net.prefix <= Width(net.family)
    requires lo == net.base / BlockSize(net) * BlockSize(net)
    ensures Contains(net, ip) <==> ip.family == net.family && lo <= ip.value < lo + BlockSize(net)
  {
    ContainsByQuotient(net, ip);
    QuotientRange(ip.value, BlockSize(net), net.base / BlockSize(net), lo);
  }

  lemma ContainsByQuotient(net: Network, ip: Address)
    requires net.prefix <= Width(net.family)
    ensures Contains(net, ip) <==> ip.family == net.family && ip.value / BlockSize(net) == net.base / BlockSize(net)
  {
  }

  /** `x // s == q` exactly when `x` lies in the `q`-th run of `s` numbers, the one
      that starts at `lo`. */
  lemma QuotientRange(x: nat, s: nat, q: nat, lo: nat)
    requires s > 0 && lo == q * s
    ensures x / s == q <==> lo <= x < lo + s
  {
    var d := x / s;
    assert x == d * s + x % s;
    if lo <= x < lo + s {
      if d < q {
        MulMonotone(d + 1, q, s);
      } else if d > q {
        MulMonotone(q + 1, d, s);
      }
    }
  }

  lemma MulMonotone(a: nat, b: nat, s: nat)
    requires a <= b
    ensures a * s <= b * s
  {
  }

  /** Some block of the list holds the address. */
  predicate Allowed(ip: Address, blocks: seq<Network>)
  {
    exists i :: 0 <= i < |blocks| && Contains(blocks[i], ip)
  }

  /** The `for block in hook_blocks: ... break / else: abort(403)` scan. */
  method IsAllowed(ip: Address, blocks: seq<Network>) returns (allowed: bool)
    ensures allowed == Allowed(ip, blocks)
    ensures blocks == [] ==> !allowed
  {
    allowed := false;
    var i := 0;
    while i < |blocks|
      invariant 0 <= i <= |blocks|
      invariant forall k :: 0 <= k < i ==> !Contains(blocks[k], ip)
    {
      if Contains(blocks[i], ip) {
        allowed := true;
        break;
      }
      i := i + 1;
    }
  }
}
